/** The string primitives the screens rely on: `replace(" ", "")`, `trim()`,
    `isBlank()`, case-insensitive character equality and Kotlin's
    `indexOf(other, startIndex, ignoreCase = true)`, `contains` and
    `startsWith`.  Only the ASCII part of Kotlin's whitespace and case tables
    is modelled. */
module Text {

  const Space: char := ' '

  /** Kotlin's `Char.isWhitespace()` restricted to ASCII: tab, line feed,
      vertical tab, form feed, carriage return, the four information
      separators U+001C..U+001F, and the space. */
  predicate IsWhitespace(c: char) {
    9 <= c as int <= 13 || 28 <= c as int <= 32
  }

  /** `isBlank()`: every character is whitespace (so the empty string is blank). */
  predicate IsBlank(s: string) {
    forall i :: 0 <= i < |s| ==> IsWhitespace(s[i])
  }

  // ---------------------------------------------------------------------
  // Case-insensitive comparison

  /** `uppercaseChar()` on ASCII letters; every other character is unchanged. */
  function UpperAscii(c: char): char {
    if 'a' <= c <= 'z' then (c as int - 32) as char else c
  }

  /** `Char.equals(other, ignoreCase = true)`: equal, or equal once upper-cased. */
  predicate EqualsIgnoreCase(a: char, b: char) {
    a == b || UpperAscii(a) == UpperAscii(b)
  }

  /** The assumed properties of ignore-case equality: an equivalence relation
      that identifies a space only with a space. */
  lemma EqualsIgnoreCaseIsEquivalence(a: char, b: char, c: char)
    ensures EqualsIgnoreCase(a, a)
    ensures EqualsIgnoreCase(a, b) ==> EqualsIgnoreCase(b, a)
    ensures EqualsIgnoreCase(a, b) && EqualsIgnoreCase(b, c) ==> EqualsIgnoreCase(a, c)
    ensures EqualsIgnoreCase(a, Space) <==> a == Space
  {
  }

  /** Two strings of the same length that agree position by position, ignoring case. */
  predicate SeqEqualsIgnoreCase(a: string, b: string) {
    |a| == |b| && forall k :: 0 <= k < |a| ==> EqualsIgnoreCase(a[k], b[k])
  }

  /** `q.regionMatches(0, s, p, q.length, ignoreCase = true)`: `q` occurs in `s` at `p`. */
  predicate MatchesAt(s: string, q: string, p: nat) {
    p + |q| <= |s| && MatchesFrom(s, q, p, 0)
  }

  predicate MatchesFrom(s: string, q: string, p: nat, k: nat)
    requires p + |q| <= |s| && k <= |q|
    decreases |q| - k
  {
    k == |q| || (EqualsIgnoreCase(s[p + k], q[k]) && MatchesFrom(s, q, p, k + 1))
  }

  lemma {:induction false} MatchesFromMeaning(s: string, q: string, p: nat, k: nat)
    requires p + |q| <= |s| && k <= |q|
    ensures MatchesFrom(s, q, p, k) <==> forall j :: k <= j < |q| ==> EqualsIgnoreCase(s[p + j], q[j])
    decreases |q| - k
  {
    if k < |q| {
      MatchesFromMeaning(s, q, p, k + 1);
    }
  }

  lemma MatchesAtMeaning(s: string, q: string, p: nat)
    ensures MatchesAt(s, q, p) <==> p + |q| <= |s| && forall k :: 0 <= k < |q| ==> EqualsIgnoreCase(s[p + k], q[k])
  {
    if p + |q| <= |s| {
      MatchesFromMeaning(s, q, p, 0);
    }
  }

  /** `s.indexOf(q, from, ignoreCase = true)`: the least index `i` with
      `from <= i <= |s|` at which `q` occurs, or -1 when there is none. */
  function IndexOf(s: string, q: string, from: nat): (r: int)
    ensures r == -1 || (from <= r && MatchesAt(s, q, r))
    decreases |s| + 1 - from
  {
    if from > |s| then -1
    else if MatchesAt(s, q, from) then from
    else IndexOf(s, q, from + 1)
  }

  /** `IndexOf` finds the leftmost occurrence: any occurrence at or after
      `from` means a hit at or before it. */
  lemma {:induction false} IndexOfLeftmost(s: string, q: string, from: nat, i: nat)
    requires from <= i && MatchesAt(s, q, i)
    ensures 0 <= IndexOf(s, q, from) <= i
    decreases i - from
  {
    if from < i && !MatchesAt(s, q, from) {
      IndexOfLeftmost(s, q, from + 1, i);
    }
  }

  /** `s.contains(q, ignoreCase = true)`, which Kotlin defines as `indexOf(q) >= 0`. */
  predicate ContainsIgnoreCase(s: string, q: string) {
    IndexOf(s, q, 0) >= 0
  }

  /** `s.startsWith(q, ignoreCase = true)`. */
  predicate StartsWithIgnoreCase(s: string, q: string) {
    MatchesAt(s, q, 0)
  }

  /** Containment means an occurrence somewhere, and a prefix is one such
      occurrence: a `startsWith` test never adds to a `contains` test. */
  lemma ContainsIffOccurs(s: string, q: string)
    ensures ContainsIgnoreCase(s, q) <==> exists p: nat :: MatchesAt(s, q, p)
    ensures StartsWithIgnoreCase(s, q) ==> ContainsIgnoreCase(s, q)
  {
    var r := IndexOf(s, q, 0);
    if r >= 0 {
      assert MatchesAt(s, q, r as nat);
    } else {
      forall p: nat ensures !MatchesAt(s, q, p) {
        if MatchesAt(s, q, p) { IndexOfLeftmost(s, q, 0, p); }
      }
    }
  }

  // ---------------------------------------------------------------------
  // replace(" ", "")

  /** `replace(" ", "")`: the characters of `s` other than U+0020, in order.
      Tabs, newlines and the other whitespace characters are kept. */
  function StripSpaces(s: string): (r: string)
    ensures |r| <= |s|
  {
    if s == [] then []
    else
      var last := s[|s| - 1];
      StripSpaces(s[..|s| - 1]) + (if last == Space then [] else [last])
  }

  /** Only U+0020 is removed: the stripped string holds no space and keeps
      every other character (tabs and newlines included) as often as `s` does. */
  lemma {:induction false} StripSpacesRemovesOnlySpaces(s: string)
    ensures Space !in StripSpaces(s)
    ensures forall c :: c != Space ==> multiset(StripSpaces(s))[c] == multiset(s)[c]
  {
    if s != [] {
      var init, last := s[..|s| - 1], s[|s| - 1];
      StripSpacesRemovesOnlySpaces(init);
      var kept := if last == Space then [] else [last];
      assert s == init + [last];
      assert StripSpaces(s) == StripSpaces(init) + kept;
      assert multiset(StripSpaces(s)) == multiset(StripSpaces(init)) + multiset(kept);
      assert multiset(s) == multiset(init) + multiset([last]);
    }
  }

  /** Stripping works piece by piece: `(a + b).replace(" ", "")` is the
      two stripped pieces joined. */
  lemma {:induction false} StripSpacesAppend(a: string, b: string)
    ensures StripSpaces(a + b) == StripSpaces(a) + StripSpaces(b)
    decreases |b|
  {
    if b != [] {
      var init, last := b[..|b| - 1], b[|b| - 1];
      StripSpacesAppend(a, init);
      assert (a + b)[..|a + b| - 1] == a + init;
      assert b[..|b| - 1] == init;
    } else {
      assert a + b == a;
    }
  }

  /** A string without U+0020 is left as it is. */
  lemma {:induction false} StripSpacesNoSpace(s: string)
    requires Space !in s
    ensures StripSpaces(s) == s
  {
    if s != [] {
      assert Space !in s[..|s| - 1];
      StripSpacesNoSpace(s[..|s| - 1]);
      assert s[..|s| - 1] + [s[|s| - 1]] == s;
    }
  }

  /** A space then a space-free word: stripping drops the space and keeps the word. */
  lemma StripSpacesJoin(a: string, b: string)
    requires Space !in b
    ensures StripSpaces(a + [Space] + b) == StripSpaces(a) + b
  {
    var sp: string := [Space];
    assert sp[..0] == [];
    assert StripSpaces(sp) == [];
    StripSpacesAppend(a + sp, b);
    StripSpacesAppend(a, sp);
    StripSpacesNoSpace(b);
    assert StripSpaces(a + sp) == StripSpaces(a);
  }

  // ---------------------------------------------------------------------
  // The index mapping between a string and its stripped form

  /** The number of non-space characters in `s[..i]`. */
  function CountNonSpace(s: string, i: nat): nat
    requires i <= |s|
  {
    if i == 0 then 0
    else CountNonSpace(s, i - 1) + (if s[i - 1] == Space then 0 else 1)
  }

  /** Counting in a prefix of `s` is counting in `s`. */
  lemma {:induction false} CountNonSpaceOfPrefix(s: string, j: nat, i: nat)
    requires i <= j <= |s|
    ensures CountNonSpace(s[..j], i) == CountNonSpace(s, i)
  {
    if i > 0 {
      CountNonSpaceOfPrefix(s, j, i - 1);
    }
  }

  /** The count grows with `i`, strictly when a non-space character is passed. */
  lemma {:induction false} CountNonSpaceMonotone(s: string, i: nat, j: nat)
    requires i <= j <= |s|
    ensures CountNonSpace(s, i) <= CountNonSpace(s, j)
    ensures i < j && s[i] != Space ==> CountNonSpace(s, i) < CountNonSpace(s, j)
  {
    if i < j {
      CountNonSpaceMonotone(s, i, j - 1);
    }
  }

  /** The stripped string has one character per non-space character of `s`. */
  lemma {:induction false} StripSpacesLength(s: string)
    ensures |StripSpaces(s)| == CountNonSpace(s, |s|)
  {
    if s != [] {
      var init := s[..|s| - 1];
      StripSpacesLength(init);
      CountNonSpaceOfPrefix(s, |s| - 1, |s| - 1);
    }
  }

  /** The non-space character at `i` sits in the stripped string at the
      number of non-space characters before it. */
  lemma {:induction false} StripSpacesAt(s: string, i: nat)
    requires i < |s| && s[i] != Space
    ensures CountNonSpace(s, i) < |StripSpaces(s)|
    ensures StripSpaces(s)[CountNonSpace(s, i)] == s[i]
  {
    var init := s[..|s| - 1];
    StripSpacesLength(init);
    CountNonSpaceOfPrefix(s, |s| - 1, i);
    if i < |s| - 1 {
      StripSpacesAt(init, i);
    } else {
      CountNonSpaceOfPrefix(s, |s| - 1, |s| - 1);
    }
  }

  /** Stripping a slice gives the matching slice of the stripped string. */
  lemma {:induction false} StripSpacesSlice(s: string, a: nat, b: nat)
    requires a <= b <= |s|
    ensures CountNonSpace(s, a) <= CountNonSpace(s, b) <= |StripSpaces(s)|
    ensures StripSpaces(s[a..b]) == StripSpaces(s)[CountNonSpace(s, a)..CountNonSpace(s, b)]
    decreases b
  {
    CountNonSpaceMonotone(s, a, b);
    CountNonSpaceMonotone(s, b, |s|);
    StripSpacesLength(s);
    if a == b {
      assert s[a..b] == [];
    } else {
      StripSpacesSlice(s, a, b - 1);
      var stripped := StripSpaces(s);
      var ca, cb := CountNonSpace(s, a), CountNonSpace(s, b - 1);
      assert s[a..b][..b - 1 - a] == s[a..b - 1];
      assert StripSpaces(s[a..b]) == stripped[ca..cb] + (if s[b - 1] == Space then [] else [s[b - 1]]);
      if s[b - 1] != Space {
        StripSpacesAt(s, b - 1);
        SliceExtend(stripped, ca, cb);
      }
    }
  }

  lemma SliceExtend<T>(s: seq<T>, i: nat, j: nat)
    requires i <= j < |s|
    ensures s[i..j + 1] == s[i..j] + [s[j]]
  {
  }

  /** The index in `s` of its `k`-th non-space character (counting from 0). */
  function NthNonSpace(s: string, k: nat): (i: nat)
    requires k < |StripSpaces(s)|
    ensures i < |s| && s[i] != Space && CountNonSpace(s, i) == k
  {
    StripSpacesLength(s);
    NthNonSpaceFrom(s, k, 0)
  }

  /** The search behind `NthNonSpace`, from index `i` on. */
  function NthNonSpaceFrom(s: string, k: nat, i: nat): (r: nat)
    requires i <= |s| && CountNonSpace(s, i) <= k < CountNonSpace(s, |s|)
    ensures i <= r < |s| && s[r] != Space && CountNonSpace(s, r) == k
    decreases |s| - i
  {
    if s[i] != Space && CountNonSpace(s, i) == k then i
    else NthNonSpaceFrom(s, k, i + 1)
  }

  /** The non-space character at `i` preceded by exactly `k` non-space
      characters is the `k`-th one. */
  lemma NthNonSpaceUnique(s: string, k: nat, i: nat)
    requires i < |s| && s[i] != Space && CountNonSpace(s, i) == k
    ensures k < |StripSpaces(s)| && NthNonSpace(s, k) == i
  {
    CountNonSpaceMonotone(s, i, |s|);
    StripSpacesLength(s);
    var j := NthNonSpace(s, k);
    if j < i {
      CountNonSpaceMonotone(s, j, i);
    } else if i < j {
      CountNonSpaceMonotone(s, i, j);
    }
  }

  /** The index mapping is strictly increasing. */
  lemma NthNonSpaceMonotone(s: string, k: nat, k': nat)
    requires k < k' < |StripSpaces(s)|
    ensures NthNonSpace(s, k) < NthNonSpace(s, k')
  {
    var a, b := NthNonSpace(s, k), NthNonSpace(s, k');
    if b <= a {
      CountNonSpaceMonotone(s, b, a);
    }
  }

  // ---------------------------------------------------------------------
  // trim()

  function TrimStart(s: string): (r: string)
    ensures |r| <= |s| && r == s[|s| - |r|..]
    ensures forall i :: 0 <= i < |s| - |r| ==> IsWhitespace(s[i])
    ensures r != [] ==> !IsWhitespace(r[0])
  {
    if s != [] && IsWhitespace(s[0]) then TrimStart(s[1..]) else s
  }

  function TrimEnd(s: string): (r: string)
    ensures |r| <= |s| && r == s[..|r|]
    ensures forall i :: |r| <= i < |s| ==> IsWhitespace(s[i])
    ensures r != [] ==> !IsWhitespace(r[|r| - 1])
  {
    if s != [] && IsWhitespace(s[|s| - 1]) then TrimEnd(s[..|s| - 1]) else s
  }

  /** `trim()`: `s` without its leading and trailing whitespace. */
  function Trim(s: string): (r: string)
    ensures |r| <= |s|
    ensures r != [] ==> !IsWhitespace(r[0]) && !IsWhitespace(r[|r| - 1])
    ensures r == [] <==> IsBlank(s)
    ensures exists a, b ::
              && 0 <= a <= b <= |s| && r == s[a..b]
              && (forall i :: 0 <= i < a ==> IsWhitespace(s[i]))
              && (forall i :: b <= i < |s| ==> IsWhitespace(s[i]))
  {
    var t := TrimStart(s);
    var r := TrimEnd(t);
    assert r != [] ==> r[0] == t[0];
    TrimmedIsSlice(s, t, r);
    r
  }

  /** The two trims together cut whitespace off both ends of `s`. */
  lemma {:induction false} TrimmedIsSlice(s: string, t: string, r: string)
    requires t == TrimStart(s) && r == TrimEnd(t)
    ensures exists a, b ::
              && 0 <= a <= b <= |s| && r == s[a..b]
              && (forall i :: 0 <= i < a ==> IsWhitespace(s[i]))
              && (forall i :: b <= i < |s| ==> IsWhitespace(s[i]))
  {
    var a := |s| - |t|;
    var b := a + |r|;
    assert t == s[a..] && r == t[..|r|];
    assert r == s[a..b];
    assert forall i :: 0 <= i < a ==> IsWhitespace(s[i]);
    forall i | b <= i < |s|
      ensures IsWhitespace(s[i])
    {
      assert s[i] == t[i - a];
    }
    assert 0 <= a <= b <= |s| && r == s[a..b];
  }
}
