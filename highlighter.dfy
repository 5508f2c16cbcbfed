/** The whitespace-insensitive search highlighter that the notes screen (for
    titles and descriptions) and the to-do row share.  The source repeats the
    same loops three times; here they are one method, `HighlightRanges`, that
    returns the `[start, end)` ranges the source passes to `addStyle`. */
module Highlighter {
  import opened Text

  /** A half-open range `[start, end)` of indices into the displayed text. */
  type Range = (int, int)

  /** What `buildAnnotatedString` produces: the text and its highlighted ranges. */
  datatype Annotated = Annotated(text: string, spans: seq<Range>)

  /** The query the screens hand to the highlighter:
      `searchText.replace(" ", "").trim()`. */
  function SearchQuery(searchText: string): (q: string)
    ensures Space !in q
    ensures q == [] <==> IsBlank(StripSpaces(searchText))
  {
    StripSpacesRemovesOnlySpaces(searchText);
    Trim(StripSpaces(searchText))
  }

  // ---------------------------------------------------------------------
  // The scan in stripped coordinates

  /** The positions, in the stripped text `s`, at which the scan finds `q`:
      from `cursor`, take the leftmost occurrence `p` and resume at `p + |q|`,
      until no occurrence is left or the cursor reaches the end. */
  function MatchStarts(s: string, q: string, cursor: nat): (ps: seq<nat>)
    requires |q| > 0
    ensures forall i :: 0 <= i < |ps| ==> cursor <= ps[i] && ps[i] + |q| <= |s|
    decreases |s| - cursor
  {
    if cursor >= |s| then []
    else
      var p := IndexOf(s, q, cursor);
      if p == -1 then [] else [p as nat] + MatchStarts(s, q, p + |q|)
  }

  /** Every reported position is an occurrence of `q`. */
  lemma {:induction false} MatchStartsAreMatches(s: string, q: string, cursor: nat)
    requires |q| > 0
    ensures forall i :: 0 <= i < |MatchStarts(s, q, cursor)| ==> MatchesAt(s, q, MatchStarts(s, q, cursor)[i])
    decreases |s| - cursor
  {
    var ps := MatchStarts(s, q, cursor);
    if ps != [] {
      MatchStartsStep(s, q, cursor);
      var rest := MatchStarts(s, q, ps[0] + |q|);
      MatchStartsAreMatches(s, q, ps[0] + |q|);
      forall i | 0 <= i < |ps| ensures MatchesAt(s, q, ps[i]) {
        if i > 0 { assert ps[i] == rest[i - 1]; }
      }
    }
  }

  /** One step of the scan: the hit at the cursor, then the rest of the scan. */
  lemma MatchStartsStep(s: string, q: string, cursor: nat)
    requires |q| > 0 && cursor < |s| && IndexOf(s, q, cursor) != -1
    ensures MatchStarts(s, q, cursor)
         == [IndexOf(s, q, cursor) as nat] + MatchStarts(s, q, IndexOf(s, q, cursor) + |q|)
  {
  }

  /** The reported starts are at least `|q|` apart, so the occurrences they
      mark do not overlap and come in increasing order. */
  lemma {:induction false} MatchStartsApart(s: string, q: string, cursor: nat, i: nat, j: nat)
    requires |q| > 0 && i < j < |MatchStarts(s, q, cursor)|
    ensures MatchStarts(s, q, cursor)[i] + |q| <= MatchStarts(s, q, cursor)[j]
    decreases i
  {
    var p := IndexOf(s, q, cursor);
    MatchStartsStep(s, q, cursor);
    var ps, rest := MatchStarts(s, q, cursor), MatchStarts(s, q, p + |q|);
    assert ps[j] == rest[j - 1];
    if i > 0 {
      MatchStartsApart(s, q, p + |q|, i - 1, j - 1);
      assert ps[i] == rest[i - 1];
      assert ps[i] + |q| <= ps[j];
    } else {
      assert ps[0] == p && p + |q| <= rest[j - 1];
      assert ps[i] + |q| <= ps[j];
    }
  }

  lemma MatchStartsIncreasing(s: string, q: string, cursor: nat)
    requires |q| > 0
    ensures forall i, j :: 0 <= i < j < |MatchStarts(s, q, cursor)|
              ==> MatchStarts(s, q, cursor)[i] + |q| <= MatchStarts(s, q, cursor)[j]
  {
    var ps := MatchStarts(s, q, cursor);
    forall i, j | 0 <= i < j < |ps| ensures ps[i] + |q| <= ps[j] {
      MatchStartsApart(s, q, cursor, i, j);
    }
  }

  /** Some reported start covers stripped position `i`. */
  ghost predicate Covers(ps: seq<nat>, n: nat, i: nat) {
    exists k :: 0 <= k < |ps| && ps[k] <= i < ps[k] + n
  }

  /** Nothing is missed: every occurrence of `q` at or after `cursor` starts
      at, or overlaps, an occurrence the scan reports; together with
      `MatchStartsIncreasing` the reported starts are the leftmost
      non-overlapping occurrences, taken left to right. */
  lemma {:induction false} MatchStartsCoverEveryMatch(s: string, q: string, cursor: nat, i: nat)
    requires |q| > 0 && cursor <= i && MatchesAt(s, q, i)
    ensures Covers(MatchStarts(s, q, cursor), |q|, i)
    decreases |s| - cursor
  {
    IndexOfLeftmost(s, q, cursor, i);
    var p := IndexOf(s, q, cursor);
    MatchStartsStep(s, q, cursor);
    var rest := MatchStarts(s, q, p + |q|);
    if i >= p + |q| {
      MatchStartsCoverEveryMatch(s, q, p + |q|, i);
    }
    CoversCons(p, rest, |q|, i);
  }

  lemma CoversCons(p: nat, rest: seq<nat>, n: nat, i: nat)
    requires p <= i < p + n || Covers(rest, n, i)
    ensures Covers([p] + rest, n, i)
  {
    var ps := [p] + rest;
    if p <= i < p + n {
      assert ps[0] <= i < ps[0] + n;
    } else {
      var k :| 0 <= k < |rest| && rest[k] <= i < rest[k] + n;
      assert ps[k + 1] == rest[k];
    }
  }

  // ---------------------------------------------------------------------
  // Back to the original text

  /** The range in the original text covering stripped positions `p .. p + n - 1`:
      from the `p`-th non-space character to just past the `(p + n - 1)`-th. */
  function RangeAt(text: string, p: nat, n: nat): Range
    requires 0 < n && p + n <= |StripSpaces(text)|
  {
    (NthNonSpace(text, p), NthNonSpace(text, p + n - 1) + 1)
  }

  /** The stripped positions `ps` each leave room for `n` characters. */
  ghost predicate FitIn(text: string, ps: seq<nat>, n: nat) {
    forall i :: 0 <= i < |ps| ==> ps[i] + n <= |StripSpaces(text)|
  }

  /** The ranges in the original text of the stripped positions `ps`. */
  function RangesOf(text: string, ps: seq<nat>, n: nat): (rs: seq<Range>)
    requires 0 < n && FitIn(text, ps, n)
    ensures |rs| == |ps|
  {
    if ps == [] then [] else [RangeAt(text, ps[0], n)] + RangesOf(text, ps[1..], n)
  }

  lemma {:induction false} RangesOfAt(text: string, ps: seq<nat>, n: nat, i: nat)
    requires 0 < n && FitIn(text, ps, n) && i < |ps|
    ensures RangesOf(text, ps, n)[i] == RangeAt(text, ps[i], n)
  {
    if i > 0 {
      RangesOfAt(text, ps[1..], n, i - 1);
    }
  }

  /** The ranges the highlighter emits for `text` and `query`: none when
      either is empty, otherwise one per occurrence the scan reports. */
  function ExpectedRanges(text: string, query: string): seq<Range> {
    if |query| == 0 || |text| == 0 then []
    else RangesOf(text, MatchStarts(StripSpaces(text), query, 0), |query|)
  }

  /** Each range starts and ends on a non-space character and holds exactly
      the stripped characters `p .. p + n - 1`, possibly with spaces between them. */
  lemma RangeAtContent(text: string, p: nat, n: nat)
    requires 0 < n && p + n <= |StripSpaces(text)|
    ensures 0 <= RangeAt(text, p, n).0 < RangeAt(text, p, n).1 <= |text|
    ensures text[RangeAt(text, p, n).0] != Space && text[RangeAt(text, p, n).1 - 1] != Space
    ensures StripSpaces(text[RangeAt(text, p, n).0..RangeAt(text, p, n).1]) == StripSpaces(text)[p..p + n]
  {
    var s := NthNonSpace(text, p);
    var last := NthNonSpace(text, p + n - 1);
    if n > 1 { NthNonSpaceMonotone(text, p, p + n - 1); }
    StripSpacesSlice(text, s, last + 1);
  }

  /** The ranges are well formed: within the text, non-empty, starting and
      ending on non-space characters, and covering exactly `|query|`
      non-space characters that equal the query, ignoring case. */
  ghost predicate WellFormed(text: string, query: string, ranges: seq<Range>) {
    forall i :: 0 <= i < |ranges| ==> RangeMatches(text, query, ranges[i])
  }

  ghost predicate RangeMatches(text: string, query: string, r: Range) {
    && 0 <= r.0 < r.1 <= |text|
    && text[r.0] != Space && text[r.1 - 1] != Space
    && SeqEqualsIgnoreCase(StripSpaces(text[r.0..r.1]), query)
  }

  /** The ranges are pairwise disjoint and in increasing order. */
  ghost predicate Ordered(ranges: seq<Range>) {
    forall i, j :: 0 <= i < j < |ranges| ==> ranges[i].1 <= ranges[j].0
  }

  lemma RangeAtMatches(text: string, query: string, p: nat)
    requires 0 < |query| && MatchesAt(StripSpaces(text), query, p)
    ensures RangeMatches(text, query, RangeAt(text, p, |query|))
  {
    var stripped := StripSpaces(text);
    RangeAtContent(text, p, |query|);
    MatchesAtSlice(stripped, query, p);
    var r := RangeAt(text, p, |query|);
    assert StripSpaces(text[r.0..r.1]) == stripped[p..p + |query|];
  }

  lemma MatchesAtSlice(s: string, q: string, p: nat)
    requires MatchesAt(s, q, p)
    ensures SeqEqualsIgnoreCase(s[p..p + |q|], q)
  {
    MatchesAtMeaning(s, q, p);
  }

  /** The positions the scan reports leave room for the query. */
  lemma MatchStartsFit(text: string, q: string, cursor: nat)
    requires |q| > 0
    ensures FitIn(text, MatchStarts(StripSpaces(text), q, cursor), |q|)
  {
  }

  lemma RangesOfWellFormed(text: string, query: string, ps: seq<nat>)
    requires 0 < |query| && forall i :: 0 <= i < |ps| ==> MatchesAt(StripSpaces(text), query, ps[i])
    ensures FitIn(text, ps, |query|)
    ensures WellFormed(text, query, RangesOf(text, ps, |query|))
  {
    var rs := RangesOf(text, ps, |query|);
    forall i | 0 <= i < |rs| ensures RangeMatches(text, query, rs[i]) {
      RangesOfAt(text, ps, |query|, i);
      RangeAtMatches(text, query, ps[i]);
    }
  }

  lemma RangesOfOrdered(text: string, ps: seq<nat>, n: nat)
    requires 0 < n && FitIn(text, ps, n)
    requires forall i, j :: 0 <= i < j < |ps| ==> ps[i] + n <= ps[j]
    ensures Ordered(RangesOf(text, ps, n))
  {
    var rs := RangesOf(text, ps, n);
    forall i, j | 0 <= i < j < |rs| ensures rs[i].1 <= rs[j].0 {
      RangesOfAt(text, ps, n, i);
      RangesOfAt(text, ps, n, j);
      NthNonSpaceMonotone(text, ps[i] + n - 1, ps[j]);
    }
  }

  lemma ExpectedRangesWellFormed(text: string, query: string)
    ensures WellFormed(text, query, ExpectedRanges(text, query))
  {
    if |query| > 0 && |text| > 0 {
      MatchStartsAreMatches(StripSpaces(text), query, 0);
      RangesOfWellFormed(text, query, MatchStarts(StripSpaces(text), query, 0));
    }
  }

  lemma ExpectedRangesOrdered(text: string, query: string)
    ensures Ordered(ExpectedRanges(text, query))
  {
    if |query| > 0 && |text| > 0 {
      var ps := MatchStarts(StripSpaces(text), query, 0);
      MatchStartsFit(text, query, 0);
      MatchStartsIncreasing(StripSpaces(text), query, 0);
      assert forall i, j :: 0 <= i < j < |ps| ==> ps[i] + |query| <= ps[j];
      RangesOfOrdered(text, ps, |query|);
    }
  }

  // ---------------------------------------------------------------------
  // The loops of the source

  /** The scan of the source: strip the spaces, repeatedly find the query
      from the cursor, map the hit back to the original text by counting
      non-space characters, emit the range and move the cursor past the hit. */
  method HighlightRanges(text: string, query: string) returns (ranges: seq<Range>)
    ensures ranges == ExpectedRanges(text, query)
    ensures WellFormed(text, query, ranges) && Ordered(ranges)
    ensures |query| == 0 || |text| == 0 ==> ranges == []
  {
    ranges := [];
    if |query| > 0 && |text| > 0 {
      var spaceless := StripSpaces(text);
      var searchStart := 0;
      assert ranges + Pending(text, query, searchStart) == ExpectedRanges(text, query);
      while searchStart < |spaceless|
        invariant 0 <= searchStart
        invariant ranges + Pending(text, query, searchStart) == ExpectedRanges(text, query)
        decreases |spaceless| - searchStart
      {
        var found := IndexOf(spaceless, query, searchStart);
        if found == -1 { break; }
        ScanAdvance(text, query, searchStart, found, ranges);

        var start, end := MapBack(text, found, query);
        if start != -1 && end != -1 && start < end {
          ranges := ranges + [(start, end)];
        }
        searchStart := found + |query|;
        if searchStart <= found {
          searchStart := found + 1;
        }
        assert searchStart == found + |query|;
      }
      ScanEnd(text, query, searchStart);
    }
    ExpectedRangesWellFormed(text, query);
    ExpectedRangesOrdered(text, query);
  }

  /** The ranges the scan still has to emit from stripped index `cursor` on. */
  function Pending(text: string, query: string, cursor: nat): seq<Range>
    requires 0 < |query|
  {
    MatchStartsFit(text, query, cursor);
    RangesOf(text, MatchStarts(StripSpaces(text), query, cursor), |query|)
  }

  /** A hit at the cursor contributes its range, then the scan goes on past it. */
  lemma ScanStep(text: string, query: string, cursor: nat, found: nat)
    requires 0 < |query| && cursor < |StripSpaces(text)|
    requires found == IndexOf(StripSpaces(text), query, cursor)
    ensures Pending(text, query, cursor) == [RangeAt(text, found, |query|)] + Pending(text, query, found + |query|)
  {
    var stripped, n := StripSpaces(text), |query|;
    var rest := MatchStarts(stripped, query, found + n);
    MatchStartsStep(stripped, query, cursor);
    assert MatchStarts(stripped, query, cursor) == [found] + rest;
    MatchStartsFit(text, query, found + n);
    RangesOfCons(text, found, rest, n);
    assert Pending(text, query, cursor) == RangesOf(text, [found] + rest, n);
    assert Pending(text, query, found + n) == RangesOf(text, rest, n);
  }

  /** One turn of the scan: the hit at `found` is a match, and emitting its
      range and moving the cursor past it keeps the loop's account. */
  lemma ScanAdvance(text: string, query: string, cursor: nat, found: int, ranges: seq<Range>)
    requires 0 < |query| && cursor < |StripSpaces(text)|
    requires found == IndexOf(StripSpaces(text), query, cursor) && found != -1
    requires ranges + Pending(text, query, cursor) == ExpectedRanges(text, query)
    ensures found >= 0 && MatchesAt(StripSpaces(text), query, found)
    ensures (ranges + [RangeAt(text, found, |query|)]) + Pending(text, query, found + |query|)
            == ExpectedRanges(text, query)
  {
    ScanStep(text, query, cursor, found);
    EmitStep(ranges, Pending(text, query, cursor), RangeAt(text, found, |query|),
             Pending(text, query, found + |query|), ExpectedRanges(text, query));
  }

  /** Emitting the head of what is pending keeps the loop's account. */
  lemma EmitStep<T>(emitted: seq<T>, pending: seq<T>, x: T, rest: seq<T>, whole: seq<T>)
    requires emitted + pending == whole && pending == [x] + rest
    ensures (emitted + [x]) + rest == whole
  {
    assert (emitted + [x]) + rest == emitted + ([x] + rest);
  }

  /** The scan stops when the cursor passes the end or no hit is left. */
  lemma ScanEnd(text: string, query: string, cursor: nat)
    requires 0 < |query|
    requires cursor >= |StripSpaces(text)| || IndexOf(StripSpaces(text), query, cursor) == -1
    ensures Pending(text, query, cursor) == []
  {
  }

  /** Unfolding `RangesOf` once. */
  lemma RangesOfCons(text: string, p: nat, ps: seq<nat>, n: nat)
    requires 0 < n && p + n <= |StripSpaces(text)| && FitIn(text, ps, n)
    ensures FitIn(text, [p] + ps, n)
    ensures RangesOf(text, [p] + ps, n) == [RangeAt(text, p, n)] + RangesOf(text, ps, n)
  {
    assert ([p] + ps)[1..] == ps;
  }

  /** The body of the scan for one hit at stripped index `found`: find the
      start, fall back for a hit at 0 without a start, then find the end. */
  method MapBack(text: string, found: nat, query: string) returns (start: int, end: int)
    requires 0 < |query| && MatchesAt(StripSpaces(text), query, found)
    ensures (start, end) == RangeAt(text, found, |query|)
    ensures 0 <= start < end <= |text|
  {
    start, end := FindStart(text, found);
    // The source falls back to skipping leading spaces when a hit at 0
    // found no start; a start is always found, so that branch is dead.
    if found == 0 && start == -1 {
      assert false;
    }
    if start != -1 {
      end := FindEnd(text, found, start, |query|);
    }
    if |query| > 1 {
      NthNonSpaceMonotone(text, found, found + |query| - 1);
    }
  }

  /** The first inner loop: walk the text counting non-space characters
      until the `found`-th one; `end` is still unassigned (-1). */
  method FindStart(text: string, found: nat) returns (start: int, end: int)
    requires found < |StripSpaces(text)|
    ensures start == NthNonSpace(text, found) && end == -1
  {
    start, end := -1, -1;
    var nonSpaceCount := 0;
    var iter := 0;
    while iter < |text|
      invariant 0 <= iter <= |text|
      invariant nonSpaceCount == CountNonSpace(text, iter) <= found
      invariant start == -1
    {
      if text[iter] != Space {
        if nonSpaceCount == found {
          start := iter;
          break;
        }
        nonSpaceCount := nonSpaceCount + 1;
      }
      iter := iter + 1;
    }
    StripSpacesLength(text);
    NthNonSpaceUnique(text, found, start);
  }

  /** The second inner loop: from `start`, walk over `n` non-space
      characters; the end is just past the last of them.  The count always
      reaches `n`, so the end is always assigned. */
  method FindEnd(text: string, found: nat, start: nat, n: nat) returns (end: int)
    requires 0 < n && found + n <= |StripSpaces(text)|
    requires start == NthNonSpace(text, found)
    ensures end == NthNonSpace(text, found + n - 1) + 1
  {
    end := -1;
    var nonSpaceCount := 0;
    var iter := start;
    while iter < |text| && nonSpaceCount < n
      invariant start <= iter <= |text|
      invariant CountNonSpace(text, iter) == found + nonSpaceCount
      invariant nonSpaceCount <= n
      invariant nonSpaceCount == n ==> start < iter && text[iter - 1] != Space
    {
      if text[iter] != Space {
        nonSpaceCount := nonSpaceCount + 1;
      }
      iter := iter + 1;
    }
    StripSpacesLength(text);
    if nonSpaceCount == n {
      end := iter;
    }
    NthNonSpaceUnique(text, found + n - 1, end - 1);
  }

  /** One highlighted field, as `buildAnnotatedString` builds it: the
      trimmed field, with the ranges of `HighlightRanges` over it. */
  method Annotate(field: string, currentSearchText: string) returns (a: Annotated)
    ensures a.text == Trim(field)
    ensures a.spans == ExpectedRanges(Trim(field), currentSearchText)
    ensures WellFormed(a.text, currentSearchText, a.spans) && Ordered(a.spans)
  {
    var original := Trim(field);
    var spans := HighlightRanges(original, currentSearchText);
    a := Annotated(original, spans);
  }
}
