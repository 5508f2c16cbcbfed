/** The Kotlin collection operations the screens use on lists: `filter`,
    `filterNot` and `any`, with what they promise about order and
    multiplicity. */
module Seqs {

  /** `a` is `b` with some elements left out, the rest in their order. */
  predicate IsSubsequence<T(==)>(a: seq<T>, b: seq<T>)
    decreases |b|
  {
    a == [] || (b != [] && (IsSubsequence(a, b[1..]) || (a[0] == b[0] && IsSubsequence(a[1..], b[1..]))))
  }

  /** Every sequence is a subsequence of itself. */
  lemma {:induction false} IsSubsequenceOfItself<T>(s: seq<T>)
    ensures IsSubsequence(s, s)
    decreases |s|
  {
    if s != [] {
      IsSubsequenceOfItself(s[1..]);
    }
  }

  /** `s.filter(p)`: the elements that satisfy `p`, in order, each as often as in `s`. */
  function Filter<T(==,!new)>(s: seq<T>, p: T -> bool): (r: seq<T>)
    ensures IsSubsequence(r, s)
    ensures forall x :: multiset(r)[x] == if p(x) then multiset(s)[x] else 0
  {
    if s == [] then []
    else
      var rest := Filter(s[1..], p);
      assert s == [s[0]] + s[1..];
      if p(s[0]) then
        assert ([s[0]] + rest)[1..] == rest;
        [s[0]] + rest
      else rest
  }

  /** The negation of a predicate. */
  function Not<T>(p: T -> bool): T -> bool {
    x => !p(x)
  }

  /** `s.filterNot(p)`. */
  function FilterNot<T(==,!new)>(s: seq<T>, p: T -> bool): seq<T> {
    Filter(s, Not(p))
  }

  /** `s.any(p)`: some element satisfies `p`. */
  predicate Any<T>(s: seq<T>, p: T -> bool) {
    exists i :: 0 <= i < |s| && p(s[i])
  }

  /** Every element of `s` lands in exactly one of `filterNot(p)` and `filter(p)`. */
  lemma FilterPartition<T(!new)>(s: seq<T>, p: T -> bool)
    ensures multiset(FilterNot(s, p)) + multiset(Filter(s, p)) == multiset(s)
  {
    var a, b := FilterNot(s, p), Filter(s, p);
    forall x ensures (multiset(a) + multiset(b))[x] == multiset(s)[x] {
      assert Not(p)(x) == !p(x);
    }
  }

  /** `any(p)` holds exactly when `filter(p)` is not empty. */
  lemma AnyIffFilterNonEmpty<T(!new)>(s: seq<T>, p: T -> bool)
    ensures Any(s, p) <==> Filter(s, p) != []
  {
    var r := Filter(s, p);
    if Any(s, p) {
      var i :| 0 <= i < |s| && p(s[i]);
      assert s[i] in multiset(s);
      assert multiset(r)[s[i]] > 0;
    }
    if r != [] {
      assert r[0] in multiset(r);
      assert r[0] in multiset(s);
      var i :| 0 <= i < |s| && s[i] == r[0];
    }
  }
}
