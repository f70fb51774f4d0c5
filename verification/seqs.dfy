/** `Array.prototype.filter` over immutable sequences, and the subsequence
    relation its results stand in. */
module Seqs {

  /** `a` is `b` with some elements left out, the rest in the same order. */
  predicate Subseq<T(==)>(a: seq<T>, b: seq<T>)
    decreases |b|
  {
    |a| == 0 || (|b| > 0 && ((a[0] == b[0] && Subseq(a[1..], b[1..])) || Subseq(a, b[1..])))
  }

  /** `xs.filter(p)`: the order-preserving subsequence of `xs` made of exactly
      the elements that satisfy `p`, each as often as it occurs in `xs`. */
  function Filter<T(==,!new)>(xs: seq<T>, p: T -> bool): (r: seq<T>)
    ensures Subseq(r, xs)
    ensures forall i :: 0 <= i < |r| ==> p(r[i])
    ensures forall x :: p(x) ==> multiset(r)[x] == multiset(xs)[x]
    ensures forall x :: !p(x) ==> multiset(r)[x] == 0
    ensures |r| <= |xs|
  {
    if |xs| == 0 then []
    else
      var rest := Filter(xs[1..], p);
      assert multiset(xs) == multiset{xs[0]} + multiset(xs[1..]) by {
        assert xs == [xs[0]] + xs[1..];
      }
      if p(xs[0]) then
        var r := [xs[0]] + rest;
        assert r[1..] == rest && multiset(r) == multiset{xs[0]} + multiset(rest);
        r
      else rest
  }

  /** When every element passes, filtering changes nothing. */
  lemma {:induction false} FilterAllPass<T(!new)>(xs: seq<T>, p: T -> bool)
    requires forall i :: 0 <= i < |xs| ==> p(xs[i])
    ensures Filter(xs, p) == xs
  {
    if |xs| > 0 {
      FilterAllPass(xs[1..], p);
    }
  }

  /** Filtering twice by the same test is filtering once. */
  lemma FilterIdempotent<T(!new)>(xs: seq<T>, p: T -> bool)
    ensures Filter(Filter(xs, p), p) == Filter(xs, p)
  {
    FilterAllPass(Filter(xs, p), p);
  }

  /** Filtering the empty sequence, or by a test nothing passes, gives `[]`. */
  lemma {:induction false} FilterNonePass<T(!new)>(xs: seq<T>, p: T -> bool)
    requires forall i :: 0 <= i < |xs| ==> !p(xs[i])
    ensures Filter(xs, p) == []
  {
    if |xs| > 0 {
      FilterNonePass(xs[1..], p);
    }
  }
}
