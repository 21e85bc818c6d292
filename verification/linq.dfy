/**
 * Reference meanings of the LINQ-to-Objects operators that the generated
 * pipelines must reproduce: `Skip`, `Take`, `Select` and `Sum` over a
 * sequence of elements. The stages of the generator are proved against these.
 */
module Linq {
  /** `Enumerable.Skip`: a count not above 0 skips nothing; skipping past the end leaves nothing. */
  function Skip<T>(xs: seq<T>, n: int): (r: seq<T>)
    ensures |r| == if n <= 0 then |xs| else if n >= |xs| then 0 else |xs| - n
    ensures forall k :: 0 <= k < |r| ==> r[k] == xs[k + (if n <= 0 then 0 else n)]
  {
    if n <= 0 then xs else if n >= |xs| then [] else xs[n..]
  }

  /** `Enumerable.Take`: a count not above 0 takes nothing; taking past the end takes everything. */
  function Take<T>(xs: seq<T>, n: int): (r: seq<T>)
    ensures |r| == if n <= 0 then 0 else if n >= |xs| then |xs| else n
    ensures forall k :: 0 <= k < |r| ==> r[k] == xs[k]
  {
    if n <= 0 then [] else if n >= |xs| then xs else xs[..n]
  }

  /** `Enumerable.Select` with an index-taking selector: element k becomes `f(xs[k], k)`. */
  function SelectAt<T, U>(xs: seq<T>, f: (T, int) -> U): (r: seq<U>)
    ensures |r| == |xs| && forall k :: 0 <= k < |xs| ==> r[k] == f(xs[k], k)
  {
    seq(|xs|, k requires 0 <= k < |xs| => f(xs[k], k))
  }

  /** `Enumerable.Sum`: the left fold of `+` from 0. */
  function Sum(xs: seq<int>): int
  {
    if xs == [] then 0 else Sum(xs[..|xs| - 1]) + xs[|xs| - 1]
  }

  /** Summing a concatenation sums the parts. */
  lemma {:induction false} SumAppend(xs: seq<int>, ys: seq<int>)
    ensures Sum(xs + ys) == Sum(xs) + Sum(ys)
    decreases |ys|
  {
    if ys == [] {
      assert xs + ys == xs;
    } else {
      var ys' := ys[..|ys| - 1];
      assert (xs + ys)[..|xs + ys| - 1] == xs + ys';
      SumAppend(xs, ys');
    }
  }
}
