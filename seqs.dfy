/** Small sequence vocabulary shared by the cache and the query layer. */
module Seqs {

  function Min(a: int, b: int): int
  {
    if a <= b then a else b
  }

  /** The elements of `xs` in the opposite order. */
  function Reverse<T>(xs: seq<T>): (r: seq<T>)
    ensures |r| == |xs|
    ensures forall i :: 0 <= i < |xs| ==> r[i] == xs[|xs| - 1 - i]
  {
    if xs == [] then [] else [xs[|xs| - 1]] + Reverse(xs[..|xs| - 1])
  }

  /** `a` can be obtained from `b` by deleting elements, keeping the order of the rest. */
  ghost predicate Subsequence<T>(a: seq<T>, b: seq<T>)
    decreases |b|
  {
    a == [] || (b != [] && ((a[0] == b[0] && Subsequence(a[1..], b[1..])) || Subsequence(a, b[1..])))
  }

  /** Taking one more element of a sequence appends that element. */
  lemma TakeOneMore<T>(s: seq<T>, i: int)
    requires 0 <= i < |s|
    ensures s[..i + 1] == s[..i] + [s[i]]
  {
  }

  ghost predicate Distinct<T>(xs: seq<T>)
  {
    forall i, j :: 0 <= i < j < |xs| ==> xs[i] != xs[j]
  }
}
