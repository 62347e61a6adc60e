/**
 * Redis list index semantics as used by `LRANGE key start stop` and `LTRIM key start stop`:
 * both ends are inclusive, a negative index counts from the tail (-1 is the last element),
 * out-of-range ends are clamped, and an empty range gives the empty list.
 * LTRIM keeps exactly what LRANGE with the same indices returns.
 */
module RedisList {
  import opened Seqs

  function Range<T>(xs: seq<T>, start: int, stop: int): (r: seq<T>)
    ensures |r| <= |xs|
    ensures start == 0 && stop >= 0 ==> r == xs[..Min(stop + 1, |xs|)]
    ensures start == 0 && stop == -1 ==> r == xs
    ensures start == 0 && stop < 0 ==> r == xs[..if |xs| + stop + 1 >= 0 then |xs| + stop + 1 else 0]
  {
    var n := |xs|;
    var first := if start >= 0 then start else if n + start >= 0 then n + start else 0;
    var last0 := if stop >= 0 then stop else n + stop;
    var last := if last0 >= n then n - 1 else last0;
    if first > last || first >= n then [] else xs[first..last + 1]
  }
}
