/** Sequence relations shared by the other modules. */
module Seqs {
  /** `xs` is `ys` with some elements left out, the rest in order. */
  predicate IsSubsequence<T(==)>(xs: seq<T>, ys: seq<T>)
    decreases |ys|
  {
    if xs == [] then true
    else if ys == [] then false
    else (xs[0] == ys[0] && IsSubsequence(xs[1..], ys[1..])) || IsSubsequence(xs, ys[1..])
  }

  /** A subsequence of a suffix is a subsequence of the whole. */
  lemma {:induction false} SubsequenceOfSuffix<T>(xs: seq<T>, ys: seq<T>, m: nat)
    requires m <= |ys| && IsSubsequence(xs, ys[m..])
    ensures IsSubsequence(xs, ys)
    decreases m
  {
    if m > 0 {
      assert ys[1..][m - 1..] == ys[m..];
      SubsequenceOfSuffix(xs, ys[1..], m - 1);
    }
  }
}
