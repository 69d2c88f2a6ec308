/**
 * Sequence notions shared by the listing pages and the text helpers: integer
 * maximum and minimum, order-keeping deletion, and JavaScript's `slice`.
 */
module Seqs {

  function Max(a: int, b: int): int {
    if a >= b then a else b
  }

  function Min(a: int, b: int): int {
    if a <= b then a else b
  }

  /** `r` can be obtained from `s` by deleting entries, keeping the order of the rest. */
  predicate IsSubsequence<T(==)>(r: seq<T>, s: seq<T>)
    decreases |s|
  {
    if r == [] then true
    else if s == [] then false
    else (r[0] == s[0] && IsSubsequence(r[1..], s[1..])) || IsSubsequence(r, s[1..])
  }

  /**
   * `s.slice(start, end)` for indices that are not negative; the content
   * store's range `[start...end]` cuts a list the same way.
   */
  function Slice<T>(s: seq<T>, start: nat, end: nat): (r: seq<T>)
    ensures |r| == Max(Min(end, |s|) - start, 0)
    ensures forall i :: 0 <= i < |r| ==> r[i] == s[start + i]
  {
    if start >= Min(end, |s|) then [] else s[start..Min(end, |s|)]
  }
}
