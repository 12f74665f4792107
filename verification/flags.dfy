/** Rows of per-element class flags. */
module Flags {

  /** The flag row of length n in which position k alone is set. */
  function OnlyAt(n: nat, k: int): (s: seq<bool>)
    ensures |s| == n
    ensures forall i :: 0 <= i < n ==> (s[i] <==> i == k)
  {
    seq(n, i => i == k)
  }
}
