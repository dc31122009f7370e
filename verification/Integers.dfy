/** Ranges of fixed-width integers. */
module Integers {

  /** The number of values of n bytes. */
  function Pow256(n: nat): (p: int)
    ensures p >= 1
  {
    if n == 0 then 1 else 256 * Pow256(n - 1)
  }

  /** The value of the two's-complement pattern that keeps the low bits. */
  function WrapSigned(v: int, range: int): (r: int)
    requires range > 0 && range % 2 == 0
    ensures -(range / 2) <= r < range / 2
  {
    var m := v % range;
    if m < range / 2 then m else m - range
  }
}
