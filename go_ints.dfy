/**
  The Go integer conversions the rewards code applies to big integers:
  `big.Int.Uint64`, `big.Int.Int64` and the `uint64` to `int64` cast.
*/
module GoInts {

  const TwoTo63: nat := 0x8000_0000_0000_0000
  const TwoTo64: nat := 0x1_0000_0000_0000_0000

  /** `big.Int.Uint64`: the low 64 bits of the magnitude. */
  function U64(x: int): (r: nat)
    ensures r < TwoTo64
    ensures 0 <= x < TwoTo64 ==> r == x
  {
    var m := if x < 0 then -x else x;
    if m < TwoTo64 then m else m % TwoTo64
  }

  /** `int64(p)` for a `uint64` value `p`: wraps to negative from 2^63 on. */
  function Int64(p: nat): (r: int)
    requires p < TwoTo64
    ensures -(TwoTo63 as int) <= r < TwoTo63
    ensures r == p || r == p - TwoTo64
    ensures p < TwoTo63 ==> r == p
  {
    if p < TwoTo63 then p else p - TwoTo64
  }
}
