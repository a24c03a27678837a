/** Signed 64-bit integers and how arithmetic on them wraps around. */
module Int64 {
  const MAX_INT64 := 0x7FFF_FFFF_FFFF_FFFF
  const TWO_TO_64 := 0x1_0000_0000_0000_0000

  /** The value a 64-bit addition or multiplication wraps to. */
  function Wrap64(n: int): (w: int)
    ensures -MAX_INT64 - 1 <= w <= MAX_INT64 && (w - n) % TWO_TO_64 == 0
    ensures w == n <==> -MAX_INT64 - 1 <= n <= MAX_INT64
  {
    var m := n % TWO_TO_64;
    if m > MAX_INT64 then m - TWO_TO_64 else m
  }
}
