/** Java's 64-bit signed `long`. */
module JavaLong {

  const LONG_MIN: int := -0x8000_0000_0000_0000
  const LONG_MAX: int := 0x7FFF_FFFF_FFFF_FFFF

  newtype i64 = x: int | -0x8000_0000_0000_0000 <= x < 0x8000_0000_0000_0000

  predicate InLongRange(x: int) {
    LONG_MIN <= x <= LONG_MAX
  }

  /** The value Java's `long` arithmetic produces for the mathematical
      result `x`: two's complement wrap-around modulo 2^64. */
  function Wrap(x: int): (r: i64)
    ensures InLongRange(x) ==> r as int == x
    ensures x == LONG_MAX + 1 ==> r as int == LONG_MIN
  {
    ((x + 0x8000_0000_0000_0000) % 0x1_0000_0000_0000_0000 - 0x8000_0000_0000_0000) as i64
  }
}
