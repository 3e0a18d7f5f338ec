/** The C++ integer types the receiver uses, and the implicit conversions between them. */
module FixedWidth {

  const TWO_31: int := 0x8000_0000
  const TWO_63: int := 0x8000_0000_0000_0000
  const TWO_64: int := 0x1_0000_0000_0000_0000

  /** `uint64_t`: the integer encoding of a dataset element, and one batch slot. */
  type UInt64 = x: int | 0 <= x < 0x1_0000_0000_0000_0000

  /** `size_t` on a 64-bit target. */
  type SizeT = UInt64

  /** `long` on an LP64 target. */
  type Long = x: int | -0x8000_0000_0000_0000 <= x < 0x8000_0000_0000_0000

  /** `int`: the type SEAL's noise-budget query returns. */
  type Int32 = x: int | -TWO_31 <= x < TWO_31

  /** Integral conversion of an `int` to `size_t`: the unique `size_t` congruent to the
      source value modulo 2^64. */
  function IntToSizeT(x: Int32): (r: SizeT)
    ensures (r - x) % TWO_64 == 0
    ensures 0 <= x ==> r == x
  {
    if x < 0 then x + TWO_64 else x
  }

  /** Integral conversion of a (`size_t`) length to `long`: first reduced to 64 bits,
      then read back as a two's-complement value. */
  function NarrowToLong(n: nat): (r: Long)
    ensures (r - n) % TWO_64 == 0
    ensures n < TWO_63 ==> r == n
  {
    var w := n % TWO_64;
    if w < TWO_63 then w else w - TWO_64
  }
}
