/**
 * Fixed-width integer arithmetic of the .NET runtime, written out over
 * Dafny's unbounded integers: unchecked wrap-around and C#'s truncating
 * division.
 */
module Ints {

  const TWO_31: int := 0x8000_0000
  const TWO_32: int := 0x1_0000_0000
  const TWO_63: int := 0x8000_0000_0000_0000
  const TWO_64: int := 0x1_0000_0000_0000_0000

  /** C# `int`. */
  type Int32 = x: int | -0x8000_0000 <= x < 0x8000_0000
  /** C# `long`. */
  type Int64 = x: int | -0x8000_0000_0000_0000 <= x < 0x8000_0000_0000_0000
  /** C# `uint`. */
  type UInt32 = x: int | 0 <= x < 0x1_0000_0000
  /** C# `ulong`, and `nuint` in a 64-bit process. */
  type UInt64 = x: int | 0 <= x < 0x1_0000_0000_0000_0000

  /** Unchecked conversion of an integer result to `int`. */
  function WrapInt32(x: int): (r: Int32)
    ensures (r - x) % TWO_32 == 0
    ensures -TWO_31 <= x < TWO_31 ==> r == x
  {
    (x + TWO_31) % TWO_32 - TWO_31
  }

  /** Unchecked conversion of an integer result to `long`. */
  function WrapInt64(x: int): (r: Int64)
    ensures (r - x) % TWO_64 == 0
    ensures -TWO_63 <= x < TWO_63 ==> r == x
  {
    (x + TWO_63) % TWO_64 - TWO_63
  }

  /** Unchecked conversion to `uint`, as `(uint)x` and `uint` arithmetic do. */
  function WrapUInt32(x: int): (r: UInt32)
    ensures (r - x) % TWO_32 == 0
    ensures 0 <= x < TWO_32 ==> r == x
  {
    x % TWO_32
  }

  /** Unchecked conversion to `ulong`. */
  function WrapUInt64(x: int): (r: UInt64)
    ensures (r - x) % TWO_64 == 0
    ensures 0 <= x < TWO_64 ==> r == x
  {
    x % TWO_64
  }

  /**
   * C#'s integer `/` for a positive divisor: the quotient is rounded toward
   * zero, so the remainder takes the sign of the dividend.
   */
  function DivTrunc(a: int, b: int): (q: int)
    requires b > 0
    ensures a >= 0 ==> 0 <= a - q * b < b
    ensures a < 0 ==> -b < a - q * b <= 0
  {
    if a >= 0 then a / b else -((-a) / b)
  }

}
