/**
 * The closed-form size arithmetic of Marshalling/ObjectMarshal.cs: the raw
 * sizes of an object header, a string and an array, for a runtime whose
 * pointer size is 4 or 8 bytes.
 */
module ObjectMarshal {
  import opened Ints

  /** `sizeof(nuint)`: 4 in a 32-bit process, 8 in a 64-bit one. */
  type PointerSize = p: int | p == 4 || p == 8 witness 8

  /** The largest length a .NET string can have. */
  const MaxStringLength: int := 0x3FFF_FFDF

  /** Unchecked conversion to `nuint`, whose width is the pointer size. */
  function WrapNUInt(ptr: PointerSize, x: int): (r: nat)
    ensures r < (if ptr == 8 then TWO_64 else TWO_32)
    ensures 0 <= x < (if ptr == 8 then TWO_64 else TWO_32) ==> r == x
  {
    if ptr == 8 then WrapUInt64(x) else WrapUInt32(x)
  }

  /** `BaseObjectSize`: the object header plus the method-table pointer. */
  function BaseObjectSize(ptr: PointerSize): (r: UInt32)
    ensures r == 2 * ptr
  {
    WrapUInt32(ptr + ptr)
  }

  /**
   * `GetRawStringSize(int)`: header, the 4-byte length, two bytes per UTF-16
   * unit and the terminating zero char, all in unchecked `uint` arithmetic.
   * For every length a string can have, nothing wraps.
   */
  function GetRawStringSize(ptr: PointerSize, stringLength: Int32): (r: UInt32)
    ensures 0 <= stringLength <= MaxStringLength ==> r == 2 * ptr + 4 + 2 * stringLength + 2
  {
    WrapUInt32(BaseObjectSize(ptr) + 4 + WrapUInt32(WrapUInt32(stringLength) * 2) + 2)
  }

  /** `GetRawStringSize(string)`: the size of a string is that of its length. */
  function GetRawStringSizeOf(ptr: PointerSize, str: string): (r: UInt32)
    requires |str| <= MaxStringLength
    ensures r == GetRawStringSize(ptr, |str|)
    ensures r == 2 * ptr + 4 + 2 * |str| + 2
  {
    GetRawStringSize(ptr, |str|)
  }

  /** One more character costs exactly two more bytes. */
  lemma StringSizeGrowsByTwo(ptr: PointerSize, str: string, c: char)
    requires |str| < MaxStringLength
    ensures GetRawStringSizeOf(ptr, str + [c]) == GetRawStringSizeOf(ptr, str) + 2
  {
  }

  /**
   * `GetRawArraySize<T>(int)` AS WRITTEN: `(uint)arrayLength * (uint)sizeof(T)`
   * is a `uint` product, so it wraps at 2^32 before it is added to the
   * `nuint` header size.
   */
  function GetRawArraySizeAsWritten(ptr: PointerSize, elementSize: nat, arrayLength: Int32): (r: nat)
    requires 0 < elementSize < TWO_32
    ensures 0 <= arrayLength && arrayLength * elementSize < TWO_32 - 3 * ptr ==>
      r == 3 * ptr + arrayLength * elementSize
  {
    WrapNUInt(ptr, BaseObjectSize(ptr) + ptr + WrapUInt32(WrapUInt32(arrayLength) * elementSize))
  }

  /**
   * `GetRawArraySize(Array)`: header, the pointer-sized length field and
   * `LongLength * ComponentSize`, evaluated in `ulong`.
   */
  function GetRawArraySizeOfArray(ptr: PointerSize, componentSize: nat, longLength: nat): (r: UInt64)
    requires componentSize < 0x1_0000 && longLength < TWO_63
    ensures 3 * ptr + longLength * componentSize < TWO_64 ==>
      r == 3 * ptr + longLength * componentSize
  {
    WrapUInt64(WrapUInt32(BaseObjectSize(ptr) + ptr) + longLength * componentSize)
  }

  /**
   * `GetRawArraySize<T>(int)` with the element bytes multiplied without the
   * 32-bit wrap, as the non-generic form multiplies them: header, length
   * field and every element.
   */
  function GetRawArraySize(ptr: PointerSize, elementSize: nat, arrayLength: nat): (r: nat)
    requires 0 < elementSize < 0x1_0000 && arrayLength < TWO_31
    ensures r == 3 * ptr + arrayLength * elementSize
    ensures arrayLength * elementSize < TWO_32 - 3 * ptr ==>
      r == GetRawArraySizeAsWritten(ptr, elementSize, arrayLength)
  {
    BaseObjectSize(ptr) + ptr + arrayLength * elementSize
  }

  /** `GetRawArraySize<T>(T[])`: the size of an array is that of its length. */
  function GetRawArraySizeOf<T>(ptr: PointerSize, elementSize: nat, elements: seq<T>): (r: nat)
    requires 0 < elementSize < 0x1_0000 && |elements| < TWO_31
    ensures r == GetRawArraySize(ptr, elementSize, |elements|)
    ensures r == 3 * ptr + |elements| * elementSize
  {
    GetRawArraySize(ptr, elementSize, |elements|)
  }

  /** The generic and the non-generic forms agree when `ComponentSize == sizeof(T)`. */
  lemma GenericAgreesWithNonGeneric(ptr: PointerSize, elementSize: nat, arrayLength: nat)
    requires 0 < elementSize < 0x1_0000 && arrayLength < TWO_31
    ensures GetRawArraySize(ptr, elementSize, arrayLength)
         == GetRawArraySizeOfArray(ptr, elementSize, arrayLength)
  {
    assert arrayLength * elementSize < TWO_31 * 0x1_0000 by {
      MulStrictlyMonotone(arrayLength, TWO_31, elementSize, 0x1_0000);
    }
  }

  lemma MulStrictlyMonotone(a: nat, b: nat, c: nat, d: nat)
    requires a < b && c < d
    ensures a * c < b * d
  {
    assert a * c <= b * c;
    assert b * c < b * d;
  }

  /**
   * The 32-bit wrap of the generic form, shown on 2^29 eight-byte elements in
   * a 64-bit process: it reports 24 bytes where the array takes 4 GiB more.
   */
  lemma GenericArraySizeWraps()
    ensures GetRawArraySizeAsWritten(8, 8, 0x2000_0000) == 24
    ensures GetRawArraySizeOfArray(8, 8, 0x2000_0000) == 24 + TWO_32
    ensures GetRawArraySize(8, 8, 0x2000_0000) == 24 + TWO_32
  {
  }
}
