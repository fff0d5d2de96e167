/**
 * Memory/MemoryHelpers.cs: the stack-allocation size test and the
 * power-of-two alignment checks and round-ups/-downs, on 64-bit addresses
 * (`nuint` in a 64-bit process) written as natural numbers, with the
 * source's bitwise operators defined bit by bit.
 */
module MemoryHelpers {
  import opened Ints
  import opened Wrappers

  // ---------------------------------------------------------------------
  // Stack allocation
  // ---------------------------------------------------------------------

  const DefaultMaximumStackallocSize32: int := 2048
  const DefaultMaximumStackallocSize64: int := 8192

  /** `s_maximumStackallocSize`: chosen by the bitness of the process. */
  function MaximumStackallocSize(is64BitProcess: bool): (r: int)
    ensures r == (if is64BitProcess then 8192 else 2048)
  {
    if is64BitProcess then DefaultMaximumStackallocSize64 else DefaultMaximumStackallocSize32
  }

  /**
   * `UseStackalloc<T>` AS WRITTEN: `sizeof(T) * elementCount` is an `int`
   * product and wraps before it is compared with the limit.
   */
  function UseStackallocAsWritten(elementSize: nat, elementCount: Int32, is64BitProcess: bool): (r: bool)
    requires 0 < elementSize < TWO_31
    ensures -TWO_31 <= elementSize * elementCount < TWO_31 ==>
      (r <==> elementSize * elementCount <= MaximumStackallocSize(is64BitProcess))
  {
    WrapInt32(elementSize * elementCount) <= MaximumStackallocSize(is64BitProcess)
  }

  /**
   * `UseStackalloc<T>` with the total byte size computed without wrap-around:
   * a stack allocation is used exactly when the bytes fit under the limit.
   */
  function UseStackalloc(elementSize: nat, elementCount: Int32, is64BitProcess: bool): (r: bool)
    requires 0 < elementSize < TWO_31
    ensures r <==> elementSize * elementCount <= MaximumStackallocSize(is64BitProcess)
    ensures -TWO_31 <= elementSize * elementCount < TWO_31 ==>
      r == UseStackallocAsWritten(elementSize, elementCount, is64BitProcess)
  {
    elementSize * elementCount <= MaximumStackallocSize(is64BitProcess)
  }

  /**
   * 2^30 four-byte elements (4 GiB) wrap to a total of zero bytes, so the
   * written test approves a stack allocation that the limit forbids.
   */
  lemma UseStackallocWraps()
    ensures UseStackallocAsWritten(4, 0x4000_0000, true)
    ensures !UseStackalloc(4, 0x4000_0000, true)
  {
  }

  // ---------------------------------------------------------------------
  // Bits of natural numbers
  // ---------------------------------------------------------------------

  function Pow2(k: nat): (r: nat)
    ensures r >= 1
  {
    if k == 0 then 1 else 2 * Pow2(k - 1)
  }

  /** `BitOperations.PopCount`: the number of one bits. */
  function PopCount(x: nat): nat
  {
    if x == 0 then 0 else x % 2 + PopCount(x / 2)
  }

  /** Bitwise `&`. */
  function BitAnd(x: nat, y: nat): nat
  {
    if x == 0 || y == 0 then 0
    else (if x % 2 == 1 && y % 2 == 1 then 1 else 0) + 2 * BitAnd(x / 2, y / 2)
  }

  /** Bitwise `~` on a 64-bit `nuint`. */
  function BitNot64(x: UInt64): UInt64
  {
    TWO_64 - 1 - x
  }

  ghost predicate IsPowerOfTwo(a: nat)
  {
    exists k: nat :: a == Pow2(k)
  }

  lemma {:induction false} PopCountOfPow2(k: nat)
    ensures PopCount(Pow2(k)) == 1
  {
    if k > 0 {
      PopCountOfPow2(k - 1);
      assert Pow2(k) / 2 == Pow2(k - 1);
    }
  }

  lemma {:induction false} SingleBitIsPow2(a: nat) returns (k: nat)
    requires PopCount(a) == 1
    ensures a == Pow2(k)
  {
    if a % 2 == 1 {
      assert PopCount(a / 2) == 0;
      ZeroPopCount(a / 2);
      k := 0;
    } else {
      var j := SingleBitIsPow2(a / 2);
      k := j + 1;
    }
  }

  lemma {:induction false} ZeroPopCount(x: nat)
    requires PopCount(x) == 0
    ensures x == 0
  {
    if x != 0 {
      assert x % 2 == 0;
      ZeroPopCount(x / 2);
    }
  }

  /** The source's `PopCount(alignment) != 1` test rejects exactly the non-powers of two. */
  lemma {:induction false} PopCountOneIffPowerOfTwo(a: nat)
    ensures PopCount(a) == 1 <==> IsPowerOfTwo(a)
  {
    if PopCount(a) == 1 {
      var k := SingleBitIsPow2(a);
    }
    if IsPowerOfTwo(a) {
      var k: nat :| a == Pow2(k);
      PopCountOfPow2(k);
    }
  }

  lemma {:induction false} MulAtLeast(d: nat, n: nat)
    requires n >= 1
    ensures d * n >= d
  {
    if n > 1 {
      MulAtLeast(d, n - 1);
      assert d * n == d * (n - 1) + d;
    }
  }

  /** If `x == d*q + r` with `0 <= r < d`, then `r` is `x % d` and `q` is `x / d`. */
  lemma DivModUnique(x: nat, d: nat, q: nat, r: nat)
    requires d > 0 && x == d * q + r && r < d
    ensures x % d == r && x / d == q
  {
    var q', r' := x / d, x % d;
    assert x == d * q' + r';
    if q' < q {
      assert d * q - d * q' == d * (q - q');
      MulAtLeast(d, q - q');
    } else if q' > q {
      assert d * q' - d * q == d * (q' - q);
      MulAtLeast(d, q' - q);
    }
  }

  /** Peeling off the lowest bit: `x % 2p` is twice `(x / 2) % p` plus that bit. */
  lemma ModDouble(x: nat, p: nat)
    requires p > 0
    ensures x % (2 * p) == 2 * ((x / 2) % p) + x % 2
  {
    var h := x / 2;
    var q, r := h / p, h % p;
    assert h == p * q + r;
    assert x == 2 * h + x % 2;
    assert x == (2 * p) * q + (2 * r + x % 2) by {
      assert 2 * (p * q) == (2 * p) * q;
    }
    DivModUnique(x, 2 * p, q, 2 * r + x % 2);
  }

  /** Masking with `2^k - 1` keeps the remainder modulo `2^k`. */
  lemma {:induction false} LowMaskIsMod(x: nat, k: nat)
    ensures BitAnd(x, Pow2(k) - 1) == x % Pow2(k)
  {
    if k > 0 && x > 0 {
      LowMaskIsMod(x / 2, k - 1);
      LowMaskStep(x, k);
    } else if k == 0 {
      DivModUnique(x, 1, x, 0);
    } else {
      DivModUnique(0, Pow2(k), 0, 0);
    }
  }

  /** One bit of `LowMaskIsMod`: the low bit of `x` and the rest masked one bit narrower. */
  lemma LowMaskStep(x: nat, k: nat)
    requires k > 0 && x > 0
    requires BitAnd(x / 2, Pow2(k - 1) - 1) == (x / 2) % Pow2(k - 1)
    ensures BitAnd(x, Pow2(k) - 1) == x % Pow2(k)
  {
    LowMaskHalf(k);
    BitAndOdd(x, Pow2(k) - 1);
    ModDouble(x, Pow2(k - 1));
  }

  /** `2^k - 1` is odd, and halving it gives `2^(k-1) - 1`. */
  lemma LowMaskHalf(k: nat)
    requires k > 0
    ensures (Pow2(k) - 1) % 2 == 1 && (Pow2(k) - 1) / 2 == Pow2(k - 1) - 1
  {
    var p := Pow2(k - 1);
    assert Pow2(k) - 1 == 2 * (p - 1) + 1;
    DivModUnique(Pow2(k) - 1, 2, p - 1, 1);
  }

  /** `&` with an odd mask keeps the lowest bit and recurses on the rest. */
  lemma BitAndOdd(x: nat, m: nat)
    requires x > 0 && m % 2 == 1
    ensures BitAnd(x, m) == x % 2 + 2 * BitAnd(x / 2, m / 2)
  {
  }

  /** For a power of two `a`, `x & (a - 1)` is `x % a`. */
  lemma SingleBitMaskIsMod(x: nat, a: nat)
    requires PopCount(a) == 1
    ensures a > 0 && BitAnd(x, a - 1) == x % a
  {
    var k := SingleBitIsPow2(a);
    LowMaskIsMod(x, k);
  }

  /** Masking with `x & m` and `x & ~m` split `x` into two disjoint parts. */
  lemma {:induction false} MaskSplits(x: nat, m: nat, n: nat)
    requires x < Pow2(n) && m < Pow2(n)
    ensures BitAnd(x, m) + BitAnd(x, Pow2(n) - 1 - m) == x
  {
    if n == 0 || x == 0 {
    } else {
      var c := Pow2(n) - 1 - m;
      assert c / 2 == Pow2(n - 1) - 1 - m / 2;
      assert c % 2 == 1 - m % 2;
      MaskSplits(x / 2, m / 2, n - 1);
    }
  }

  lemma {:induction false} Pow2Add(a: nat, b: nat)
    ensures Pow2(a + b) == Pow2(a) * Pow2(b)
  {
    if a > 0 {
      Pow2Add(a - 1, b);
      assert Pow2(a + b) == 2 * (Pow2(a - 1) * Pow2(b));
    }
  }

  lemma Pow2_64()
    ensures Pow2(64) == TWO_64
  {
    Pow2_32();
    Pow2Add(32, 32);
  }

  lemma Pow2_32()
    ensures Pow2(32) == TWO_32
  {
    Pow2_8();
    Pow2Add(8, 8);
    Pow2Add(16, 16);
  }

  lemma Pow2_8()
    ensures Pow2(8) == 256
  {
    assert Pow2(2) == 4;
    Pow2Add(2, 2);
    Pow2Add(4, 4);
  }

  // ---------------------------------------------------------------------
  // Alignment
  // ---------------------------------------------------------------------

  datatype AlignmentError = AlignmentNotPowerOfTwo | InvalidEnumValue

  /** `AlignmentMethod`; an out-of-range enum value is kept as its number. */
  datatype AlignmentMethod = Add | Subtract | Undefined(value: int)

  /**
   * `IsAligned`: throws unless the alignment is a non-zero power of two;
   * otherwise the address is aligned when its low bits under the mask are zero.
   */
  function IsAligned(address: UInt64, alignment: UInt64): (r: Result<bool, AlignmentError>)
    ensures r.Failure? <==> PopCount(alignment) != 1
    ensures r.Success? ==> (r.value <==> address % alignment == 0)
  {
    if PopCount(alignment) != 1 then Failure(AlignmentNotPowerOfTwo)
    else
      SingleBitMaskIsMod(address, alignment);
      Success(BitAnd(address, alignment - 1) == 0)
  }

  /** Rounding up by `address + alignment - address % alignment`. */
  lemma RoundUp(address: nat, alignment: nat)
    requires alignment > 0
    ensures (address + alignment - address % alignment) % alignment == 0
    ensures 0 < alignment - address % alignment <= alignment
  {
    var q := address / alignment;
    assert address == alignment * q + address % alignment;
    assert address + alignment - address % alignment == alignment * (q + 1) + 0;
    DivModUnique(address + alignment - address % alignment, alignment, q + 1, 0);
  }

  /** Subtracting the remainder leaves a multiple. */
  lemma RemainderRemoved(address: nat, alignment: nat)
    requires alignment > 0
    ensures (address - address % alignment) % alignment == 0
  {
    var q := address / alignment;
    assert address == alignment * q + address % alignment;
    DivModUnique(address - address % alignment, alignment, q, 0);
  }

  /** Rounding down by `address & ~(alignment - 1)` clears the remainder. */
  lemma RoundDown(address: UInt64, alignment: UInt64)
    requires PopCount(alignment) == 1
    ensures BitAnd(address, BitNot64(alignment - 1)) == address - address % alignment
  {
    SingleBitMaskIsMod(address, alignment);
    Pow2_64();
    var m := alignment - 1;
    assert BitNot64(m) == Pow2(64) - 1 - m;
    MaskSplits(address, m, 64);
  }

  /**
   * `Align`: throws unless the alignment is a non-zero power of two, then
   * rounds up (`address + alignment - address % alignment`, in wrapping
   * `nuint` arithmetic) or down (`address & ~(alignment - 1)`); any other
   * enum value throws.
   */
  function Align(address: UInt64, alignment: UInt64, how: AlignmentMethod): (r: Result<UInt64, AlignmentError>)
    ensures r.Failure? <==> PopCount(alignment) != 1 || how.Undefined?
    ensures r.Failure? ==> r.error == (if PopCount(alignment) != 1 then AlignmentNotPowerOfTwo else InvalidEnumValue)
    ensures r.Success? && how == Subtract ==>
      r.value % alignment == 0 && r.value <= address && address - r.value < alignment
    ensures r.Success? && how == Add && address + alignment < TWO_64 ==>
      r.value % alignment == 0 && 0 < r.value - address <= alignment
  {
    if PopCount(alignment) != 1 then Failure(AlignmentNotPowerOfTwo)
    else match how
      case Add =>
        SingleBitMaskIsMod(address, alignment);
        RoundUp(address, alignment);
        Success(WrapUInt64(address + alignment - address % alignment))
      case Subtract =>
        RoundDown(address, alignment);
        RemainderRemoved(address, alignment);
        Success(BitAnd(address, BitNot64(alignment - 1)))
      case Undefined(_) => Failure(InvalidEnumValue)
  }

  /** An address that is already aligned still moves up by a whole alignment under `Add`. */
  lemma AlignAddOfAlignedMovesUp(address: UInt64, alignment: UInt64)
    requires PopCount(alignment) == 1 && address % alignment == 0
    requires address + alignment < TWO_64
    ensures Align(address, alignment, Add) == Success(address + alignment)
  {
  }
}
