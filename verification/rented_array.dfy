/**
 * src/HLE/Memory/RentedArray.cs: an array rented from a pool, handed back
 * to that pool by the first `Dispose`. Every access goes through the
 * `Array` property, which throws `ObjectDisposedException` once disposed.
 */
module Rented {
  import opened Ints
  import opened Wrappers

  datatype AccessError = ObjectDisposed | ArgumentOutOfRange

  /**
   * The pool a rented array goes back to. Only what `RentedArray` observes
   * of it is modelled: the arrays returned to it, in order.
   */
  class ArrayPool<T> {
    var returned: seq<array<T>>

    constructor ()
      ensures returned == []
    {
      returned := [];
    }

    /** `ArrayPool<T>.Return(array)`. */
    method Return(a: array<T>)
      modifies this
      ensures returned == old(returned) + [a]
    {
      returned := returned + [a];
    }
  }

  /** `System.Index`: a non-negative value counted from the start or from the end. */
  datatype Index = Index(value: nat, fromEnd: bool)
  {
    /** `Index.GetOffset(length)`. */
    function GetOffset(length: nat): (offset: int)
      ensures fromEnd ==> offset == length - value
      ensures !fromEnd ==> offset == value
    {
      if fromEnd then length - value else value
    }
  }

  /**
   * `(uint)index >= (uint)length`, the single compare the integer indexer
   * uses: a negative index reinterpreted as unsigned is at least 2^31.
   */
  predicate OutOfRangeUnsigned(index: Int32, length: nat)
    requires length < TWO_31
  {
    WrapUInt32(index) >= WrapUInt32(length)
  }

  /** The unsigned compare rejects exactly the indices outside `[0, length)`. */
  lemma OutOfRangeUnsignedExact(index: Int32, length: nat)
    requires length < TWO_31
    ensures OutOfRangeUnsigned(index, length) <==> index < 0 || length <= index
  {
    if index < 0 {
      assert WrapUInt32(index) == index + TWO_32;
    }
  }

  class RentedArray<T> {
    /** `_array`: null once disposed. */
    var buffer: array?<T>
    const pool: ArrayPool<T>

    /**
     * `RentedArray()` (and `Empty`): the shared empty array `[]`
     * (`Array.Empty<T>()`, given as `empty`) backed by the shared pool.
     */
    constructor Empty(shared: ArrayPool<T>, empty: array<T>)
      requires empty.Length == 0
      ensures buffer == empty && pool == shared
      ensures !IsDisposed() && Length() == Success(0)
    {
      buffer := empty;
      pool := shared;
    }

    /** `RentedArray(array, pool)`. */
    constructor (a: array<T>, p: ArrayPool<T>)
      ensures buffer == a && pool == p
    {
      buffer := a;
      pool := p;
    }

    predicate IsDisposed()
      reads this
    {
      buffer == null
    }

    /** `Length`: the array's length, or `ObjectDisposedException`. */
    function Length(): (r: Result<nat, AccessError>)
      reads this
      ensures r.Failure? <==> IsDisposed()
      ensures r.Failure? ==> r.error == ObjectDisposed
      ensures r.Success? ==> r.value == buffer.Length
    {
      if buffer == null then Failure(ObjectDisposed) else Success(buffer.Length)
    }

    /**
     * `Dispose()`: the first call hands the array back to the pool and
     * marks this disposed; later calls do nothing.
     */
    method Dispose()
      modifies this, pool
      ensures IsDisposed()
      ensures old(buffer) == null ==> pool.returned == old(pool.returned)
      ensures old(buffer) != null ==> pool.returned == old(pool.returned) + [old(buffer)]
    {
      var a := buffer;
      buffer := null;
      if a == null {
        return;
      }
      pool.Return(a);
    }

    /** `this[int]`: the element, `ObjectDisposedException` or `ArgumentOutOfRangeException`. */
    function Get(index: Int32): (r: Result<T, AccessError>)
      requires buffer != null ==> buffer.Length < TWO_31
      reads this, buffer
      ensures IsDisposed() ==> r == Failure(ObjectDisposed)
      ensures !IsDisposed() ==>
        (r.Failure? <==> index < 0 || buffer.Length <= index)
      ensures r.Failure? && !IsDisposed() ==> r.error == ArgumentOutOfRange
      ensures r.Success? ==> 0 <= index < buffer.Length && r.value == buffer[index]
    {
      if buffer == null then Failure(ObjectDisposed)
      else
        OutOfRangeUnsignedExact(index, buffer.Length);
        if OutOfRangeUnsigned(index, buffer.Length) then Failure(ArgumentOutOfRange)
        else Success(buffer[index])
    }

    /** A write through the reference `this[int]` returns. */
    method Set(index: Int32, value: T) returns (r: Result<(), AccessError>)
      requires buffer != null ==> buffer.Length < TWO_31
      modifies buffer
      ensures r.Failure? <==> old(Get(index)).Failure?
      ensures r.Failure? ==> r.error == old(Get(index)).error && (buffer != null ==> buffer[..] == old(buffer[..]))
      ensures r.Success? ==> buffer[..] == old(buffer[..])[index := value]
    {
      if buffer == null {
        return Failure(ObjectDisposed);
      }
      OutOfRangeUnsignedExact(index, buffer.Length);
      if OutOfRangeUnsigned(index, buffer.Length) {
        return Failure(ArgumentOutOfRange);
      }
      buffer[index] := value;
      r := Success(());
    }

    /**
     * `this[Index]`: `Length` first (so a disposed array throws before the
     * offset is computed), then the integer indexer at the offset.
     */
    function GetAt(index: Index): (r: Result<T, AccessError>)
      requires buffer != null ==> buffer.Length < TWO_31
      requires index.value < TWO_31
      reads this, buffer
      ensures IsDisposed() ==> r == Failure(ObjectDisposed)
      ensures !IsDisposed() ==>
        var offset := index.GetOffset(buffer.Length);
        (r.Failure? <==> offset < 0 || buffer.Length <= offset)
        && (r.Success? ==> r.value == buffer[offset])
    {
      match Length()
      case Failure(e) => Failure(e)
      case Success(length) => Get(index.GetOffset(length))
    }

    /**
     * `ToArray()`: a copy equal element by element, or the shared empty array
     * `[]` (`Array.Empty<T>()`, given as `empty`) when there is nothing to copy.
     */
    method ToArray(empty: array<T>) returns (r: Result<array<T>, AccessError>)
      requires empty.Length == 0
      ensures r.Failure? <==> IsDisposed()
      ensures r.Failure? ==> r.error == ObjectDisposed
      ensures r.Success? ==> r.value[..] == buffer[..]
      ensures r.Success? && buffer.Length == 0 ==> r.value == empty
      ensures r.Success? && buffer.Length > 0 ==> fresh(r.value)
    {
      if buffer == null {
        return Failure(ObjectDisposed);
      }
      var source := buffer;
      if source.Length == 0 {
        return Success(empty);
      }
      var result := new T[source.Length](i reads source => if 0 <= i < source.Length then source[i] else source[0]);
      r := Success(result);
    }

    /** `Clear()`: every element becomes `default(T)`, given here as `defaultValue`. */
    method Clear(defaultValue: T) returns (r: Result<(), AccessError>)
      modifies buffer
      ensures r.Failure? <==> IsDisposed()
      ensures r.Failure? ==> r.error == ObjectDisposed
      ensures r.Success? ==> forall i :: 0 <= i < buffer.Length ==> buffer[i] == defaultValue
    {
      if buffer == null {
        return Failure(ObjectDisposed);
      }
      var a := buffer;
      for i := 0 to a.Length
        invariant forall j :: 0 <= j < i ==> a[j] == defaultValue
      {
        a[i] := defaultValue;
      }
      r := Success(());
    }

    /**
     * `Equals(RentedArray<T>)`: the same array object and the same pool;
     * reading `Array` on either side throws once that side is disposed.
     */
    function Equals(other: RentedArray<T>): (r: Result<bool, AccessError>)
      reads this, other
      ensures r.Failure? <==> IsDisposed() || other.IsDisposed()
      ensures r.Failure? ==> r.error == ObjectDisposed
      ensures r.Success? ==> (r.value <==> buffer == other.buffer && pool == other.pool)
    {
      if buffer == null || other.buffer == null then Failure(ObjectDisposed)
      else Success(buffer == other.buffer && pool == other.pool)
    }
  }

  /** Two empty handles share the empty array and the pool, so they are equal. */
  method EmptyHandlesEqual<T>(shared: ArrayPool<T>, empty: array<T>) returns (a: RentedArray<T>, b: RentedArray<T>)
    requires empty.Length == 0
    ensures a.Equals(b) == Success(true)
  {
    a := new RentedArray.Empty(shared, empty);
    b := new RentedArray.Empty(shared, empty);
  }

  /** A second `Dispose` hands nothing more to the pool. */
  method DisposeTwice<T>(rented: RentedArray<T>)
    requires !rented.IsDisposed()
    modifies rented, rented.pool
    ensures rented.IsDisposed()
    ensures rented.pool.returned == old(rented.pool.returned) + [old(rented.buffer)]
  {
    rented.Dispose();
    rented.Dispose();
  }
}
