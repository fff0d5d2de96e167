/**
 * src/HLE/Memory/ArrayPool.SmallArrayPool.cs: the pool for arrays shorter
 * than the pool's minimum bucketed length. It is an inline array of buckets,
 * bucket `k` holding up to `slotsPerBucket` arrays of length `k + 1`; here
 * the two inline arrays are one `array2` of nullable array references.
 */
module SmallPool {

  /** The slots of one bucket, in order; `null` is an empty slot. */
  type Bucket<T> = seq<array?<T>>

  /** The length of the non-null prefix: the index of the first empty slot, or the size. */
  function FirstEmpty<T>(b: Bucket<T>): (n: nat)
    ensures n <= |b|
    ensures forall j :: 0 <= j < n ==> b[j] != null
    ensures n < |b| ==> b[n] == null
  {
    if b == [] then 0
    else if b[0] == null then 0
    else 1 + FirstEmpty(b[1..])
  }

  /** The non-null slots of a bucket form a prefix. */
  predicate PrefixFilled<T>(b: Bucket<T>)
  {
    forall i, j :: 0 <= i < j < |b| && b[j] != null ==> b[i] != null
  }

  /** In a prefix-filled bucket every slot from the first empty one on is empty. */
  lemma {:induction false} PrefixFilledTail<T>(b: Bucket<T>)
    requires PrefixFilled(b)
    ensures forall j :: FirstEmpty(b) <= j < |b| ==> b[j] == null
  {
    var n := FirstEmpty(b);
    forall j | n <= j < |b|
      ensures b[j] == null
    {
      if n < j {
        assert b[n] == null;
      }
    }
  }

  /** Emptying the last filled slot keeps the filled slots a prefix. */
  lemma TakeLastKeepsPrefix<T>(b: Bucket<T>)
    requires PrefixFilled(b) && 0 < FirstEmpty(b)
    ensures PrefixFilled(b[FirstEmpty(b) - 1 := null])
    ensures FirstEmpty(b[FirstEmpty(b) - 1 := null]) == FirstEmpty(b) - 1
  {
    var n := FirstEmpty(b);
    var b' := b[n - 1 := null];
    PrefixFilledTail(b);
    FirstEmptyIs(b', n - 1);
  }

  /** Filling the first empty slot keeps the filled slots a prefix. */
  lemma FillFirstKeepsPrefix<T>(b: Bucket<T>, a: array<T>)
    requires PrefixFilled(b) && FirstEmpty(b) < |b|
    ensures PrefixFilled(b[FirstEmpty(b) := a])
    ensures FirstEmpty(b[FirstEmpty(b) := a]) == FirstEmpty(b) + 1
  {
    var n := FirstEmpty(b);
    var b' := b[n := a];
    PrefixFilledTail(b);
    if n + 1 < |b| {
      FirstEmptyIs(b', n + 1);
    } else {
      FirstEmptyIs(b', |b|);
    }
  }

  /** `FirstEmpty` is the index of the first null, characterised. */
  lemma {:induction false} FirstEmptyIs<T>(b: Bucket<T>, n: nat)
    requires n <= |b|
    requires forall j :: 0 <= j < n ==> b[j] != null
    requires n < |b| ==> b[n] == null
    ensures FirstEmpty(b) == n
  {
    if b != [] && n > 0 {
      FirstEmptyIs(b[1..], n - 1);
    }
  }

  /** A slot of the pool: its bucket and its index in that bucket. */
  datatype Position = Position(bucket: nat, slot: nat)

  class SmallArrayPool<T(0)> {
    /** `slots[k, i]` is slot `i` of the bucket for length `k + 1`. */
    const slots: array2<array?<T>>
    /** `Array.Empty<T>()`, the one empty array every `Rent(0)` hands out. */
    const emptyArray: array<T>

    ghost predicate Valid()
      reads this, slots
    {
      && emptyArray.Length == 0
      && slots.Length1 >= 1
      && (forall k, i :: 0 <= k < slots.Length0 && 0 <= i < slots.Length1 && slots[k, i] != null
            ==> slots[k, i].Length == k + 1)
      && (forall k :: 0 <= k < slots.Length0 ==> PrefixFilled(Bucket(k)))
    }

    /** The bucket holding arrays of length `k + 1`. */
    ghost function Bucket(k: nat): (b: Bucket<T>)
      requires k < slots.Length0
      reads this, slots
      ensures |b| == slots.Length1
      ensures forall i :: 0 <= i < |b| ==> b[i] == slots[k, i]
    {
      seq(slots.Length1, i requires 0 <= i < slots.Length1 reads slots => slots[k, i])
    }

    /** The number of buckets, one per length `1 ..` the pool's minimum bucketed length `- 1`. */
    function BucketCount(): nat
      reads this
    {
      slots.Length0
    }

    constructor (bucketCount: nat, slotsPerBucket: nat)
      requires slotsPerBucket >= 1
      ensures Valid() && fresh(slots)
      ensures slots.Length0 == bucketCount && slots.Length1 == slotsPerBucket
      ensures forall k :: 0 <= k < bucketCount ==> FirstEmpty(Bucket(k)) == 0
    {
      slots := new array?<T>[bucketCount, slotsPerBucket]((_, _) => null);
      emptyArray := new T[0];
    }

    /**
     * A write to the one slot at `at` keeps the pool valid when its bucket
     * stays filled from the front, and changes that bucket only.
     */
    twostate lemma SlotWritten(at: Position)
      requires old(Valid())
      requires at.bucket < slots.Length0 && at.slot < slots.Length1
      requires slots[at.bucket, at.slot] != null ==> slots[at.bucket, at.slot].Length == at.bucket + 1
      requires forall k, i :: 0 <= k < slots.Length0 && 0 <= i < slots.Length1 && Position(k, i) != at
                 ==> slots[k, i] == old(slots[k, i])
      requires PrefixFilled(old(Bucket(at.bucket))[at.slot := slots[at.bucket, at.slot]])
      ensures Valid()
      ensures Bucket(at.bucket) == old(Bucket(at.bucket))[at.slot := slots[at.bucket, at.slot]]
      ensures forall k :: 0 <= k < slots.Length0 && k != at.bucket ==> Bucket(k) == old(Bucket(k))
    {
      assert Bucket(at.bucket) == old(Bucket(at.bucket))[at.slot := slots[at.bucket, at.slot]];
      forall k | 0 <= k < slots.Length0 && k != at.bucket
        ensures Bucket(k) == old(Bucket(k))
      {
        assert forall i :: 0 <= i < slots.Length1 ==> Bucket(k)[i] == old(Bucket(k))[i];
      }
    }

    /**
     * The search of `Rent`: with slot 0 of bucket `k` filled, the slots from
     * index 1 on are scanned for the first empty one.
     */
    method FirstEmptySlot(k: nat) returns (i: nat)
      requires Valid() && k < slots.Length0 && slots[k, 0] != null
      ensures 1 <= i <= slots.Length1
      ensures i == FirstEmpty(Bucket(k))
    {
      ghost var b := Bucket(k);
      i := 1;
      while i < slots.Length1 && slots[k, i] != null
        invariant 1 <= i <= slots.Length1
        invariant forall j :: 0 <= j < i ==> b[j] != null
      {
        i := i + 1;
      }
      FirstEmptyIs(b, i);
    }

    /** Takes the array in the last filled slot `i - 1` of bucket `k` and empties that slot. */
    method TakeLast(k: nat, i: nat) returns (r: array<T>)
      requires Valid() && k < slots.Length0 && 0 < i <= slots.Length1 && i == FirstEmpty(Bucket(k))
      modifies slots
      ensures Valid()
      ensures r == old(Bucket(k))[i - 1] && r.Length == k + 1
      ensures Bucket(k) == old(Bucket(k))[i - 1 := null]
      ensures forall k' :: 0 <= k' < BucketCount() && k' != k ==> Bucket(k') == old(Bucket(k'))
    {
      TakeLastKeepsPrefix(Bucket(k));
      r := slots[k, i - 1];
      slots[k, i - 1] := null;
      SlotWritten(Position(k, i - 1));
    }

    /**
     * `Rent(length)`: the shared empty array for 0; otherwise the array in the last
     * filled slot of the bucket, which is emptied. A bucket whose first slot
     * is empty, or whose slots are all filled, gives a fresh array instead.
     */
    method Rent(length: nat) returns (r: array<T>)
      requires Valid() && length <= BucketCount()
      modifies slots
      ensures Valid()
      ensures r.Length == length
      ensures length == 0 ==> r == emptyArray && unchanged(slots)
      ensures forall k :: 0 <= k < BucketCount() && k != length - 1 ==> Bucket(k) == old(Bucket(k))
      ensures length > 0 ==>
        var b := old(Bucket(length - 1));
        var n := FirstEmpty(b);
        if 0 < n < |b| then r == b[n - 1] && Bucket(length - 1) == b[n - 1 := null]
        else fresh(r) && Bucket(length - 1) == b
    {
      if length == 0 {
        return emptyArray;
      }
      var k := length - 1;
      if slots[k, 0] == null {
        r := new T[length];
        return;
      }
      var i := FirstEmptySlot(k);
      if i == slots.Length1 {
        r := new T[length];
        return;
      }
      r := TakeLast(k, i);
    }

    /**
     * The evidently intended `Rent`: a full bucket also gives up its last
     * array, so a bucket that once filled up keeps serving its length.
     */
    method RentIncludingFull(length: nat) returns (r: array<T>)
      requires Valid() && length <= BucketCount()
      modifies slots
      ensures Valid()
      ensures r.Length == length
      ensures length == 0 ==> r == emptyArray && unchanged(slots)
      ensures forall k :: 0 <= k < BucketCount() && k != length - 1 ==> Bucket(k) == old(Bucket(k))
      ensures length > 0 ==>
        var b := old(Bucket(length - 1));
        var n := FirstEmpty(b);
        if 0 < n then r == b[n - 1] && Bucket(length - 1) == b[n - 1 := null]
        else fresh(r) && Bucket(length - 1) == b
    {
      if length == 0 {
        return emptyArray;
      }
      var k := length - 1;
      if slots[k, 0] == null {
        r := new T[length];
        return;
      }
      var i := FirstEmptySlot(k);
      r := TakeLast(k, i);
    }

    /**
     * `Return(array, clearArray)`: an empty array is ignored; otherwise it
     * goes into the first empty slot of its bucket, and is dropped when the
     * bucket is full.
     */
    method Return(a: array<T>)
      requires Valid() && a.Length <= BucketCount()
      modifies slots
      ensures Valid()
      ensures a.Length == 0 ==> unchanged(slots)
      ensures forall k :: 0 <= k < BucketCount() && k != a.Length - 1 ==> Bucket(k) == old(Bucket(k))
      ensures a.Length > 0 ==>
        var b := old(Bucket(a.Length - 1));
        var n := FirstEmpty(b);
        Bucket(a.Length - 1) == if n < |b| then b[n := a] else b
    {
      if a.Length == 0 {
        return;
      }
      var k := a.Length - 1;
      ghost var b := Bucket(k);
      for i := 0 to slots.Length1
        invariant forall j :: 0 <= j < i ==> b[j] != null
        invariant unchanged(slots)
      {
        if slots[k, i] == null {
          FirstEmptyIs(b, i);
          FillFirstKeepsPrefix(b, a);
          slots[k, i] := a;
          SlotWritten(Position(k, i));
          return;
        }
      }
      FirstEmptyIs(b, |b|);
    }
  }

  /** Every request for length 0 gets the same array back: `Array.Empty<T>()` is shared. */
  method EmptyRentsShared<T(0)>(pool: SmallArrayPool<T>) returns (r1: array<T>, r2: array<T>)
    requires pool.Valid()
    modifies pool.slots
    ensures r1 == r2 && r1.Length == 0
  {
    r1 := pool.Rent(0);
    r2 := pool.Rent(0);
  }

  /**
   * As written, once a bucket is full it stays full: `Rent` allocates
   * instead of taking an array, and returning that array finds no room.
   */
  method FullBucketStaysFull<T(0)>(pool: SmallArrayPool<T>, length: nat) returns (r: array<T>)
    requires pool.Valid() && 0 < length <= pool.BucketCount()
    requires FirstEmpty(pool.Bucket(length - 1)) == pool.slots.Length1
    modifies pool.slots
    ensures fresh(r)
    ensures pool.Bucket(length - 1) == old(pool.Bucket(length - 1))
    ensures FirstEmpty(pool.Bucket(length - 1)) == pool.slots.Length1
  {
    r := pool.Rent(length);
    pool.Return(r);
  }

  /** With the intended `Rent`, a full bucket serves a request and takes the array back. */
  method FullBucketServes<T(0)>(pool: SmallArrayPool<T>, length: nat) returns (r: array<T>)
    requires pool.Valid() && 0 < length <= pool.BucketCount()
    requires FirstEmpty(pool.Bucket(length - 1)) == pool.slots.Length1
    modifies pool.slots
    ensures r == old(pool.Bucket(length - 1))[pool.slots.Length1 - 1]
    ensures pool.Bucket(length - 1) == old(pool.Bucket(length - 1))
  {
    ghost var b := pool.Bucket(length - 1);
    r := pool.RentIncludingFull(length);
    TakeLastKeepsPrefix(b);
    pool.Return(r);
    assert pool.Bucket(length - 1) == b[|b| - 1 := null][|b| - 1 := r];
  }
}
