/**
 * Collections/Queue.cs: a FIFO queue over a caller-supplied buffer with a
 * read index and a write index. When the write index has run off the end,
 * the live elements are moved to the front before the next write.
 */
module SpanQueue {
  import opened Wrappers

  datatype QueueError =
    | QueueFull         // "Queue is full."
    | QueueEmpty        // "Queue is empty."
    | IndexOutOfRange   // a write past the end of the (empty) default buffer

  class Queue<T(0)> {
    /** The backing span; its length is the capacity. */
    const buffer: array<T>
    /** `_lastIndex`: `Length - 1` for a span, left at 0 by the default constructor. */
    const lastIndex: int
    var count: nat
    var enqueueIndex: nat
    var dequeueIndex: nat

    ghost predicate Valid()
      reads this
    {
      && (lastIndex == buffer.Length - 1 || (buffer.Length == 0 && lastIndex == 0))
      && (Overrun() || (dequeueIndex <= enqueueIndex <= buffer.Length && count == enqueueIndex - dequeueIndex))
    }

    /**
     * The default queue after its first write: `_queue[_enqueueIndex++]`
     * advanced the write index before the empty span's indexer threw.
     */
    ghost predicate Overrun()
      reads this
    {
      buffer.Length == 0 && lastIndex == 0 && enqueueIndex == 1 && dequeueIndex == 0 && count == 0
    }

    /** `Capacity`: the length of the caller's buffer, which a valid queue never holds more than. */
    function Capacity(): (r: nat)
      reads this
      ensures Valid() ==> count <= r
    {
      buffer.Length
    }

    /** The queued elements, oldest first. */
    ghost function Contents(): seq<T>
      reads this, buffer
      requires Valid()
    {
      if Overrun() then [] else buffer[dequeueIndex..enqueueIndex]
    }

    /** `Queue()`: an empty span, with `_lastIndex` left at its default 0. */
    constructor Default()
      ensures Valid() && Contents() == [] && Capacity() == 0 && lastIndex == 0
      ensures enqueueIndex == 0 && fresh(buffer)
    {
      buffer := new T[0];
      lastIndex := 0;
      count, enqueueIndex, dequeueIndex := 0, 0, 0;
    }

    /** `Queue(Span<T>)`: queues into the caller's buffer. */
    constructor (span: array<T>)
      ensures Valid() && Contents() == [] && buffer == span && lastIndex == span.Length - 1
    {
      buffer := span;
      lastIndex := span.Length - 1;
      count, enqueueIndex, dequeueIndex := 0, 0, 0;
    }

    /**
     * `Enqueue`: fails exactly when every slot holds a live element;
     * otherwise compacts if the write index is at the end and appends. A full
     * queue throws "Queue is full." and changes nothing, except the fresh
     * default queue: its write index is advanced before the write into the
     * empty span throws, and from then on it is full.
     */
    method Enqueue(item: T) returns (r: Result<(), QueueError>)
      requires Valid()
      modifies this, buffer
      ensures Valid()
      ensures r.Failure? <==> old(count) == Capacity()
      ensures r.Failure? ==> r.error == (if old(enqueueIndex) == 0 && lastIndex == 0 && Capacity() == 0 then IndexOutOfRange else QueueFull)
      ensures r.Failure? && r.error == QueueFull ==> unchanged(this) && unchanged(buffer)
      ensures r.Failure? && r.error == IndexOutOfRange ==> Overrun() && unchanged(buffer)
      ensures r.Success? ==> Contents() == old(Contents()) + [item] && count == old(count) + 1
      ensures r.Success? && old(enqueueIndex) == Capacity() ==> dequeueIndex == 0
    {
      if enqueueIndex > lastIndex {
        if dequeueIndex == 0 {
          return Failure(QueueFull);
        }
        Compact();
      }
      if enqueueIndex >= buffer.Length {
        enqueueIndex := enqueueIndex + 1;
        return Failure(IndexOutOfRange);
      }
      buffer[enqueueIndex] := item;
      enqueueIndex := enqueueIndex + 1;
      count := count + 1;
      r := Success(());
    }

    /** Copies the live elements, in order, to the front of the buffer. */
    method Compact()
      requires Valid() && enqueueIndex == buffer.Length && dequeueIndex > 0
      modifies this, buffer
      ensures Valid() && Contents() == old(Contents())
      ensures dequeueIndex == 0 && enqueueIndex == old(count)
    {
      var n := buffer.Length - dequeueIndex;
      var k := 0;
      while k < n
        modifies buffer
        invariant 0 <= k <= n
        invariant forall j :: 0 <= j < k ==> buffer[j] == old(buffer[dequeueIndex + j])
        invariant forall j :: k <= j < buffer.Length ==> buffer[j] == old(buffer[j])
      {
        buffer[k] := buffer[dequeueIndex + k];
        k := k + 1;
      }
      dequeueIndex := 0;
      enqueueIndex := n;
    }

    /** `Dequeue`: the oldest element, or "Queue is empty." with nothing changed. */
    method Dequeue() returns (r: Result<T, QueueError>)
      requires Valid()
      modifies this
      ensures Valid()
      ensures r.Failure? <==> old(count) == 0
      ensures r.Failure? ==> r.error == QueueEmpty && unchanged(this)
      ensures r.Success? ==>
        r.value == old(Contents())[0] && Contents() == old(Contents())[1..] && count == old(count) - 1
    {
      if count == 0 {
        return Failure(QueueEmpty);
      }
      count := count - 1;
      r := Success(buffer[dequeueIndex]);
      dequeueIndex := dequeueIndex + 1;
    }

    /** `Peek`: the oldest element without removing it. */
    function Peek(): (r: Result<T, QueueError>)
      reads this, buffer
      requires Valid()
      ensures r.Failure? <==> Contents() == []
      ensures r.Failure? ==> r.error == QueueEmpty
      ensures r.Success? ==> r.value == Contents()[0]
    {
      if count == 0 then Failure(QueueEmpty) else Success(buffer[dequeueIndex])
    }

    /** `TryEnqueue`: false when full, and then nothing changes; never fails otherwise. */
    method TryEnqueue(item: T) returns (ok: bool)
      requires Valid()
      modifies this, buffer
      ensures Valid()
      ensures ok <==> old(count) < Capacity()
      ensures ok ==> Contents() == old(Contents()) + [item]
      ensures !ok ==> unchanged(this) && unchanged(buffer)
    {
      if count >= buffer.Length {
        return false;
      }
      var r := Enqueue(item);
      ok := true;
    }

    /** `TryDequeue`: `None` exactly when empty. */
    method TryDequeue() returns (item: Option<T>)
      requires Valid()
      modifies this
      ensures Valid()
      ensures item.None? <==> old(Contents()) == []
      ensures item.None? ==> unchanged(this)
      ensures item.Some? ==> item.value == old(Contents())[0] && Contents() == old(Contents())[1..]
    {
      if count <= 0 {
        return None;
      }
      var r := Dequeue();
      item := Some(r.value);
    }

    /** `TryPeek`: `None` exactly when empty. */
    function TryPeek(): (item: Option<T>)
      reads this, buffer
      requires Valid()
      ensures item.None? <==> Contents() == []
      ensures item.Some? ==> item.value == Contents()[0]
    {
      if count <= 0 then None else Some(Peek().value)
    }

    /** `Clear`: forgets every element; the buffer keeps its contents and length. */
    method Clear()
      requires Valid()
      modifies this
      ensures Valid() && Contents() == [] && count == 0
      ensures enqueueIndex == 0 && dequeueIndex == 0
    {
      count := 0;
      enqueueIndex := 0;
      dequeueIndex := 0;
    }
  }

  /** A two-slot queue hands back a, b and c in that order across one compaction. */
  method FifoAcrossCompaction(a: int, b: int, c: int) returns (out: seq<int>)
    ensures out == [a, b, c]
  {
    var span := new int[2];
    var q := new Queue<int>(span);
    var r := q.Enqueue(a);
    r := q.Enqueue(b);
    var x := q.Dequeue();
    assert x == Success(a);
    r := q.Enqueue(c);
    assert r.Success? && q.dequeueIndex == 0;
    x := q.Dequeue();
    out := [a, x.value];
    x := q.Dequeue();
    out := out + [x.value];
    x := q.Dequeue();
    assert x == Failure(QueueEmpty);
  }

  /**
   * The default queue's first enqueue throws `IndexOutOfRangeException`
   * after advancing the write index; every later one throws "Queue is full.".
   */
  method DefaultEnqueueTwice<T(0)>(a: T, b: T) returns (first: Result<(), QueueError>, second: Result<(), QueueError>)
    ensures first == Failure(IndexOutOfRange)
    ensures second == Failure(QueueFull)
  {
    var q := new Queue<T>.Default();
    first := q.Enqueue(a);
    second := q.Enqueue(b);
  }
}
