/** The two ring buffers of the capture path, each refining a bounded FIFO of packets. */
module Rings {
  import opened Bits
  import opened Fifo
  import opened NextPow2

  lemma Exponent(p: nat, v: nat) returns (k: nat)
    requires LeastPowerOfTwo(p, v) && v <= 0x8000_0000_0000_0000
    ensures p == Pow2(k) && k <= 63 && p >= v
    ensures p >= 8 ==> k >= 3
    ensures v <= 8 ==> p <= 8
  {
    k :| p == Pow2(k);
    Pow2Values();
    if k > 63 { Pow2Mono(64, k); }
    if k < 3 { Pow2Mono(k, 2); }
  }

  lemma EightIsLeast()
    ensures LeastPowerOfTwo(8, 8)
  {
    Pow2Values();
  }

  /** The capacity both constructors choose: the least power of two that is at least `requested` and 8.
      A negative request gives 8, except the least int64, which as a uint64 is 2^63 already. */
  method RoundCapacity(requested: int) returns (capacity: nat, ghost k: nat)
    requires -0x8000_0000_0000_0000 <= requested < 0x8000_0000_0000_0000
    ensures capacity == Pow2(k) && 3 <= k <= 63
    ensures LeastPowerOfTwo(capacity,
              if requested == -0x8000_0000_0000_0000 then 0x8000_0000_0000_0000 else if requested >= 8 then requested else 8)
  {
    hide LeastPowerOfTwo, Pow2;
    var v := requested % U64;
    capacity := NextPow2Uint64(v);
    EightIsLeast();
    Pow2Values();
    if 1 <= v <= 0x8000_0000_0000_0000 {
      k := Exponent(capacity, v);
    }
    if capacity < 8 {
      capacity, k := 8, 3;
    } else {
      k := Exponent(capacity, v);
    }
  }

  class LockFreeRingBuffer {
    const capacity: nat
    const mask: nat
    ghost const k: nat
    const buffer: array<PacketBuffer>
    var head: u64
    var tail: u64
    var dropped: u64
    var processed: u64
    ghost var enqueued: nat   // head and tail without the wrap at 2^64
    ghost var dequeued: nat

    /** The slot of the packet with serial number `n`. */
    ghost function At(n: nat): (i: nat)
      ensures buffer.Length > 0 ==> i < buffer.Length
    {
      if buffer.Length > 0 then n % buffer.Length else 0
    }

    ghost predicate Valid()
      reads this, buffer
    {
      && k <= 63 && capacity == Pow2(k) == buffer.Length && mask == capacity - 1
      && head == Wrap(enqueued) && tail == Wrap(dequeued)
      && dequeued <= enqueued <= dequeued + capacity
      && forall i | dequeued <= i < enqueued :: buffer[At(i)].Valid()
    }

    ghost function Contents(): (q: seq<Packet>)
      requires Valid()
      reads this, buffer
      ensures |q| == enqueued - dequeued
    {
      seq(enqueued - dequeued, i requires 0 <= i < enqueued - dequeued && Valid() reads this, buffer =>
        buffer[At(dequeued + i)].Payload())
    }

    constructor (requested: int)
      requires -0x8000_0000_0000_0000 <= requested < 0x8000_0000_0000_0000
      ensures Valid() && Contents() == [] && dropped == 0 && processed == 0
      ensures fresh(buffer) && capacity >= 8
    {
      ghost var e;
      var c;
      c, e := RoundCapacity(requested);
      Pow2Mono(3, e);
      Pow2Values();
      capacity, mask, k := c, c - 1, e;
      buffer := new PacketBuffer[c](_ => PacketBuffer(Zeros(2048), 0, 0));
      head, tail, dropped, processed := 0, 0, 0, 0;
      enqueued, dequeued := 0, 0;
    }

    /** The slot a counter selects: masking the wrapped counter is reducing the true one. */
    lemma SlotIndex(n: nat)
      requires Valid()
      ensures And(Wrap(n), mask) == At(n) < buffer.Length
    {
      MaskedCounter(n, k);
    }

    /** No two packets held at once share a slot, and the next one has a free slot. */
    lemma SlotsDiffer(i: nat, n: nat)
      requires Valid() && i < n < i + capacity
      ensures At(i) != At(n)
    {
      ModDistinct(i, n, capacity);
    }

    /** `head - tail` in 64-bit arithmetic is the number of packets held, wrapped or not. */
    lemma Distance()
      requires Valid()
      ensures Minus(head, tail) == enqueued - dequeued == |Contents()| <= capacity
      ensures head == tail <==> enqueued == dequeued
    {
      Pow2Values();
      Pow2Mono(k, 63);
      WrappedDistance(enqueued, dequeued, U64);
    }

    method Enqueue(data: seq<byte>, timestamp: int) returns (ok: bool)
      requires Valid()
      modifies this, buffer
      ensures Valid()
      ensures ok == (|old(Contents())| < capacity)
      ensures Stored(ok) == Answer(capacity, old(Contents()), Op.Enqueue(Packet(data, timestamp)))
      ensures Contents() == Accept(capacity, old(Contents()), Op.Enqueue(Packet(data, timestamp)))
      ensures dropped == if ok then old(dropped) else Inc(old(dropped))
      ensures processed == old(processed) && tail == old(tail)
    {
      hide Inc, Wrap, Minus, Pow2, And, Store, LockFreeRingBuffer.At;
      Distance();
      if Minus(head, tail) >= capacity {
        dropped := Inc(dropped);
        return false;
      }
      SlotIndex(enqueued);
      forall i | dequeued <= i < enqueued ensures At(i) != At(enqueued) { SlotsDiffer(i, enqueued); }
      Succeeds(enqueued);
      var idx := And(head, mask);
      buffer[idx] := Store(buffer[idx], data, timestamp);
      head := Inc(head);
      enqueued := enqueued + 1;
      assert Contents() == old(Contents()) + [Packet(data, timestamp)];
      return true;
    }

    method Dequeue(buf: PacketBuffer) returns (ok: bool, buf': PacketBuffer)
      requires Valid()
      modifies this
      ensures Valid()
      ensures ok == (old(Contents()) != [])
      ensures ok ==> buf'.Valid() && buf'.Payload() == old(Contents())[0]
      ensures !ok ==> buf' == buf
      ensures Taken(if ok then Some(buf'.Payload()) else None) == Answer(capacity, old(Contents()), Op.Dequeue)
      ensures Contents() == Accept(capacity, old(Contents()), Op.Dequeue)
      ensures processed == if ok then Inc(old(processed)) else old(processed)
      ensures dropped == old(dropped) && head == old(head)
    {
      hide Inc, Wrap, Minus, Pow2, And, Store, LockFreeRingBuffer.At;
      Distance();
      if head == tail {
        return false, buf;
      }
      SlotIndex(dequeued);
      var idx := And(tail, mask);
      var src := buffer[idx];
      assert src.Payload() == Contents()[0];
      buf' := Store(buf, src.data[..src.length], src.timestamp);
      Succeeds(dequeued);
      tail := Inc(tail);
      dequeued := dequeued + 1;
      assert Contents() == old(Contents())[1..];
      processed := Inc(processed);
      return true, buf';
    }

    method DequeueBatch(bufs: array<PacketBuffer>) returns (count: nat)
      requires Valid() && bufs != buffer
      modifies this, bufs
      ensures Valid()
      ensures count == if |old(Contents())| < bufs.Length then |old(Contents())| else bufs.Length
      ensures Contents() == old(Contents())[count..]
      ensures forall i | 0 <= i < count :: bufs[i].Valid() && bufs[i].Payload() == old(Contents())[i]
      ensures forall i | count <= i < bufs.Length :: bufs[i] == old(bufs[i])
      ensures processed == (old(processed) + count) % U64 && dropped == old(dropped)
    {
      hide LockFreeRingBuffer.Valid, LockFreeRingBuffer.Contents;
      count := 0;
      while count < bufs.Length
        invariant Valid() && count <= bufs.Length && count <= |old(Contents())|
        invariant Contents() == old(Contents())[count..]
        invariant forall i | 0 <= i < count :: bufs[i].Valid() && bufs[i].Payload() == old(Contents())[i]
        invariant forall i | count <= i < bufs.Length :: bufs[i] == old(bufs[i])
        invariant processed == (old(processed) + count) % U64 && dropped == old(dropped)
      {
        var ok, buf := Dequeue(bufs[count]);
        if !ok {
          break;
        }
        bufs[count] := buf;
        count := count + 1;
      }
    }

    method Size() returns (n: nat)
      requires Valid()
      ensures n == |Contents()|
    {
      Distance();
      n := Minus(head, tail);
    }
  }

  class SPSCLockFreeQueue {
    const capacity: nat
    const mask: nat
    ghost const k: nat
    const buffer: array<PacketBuffer>
    var head: u64
    var tail: u64
    var dropped: u64
    var processed: u64
    ghost var enqueued: nat
    ghost var dequeued: nat

    ghost function At(n: nat): (i: nat)
      ensures buffer.Length > 0 ==> i < buffer.Length
    {
      if buffer.Length > 0 then n % buffer.Length else 0
    }

    ghost predicate Valid()
      reads this, buffer
    {
      && k <= 63 && capacity == Pow2(k) == buffer.Length && mask == capacity - 1
      && head == At(enqueued) && tail == At(dequeued)
      && dequeued <= enqueued < dequeued + capacity
      && forall i | dequeued <= i < enqueued :: buffer[At(i)].Valid()
    }

    ghost function Contents(): (q: seq<Packet>)
      requires Valid()
      reads this, buffer
      ensures |q| == enqueued - dequeued < capacity
    {
      seq(enqueued - dequeued, i requires 0 <= i < enqueued - dequeued && Valid() reads this, buffer =>
        buffer[At(dequeued + i)].Payload())
    }

    constructor (requested: int)
      requires -0x8000_0000_0000_0000 <= requested < 0x8000_0000_0000_0000
      ensures Valid() && Contents() == [] && dropped == 0 && processed == 0
      ensures fresh(buffer) && capacity >= 8
    {
      ghost var e;
      var c;
      c, e := RoundCapacity(requested);
      Pow2Mono(3, e);
      Pow2Values();
      capacity, mask, k := c, c - 1, e;
      buffer := new PacketBuffer[c](_ => PacketBuffer(Zeros(2048), 0, 0));
      head, tail, dropped, processed := 0, 0, 0, 0;
      enqueued, dequeued := 0, 0;
    }

    /** Both indices wrap at the capacity, so advancing and masking is advancing the serial number. */
    lemma Advance(n: nat)
      requires Valid()
      ensures And(At(n) + 1, mask) == At(n + 1) < U64
    {
      Pow2Values();
      Pow2Mono(k, 63);
      AndMask(At(n) + 1, k);
      WrappedSuccessor(n, capacity);
    }

    lemma SlotsDiffer(i: nat, n: nat)
      requires Valid() && i < n < i + capacity
      ensures At(i) != At(n)
    {
      ModDistinct(i, n, capacity);
    }

    lemma FullSlot(n: nat)
      requires Valid()
      ensures At(n) == At(n + capacity)
    {
      hide Pow2;
      ModAdd(n, capacity);
    }

    /** One slot stays free, so equal indices mean empty and adjacent ones mean full. */
    lemma Ends()
      requires Valid()
      ensures head == tail <==> enqueued == dequeued
      ensures At(enqueued + 1) == tail <==> enqueued + 1 == dequeued + capacity
    {
      if enqueued != dequeued { SlotsDiffer(dequeued, enqueued); }
      if enqueued + 1 == dequeued + capacity {
        FullSlot(dequeued);
      } else {
        SlotsDiffer(dequeued, enqueued + 1);
      }
    }

    method Enqueue(data: seq<byte>, timestamp: int) returns (ok: bool)
      requires Valid()
      modifies this, buffer
      ensures Valid()
      ensures ok == (|old(Contents())| < capacity - 1)
      ensures Stored(ok) == Answer(capacity - 1, old(Contents()), Op.Enqueue(Packet(data, timestamp)))
      ensures Contents() == Accept(capacity - 1, old(Contents()), Op.Enqueue(Packet(data, timestamp)))
      ensures dropped == if ok then old(dropped) else Inc(old(dropped))
      ensures processed == old(processed) && tail == old(tail)
    {
      hide Inc, Pow2, And, Store, SPSCLockFreeQueue.At;
      Ends();
      Advance(enqueued);
      var nextHead := And(head + 1, mask);
      if nextHead == tail {
        dropped := Inc(dropped);
        return false;
      }
      forall i | dequeued <= i < enqueued ensures At(i) != At(enqueued) { SlotsDiffer(i, enqueued); }
      buffer[head] := Store(buffer[head], data, timestamp);
      head := nextHead;
      enqueued := enqueued + 1;
      assert Contents() == old(Contents()) + [Packet(data, timestamp)];
      return true;
    }

    method Dequeue(buf: PacketBuffer) returns (ok: bool, buf': PacketBuffer)
      requires Valid()
      modifies this
      ensures Valid()
      ensures ok == (old(Contents()) != [])
      ensures ok ==> buf'.Valid() && buf'.Payload() == old(Contents())[0]
      ensures !ok ==> buf' == buf
      ensures Taken(if ok then Some(buf'.Payload()) else None) == Answer((capacity - 1), old(Contents()), Op.Dequeue)
      ensures Contents() == Accept(capacity - 1, old(Contents()), Op.Dequeue)
      ensures processed == if ok then Inc(old(processed)) else old(processed)
      ensures dropped == old(dropped) && head == old(head)
    {
      hide Inc, Pow2, And, Store, SPSCLockFreeQueue.At;
      Ends();
      Advance(dequeued);
      if tail == head {
        return false, buf;
      }
      var src := buffer[tail];
      assert src.Payload() == Contents()[0];
      buf' := Store(buf, src.data[..src.length], src.timestamp);
      tail := And(tail + 1, mask);
      dequeued := dequeued + 1;
      assert Contents() == old(Contents())[1..];
      processed := Inc(processed);
      return true, buf';
    }

    lemma HeldBetween()
      requires Valid()
      ensures enqueued - dequeued == if head >= tail then head - tail else capacity - tail + head
    {
      var d, q := enqueued - dequeued, dequeued / capacity;
      if tail + d < capacity {
        DivUnique(enqueued, capacity, q, tail + d);
      } else {
        DivUnique(enqueued, capacity, q + 1, tail + d - capacity);
      }
    }

    method Size() returns (n: nat)
      requires Valid()
      ensures n == |Contents()|
    {
      HeldBetween();
      if head >= tail {
        n := head - tail;
      } else {
        n := capacity - tail + head;
      }
    }
  }
}
