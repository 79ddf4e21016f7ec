/** The circular sample buffers: a channel of reals and a buffer of three-phase samples. */
module Window {
  import opened Bits

  const CYCLES := 5

  /** The last `n` elements. */
  function Last<T>(s: seq<T>, n: nat): (r: seq<T>)
    requires n <= |s|
    ensures |r| == n
  {
    s[|s| - n..]
  }

  /** `size` resting values with the history behind them: what a buffer of that size started from and was given. */
  function Padded<T>(size: nat, rest: T, history: seq<T>): (p: seq<T>)
    ensures |p| == size + |history|
  {
    seq(size, _ => rest) + history
  }

  function Min(a: int, b: int): int {
    if a < b then a else b
  }

  /** The slots hold the last `|slots|` elements of `p`, element `t` in slot `t % |slots|`. */
  ghost predicate Circular<T(!new)>(slots: seq<T>, p: seq<T>) {
    && 0 < |slots| <= |p|
    && forall t | |p| - |slots| <= t < |p| :: 0 <= t % |slots| < |slots| && slots[t % |slots|] == p[t]
  }

  lemma Overwrite<T(!new)>(slots: seq<T>, p: seq<T>, v: T)
    requires Circular(slots, p)
    ensures |p| % |slots| < |slots| && Circular(slots[|p| % |slots| := v], p + [v])
  {
    forall t | |p| - |slots| < t < |p| ensures t % |slots| != |p| % |slots| {
      ModDistinct(t, |p|, |slots|);
    }
  }

  /** Where the readers begin, and the slot `i` further on, round the end. */
  function First(head: nat, n: nat, size: nat): nat
    requires 0 < size && n <= size
  {
    (head - n + size) % size
  }

  function Round(start: nat, i: nat, size: nat): (k: nat)
    requires 0 < size
    ensures k < size
  {
    (start + i) % size
  }

  lemma ReadIndex(head: nat, written: nat, size: nat, n: nat, i: nat)
    requires 0 < size <= written && n <= size && head == written % size
    ensures Round(First(head, n, size), i, size) == (written - n + i) % size
  {
    var q := (head - n + size) / size;
    var start := (head - n + size) % size;
    var a, b := (start + i) / size, (start + i) % size;
    assert written - n + i == (written / size + q + a - 1) * size + b;
    DivUnique(written - n + i, size, written / size + q + a - 1, b);
  }

  lemma ReadSlot<T(!new)>(slots: seq<T>, p: seq<T>, head: nat, n: nat, i: nat)
    requires Circular(slots, p) && i < n <= |slots| && |p| % |slots| == head
    ensures slots[Round(First(head, n, |slots|), i, |slots|)] == Last(p, n)[i]
  {
    hide First, Round;
    ReadIndex(head, |p|, |slots|, n, i);
    assert slots[(|p| - n + i) % |slots|] == p[|p| - n + i];
  }

  lemma ReadSlots<T(!new)>(slots: seq<T>, p: seq<T>, head: nat, n: nat)
    requires 0 < |slots| <= |p| && Circular(slots, p) && n <= |slots| && |p| % |slots| == head
    ensures Reads(slots, First(head, n, |slots|), Last(p, n))
  {
    hide Circular, Last, First, Round;
    forall i: nat | i < n ensures slots[Round(First(head, n, |slots|), i, |slots|)] == Last(p, n)[i] {
      ReadSlot(slots, p, head, n, i);
    }
  }

  /** Reading from slot `start` on, round the end, gives `want`. */
  ghost predicate Reads<T(!new)>(slots: seq<T>, start: nat, want: seq<T>) {
    |slots| > 0 && forall i: nat | i < |want| :: slots[Round(start, i, |slots|)] == want[i]
  }

  /** The reading loop of both buffers. */
  method ReadRound<T(!new)>(slots: array<T>, start: nat, n: nat, rest: T, ghost want: seq<T>) returns (result: array<T>)
    requires Reads(slots[..], start, want) && |want| == n
    ensures fresh(result) && result[..] == want
  {
    result := new T[n](_ => rest);
    for i := 0 to n
      invariant result[..i] == want[..i]
    {
      assert slots[..][Round(start, i, slots.Length)] == want[i];
      result[i] := slots[(start + i) % slots.Length];
    }
    assert result[..n] == result[..];
  }

  lemma FreshSlots<T(!new)>(slots: seq<T>, rest: T)
    requires |slots| > 0 && forall k | 0 <= k < |slots| :: slots[k] == rest
    ensures Circular(slots, Padded(|slots|, rest, []))
  {
    forall t | 0 <= t < |slots| ensures t % |slots| == t { DivUnique(t, |slots|, 0, t); }
  }

  /** A full cycle of pushes brings the write index back to 0, for the first time after `size` of them. */
  lemma FullAfter(size: nat, n: nat)
    requires size > 0
    ensures (n % size + 1) % size == (n + 1) % size
    ensures (n + 1) % size == 0 && n < size ==> n + 1 == size
    ensures n + 1 == size ==> (n + 1) % size == 0
    ensures n < size ==> n % size == n
  {
    WrappedSuccessor(n, size);
    if n < size { DivUnique(n, size, 0, n); }
    if n + 1 < size { DivUnique(n + 1, size, 0, n + 1); }
    if n + 1 == size { DivUnique(n + 1, size, 1, 0); }
  }

  class ChannelBuffer {
    const SampleRate: nat
    const BufferSize: nat
    const Buffer: array<real>
    var WriteIndex: nat
    var Full: bool
    ghost var History: seq<real>   // everything pushed since the start or the last reset

    ghost predicate Valid()
      reads this, Buffer
    {
      && Buffer.Length == BufferSize == SampleRate / 50 * CYCLES
      && (BufferSize == 0 ==> History == [] && WriteIndex == 0 && !Full)
      && (BufferSize > 0 ==>
            && WriteIndex == |History| % BufferSize
            && Full == (|History| >= BufferSize)
            && Circular(Buffer[..], Padded(BufferSize, 0.0, History)))
    }

    constructor (sampleRate: nat)
      ensures Valid() && fresh(Buffer) && History == []
      ensures SampleRate == sampleRate && BufferSize == sampleRate / 50 * CYCLES
    {
      SampleRate, BufferSize := sampleRate, sampleRate / 50 * CYCLES;
      Buffer := new real[sampleRate / 50 * CYCLES](_ => 0.0);
      WriteIndex, Full := 0, false;
      History := [];
      new;
      if BufferSize > 0 { FreshSlots(Buffer[..], 0.0); }
    }

    method Push(value: real)
      requires Valid() && BufferSize > 0
      modifies this, Buffer
      ensures Valid() && History == old(History) + [value]
    {
      hide Circular;
      ModAdd(|History|, BufferSize);
      FullAfter(BufferSize, |History|);
      Overwrite(Buffer[..], Padded(BufferSize, 0.0, History), value);
      Buffer[WriteIndex] := value;
      WriteIndex := (WriteIndex + 1) % BufferSize;
      if WriteIndex == 0 {
        Full := true;
      }
      assert Buffer[..] == old(Buffer[..])[|History| % BufferSize := value];
      assert Padded(BufferSize, 0.0, History + [value]) == Padded(BufferSize, 0.0, History) + [value];
      History := History + [value];
    }

    /** The last `n` values, or the whole buffer when it is smaller, zeros standing for what was not pushed yet. */
    method GetLastN(n: nat) returns (result: array<real>)
      requires Valid() && BufferSize > 0
      ensures fresh(result)
      ensures result[..] == Last(Padded(BufferSize, 0.0, History), Min(n, BufferSize))
    {
      hide Circular, Last;
      var m := if n > BufferSize then BufferSize else n;
      var start := (WriteIndex - m + BufferSize) % BufferSize;
      ghost var p := Padded(BufferSize, 0.0, History);
      ModAdd(|History|, BufferSize);
      ReadSlots(Buffer[..], p, WriteIndex, m);
      result := ReadRound(Buffer, start, m, 0.0, Last(p, m));
    }

    method AvailableSamples() returns (count: nat)
      requires Valid()
      ensures count == Min(|History|, BufferSize)
    {
      if Full {
        return BufferSize;
      }
      if BufferSize > 0 { FullAfter(BufferSize, |History|); }
      return WriteIndex;
    }

    method Reset()
      requires Valid()
      modifies this, Buffer
      ensures Valid() && History == []
    {
      WriteIndex, Full := 0, false;
      for i := 0 to Buffer.Length
        invariant forall k | 0 <= k < i :: Buffer[k] == 0.0
        invariant WriteIndex == 0 && !Full
      {
        Buffer[i] := 0.0;
      }
      History := [];
      if BufferSize > 0 { FreshSlots(Buffer[..], 0.0); }
    }
  }

  datatype ThreePhaseSample = ThreePhaseSample(ts: int, Ia: real, Ib: real, Ic: real, Ua: real, Ub: real, Uc: real)

  const NO_SAMPLE := ThreePhaseSample(0, 0.0, 0.0, 0.0, 0.0, 0.0, 0.0)

  class ThreePhaseBuffer {
    const Size: nat
    const Samples: array<ThreePhaseSample>
    var Head: nat
    var Count: nat
    ghost var History: seq<ThreePhaseSample>

    ghost predicate Valid()
      reads this, Samples
    {
      && Samples.Length == Size && Count == Min(|History|, Size)
      && (Size == 0 ==> History == [] && Head == 0)
      && (Size > 0 ==> Head == |History| % Size && Circular(Samples[..], Padded(Size, NO_SAMPLE, History)))
    }

    constructor (size: nat)
      ensures Valid() && fresh(Samples) && Size == size && History == []
    {
      Size := size;
      Samples := new ThreePhaseSample[size](_ => NO_SAMPLE);
      Head, Count := 0, 0;
      History := [];
      new;
      if Size > 0 { FreshSlots(Samples[..], NO_SAMPLE); }
    }

    method Push(sample: ThreePhaseSample)
      requires Valid() && Size > 0
      modifies this, Samples
      ensures Valid() && History == old(History) + [sample]
    {
      hide Circular;
      ModAdd(|History|, Size);
      FullAfter(Size, |History|);
      Overwrite(Samples[..], Padded(Size, NO_SAMPLE, History), sample);
      Samples[Head] := sample;
      Head := (Head + 1) % Size;
      if Count < Size {
        Count := Count + 1;
      }
      assert Samples[..] == old(Samples[..])[|History| % Size := sample];
      assert Padded(Size, NO_SAMPLE, History + [sample]) == Padded(Size, NO_SAMPLE, History) + [sample];
      History := History + [sample];
    }

    /** The last `n` samples, or all that the buffer still holds: never a slot that was not filled. */
    method GetLastN(n: nat) returns (result: array<ThreePhaseSample>)
      requires Valid() && Size > 0
      ensures fresh(result)
      ensures result[..] == Last(History, Min(n, Min(|History|, Size)))
    {
      hide Circular;
      var m := if n > Count then Count else n;
      ghost var p := Padded(Size, NO_SAMPLE, History);
      assert Last(p, m) == Last(History, m);
      var start := (Head - m + Size) % Size;
      ModAdd(|History|, Size);
      ReadSlots(Samples[..], p, Head, m);
      result := ReadRound(Samples, start, m, NO_SAMPLE, Last(History, m));
    }
  }
}
