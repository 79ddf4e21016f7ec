/** `LockFreeRingBuffer.Enqueue` by one producer and `Dequeue` by one consumer as interleaved atomic steps:
    every load, every copied byte and every store is a step of its own. */
module Spsc {
  import opened Bits
  import opened Fifo

  /** Where the producer stands inside `Enqueue(p)`; `h` is the head it loaded. */
  datatype Producer =
    | Idle
    | HeadLoaded(p: Packet, h: u64)
    | Refused                                // tail loaded, buffer looked full
    | Admitted(p: Packet, h: u64)            // tail loaded, buffer has room
    | Copying(p: Packet, h: u64, i: nat)     // slot grown if needed, i bytes written
    | LengthStored(p: Packet, h: u64)
    | TimeStored(p: Packet, h: u64)          // only the store of head is left

  /** Where the consumer stands inside `Dequeue`; `t` is the tail it loaded. */
  datatype Consumer =
    | Waiting
    | TailLoaded(t: u64)
    | NotEmpty(t: u64)                       // head loaded and different
    | Reading(t: u64, n: nat, got: seq<byte>)
    | BytesRead(t: u64, got: seq<byte>)      // the length is read again for the caller's buffer
    | LengthRead(t: u64, got: seq<byte>)
    | PacketRead(t: u64, p: Packet)          // only the store of tail is left
    | Counted
    | Broken                                 // the slot was too short, or its length changed under the reader

  datatype Shared = Shared(
    k: nat, slots: seq<PacketBuffer>, head: u64, tail: u64, dropped: u64, processed: u64,
    producer: Producer, consumer: Consumer,
    enqueued: seq<Packet>, dequeued: seq<Packet>)   // every packet published and every packet taken, in order

  datatype Action = Produce(next: Packet) | Consume

  ghost function Slot(s: Shared, counter: u64): nat {
    And(counter, Pow2(s.k) - 1)
  }

  ghost predicate WellSized(s: Shared) {
    s.k <= 63 && |s.slots| == Pow2(s.k)
  }

  lemma SlotInRange(s: Shared, counter: u64)
    requires WellSized(s)
    ensures Slot(s, counter) < |s.slots|
  {
    AndMask(counter, s.k);
  }

  ghost function WithSlot(s: Shared, counter: u64, b: PacketBuffer): (r: Shared)
    requires WellSized(s)
    ensures WellSized(r)
  {
    SlotInRange(s, counter);
    s.(slots := s.slots[Slot(s, counter) := b])
  }

  ghost function SlotAt(s: Shared, counter: u64): PacketBuffer
    requires WellSized(s)
  {
    SlotInRange(s, counter);
    s.slots[Slot(s, counter)]
  }

  /** One step of the producer; `next` is the packet of its next call. */
  ghost function ProducerStep(s: Shared, next: Packet): (r: Shared)
    requires WellSized(s)
    ensures WellSized(r) && r.k == s.k
  {
    match s.producer
    case Idle => s.(producer := HeadLoaded(next, s.head))
    case HeadLoaded(p, h) =>
      if Minus(h, s.tail) >= Pow2(s.k) then s.(producer := Refused) else s.(producer := Admitted(p, h))
    case Refused => s.(dropped := Inc(s.dropped), producer := Idle)
    case Admitted(p, h) =>
      var b := SlotAt(s, h);
      var room := if |b.data| < |p.data| then Zeros(|p.data| + 512) else b.data;
      WithSlot(s, h, b.(data := room)).(producer := Copying(p, h, 0))
    case Copying(p, h, i) =>
      var b := SlotAt(s, h);
      if i < |p.data| && i < |b.data| then
        WithSlot(s, h, b.(data := b.data[i := p.data[i]])).(producer := Copying(p, h, i + 1))
      else
        WithSlot(s, h, b.(length := |p.data|)).(producer := LengthStored(p, h))
    case LengthStored(p, h) =>
      WithSlot(s, h, SlotAt(s, h).(timestamp := p.timestamp)).(producer := TimeStored(p, h))
    case TimeStored(p, h) =>
      s.(head := Inc(h), enqueued := s.enqueued + [p], producer := Idle)
  }

  /** One step of the consumer. */
  ghost function ConsumerStep(s: Shared): (r: Shared)
    requires WellSized(s)
    ensures WellSized(r) && r.k == s.k
  {
    match s.consumer
    case Waiting => s.(consumer := TailLoaded(s.tail))
    case TailLoaded(t) => if s.head == t then s.(consumer := Waiting) else s.(consumer := NotEmpty(t))
    case NotEmpty(t) => s.(consumer := Reading(t, SlotAt(s, t).length, []))
    case Reading(t, n, got) =>
      var b := SlotAt(s, t);
      if |got| >= n then s.(consumer := BytesRead(t, got))
      else if |got| < |b.data| then s.(consumer := Reading(t, n, got + [b.data[|got|]]))
      else s.(consumer := Broken)
    case BytesRead(t, got) =>
      if SlotAt(s, t).length == |got| then s.(consumer := LengthRead(t, got)) else s.(consumer := Broken)
    case LengthRead(t, got) => s.(consumer := PacketRead(t, Packet(got, SlotAt(s, t).timestamp)))
    case PacketRead(t, p) => s.(tail := Inc(t), dequeued := s.dequeued + [p], consumer := Counted)
    case Counted => s.(processed := Inc(s.processed), consumer := Waiting)
    case Broken => s
  }

  ghost function Next(s: Shared, a: Action): (r: Shared)
    requires WellSized(s)
    ensures WellSized(r) && r.k == s.k
  {
    match a
    case Produce(next) => ProducerStep(s, next)
    case Consume => ConsumerStep(s)
  }

  ghost predicate Initial(s: Shared) {
    && WellSized(s)
    && s.head == s.tail == 0
    && s.producer == Idle && s.consumer == Waiting
    && s.enqueued == [] && s.dequeued == []
  }

  ghost function Run(s: Shared, run: seq<Action>): (r: Shared)
    requires WellSized(s)
    ensures WellSized(r) && r.k == s.k
  {
    if run == [] then s else Next(Run(s, run[..|run| - 1]), run[|run| - 1])
  }

  // ---------------------------------------------------------------- the invariant

  ghost predicate Holds(b: PacketBuffer, p: Packet) {
    b.Valid() && b.Payload() == p
  }

  /** The slot of the packet with serial number `n`. */
  ghost function At(s: Shared, n: nat): (b: PacketBuffer)
    requires WellSized(s)
  {
    s.slots[n % |s.slots|]
  }

  ghost predicate Room(s: Shared) {
    |s.enqueued| < |s.dequeued| + |s.slots|
  }

  ghost predicate ProducerFits(s: Shared)
    requires WellSized(s)
  {
    var n := |s.enqueued|;
    match s.producer
    case Idle => true
    case HeadLoaded(p, h) => h == Wrap(n)
    case Refused => true
    case Admitted(p, h) => h == Wrap(n) && Room(s)
    case Copying(p, h, i) =>
      var b := At(s, n);
      h == Wrap(n) && Room(s) && i <= |p.data| <= |b.data| && b.data[..i] == p.data[..i]
    case LengthStored(p, h) =>
      var b := At(s, n);
      h == Wrap(n) && Room(s) && |p.data| <= |b.data| && b.data[..|p.data|] == p.data && b.length == |p.data|
    case TimeStored(p, h) => h == Wrap(n) && Room(s) && Holds(At(s, n), p)
  }

  ghost predicate ConsumerFits(s: Shared)
    requires |s.dequeued| <= |s.enqueued|
  {
    var m := |s.dequeued|;
    match s.consumer
    case Waiting => true
    case TailLoaded(t) => t == Wrap(m)
    case NotEmpty(t) => t == Wrap(m) && m < |s.enqueued|
    case Reading(t, n, got) =>
      t == Wrap(m) && m < |s.enqueued| && n == |s.enqueued[m].data| && got <= s.enqueued[m].data
    case BytesRead(t, got) => t == Wrap(m) && m < |s.enqueued| && got == s.enqueued[m].data
    case LengthRead(t, got) => t == Wrap(m) && m < |s.enqueued| && got == s.enqueued[m].data
    case PacketRead(t, p) => t == Wrap(m) && m < |s.enqueued| && p == s.enqueued[m]
    case Counted => true
    case Broken => false
  }

  ghost predicate Ring(s: Shared) {
    && WellSized(s)
    && s.dequeued <= s.enqueued
    && |s.enqueued| <= |s.dequeued| + |s.slots|
    && s.head == Wrap(|s.enqueued|) && s.tail == Wrap(|s.dequeued|)
    && forall j | |s.dequeued| <= j < |s.enqueued| :: Holds(At(s, j), s.enqueued[j])
  }

  ghost predicate Invariant(s: Shared) {
    Ring(s) && ProducerFits(s) && ConsumerFits(s)
  }

  // ---------------------------------------------------------------- arithmetic of the counters

  lemma SlotOf(s: Shared, n: nat)
    requires WellSized(s)
    ensures SlotAt(s, Wrap(n)) == At(s, n)
    ensures Slot(s, Wrap(n)) == n % |s.slots|
  {
    MaskedCounter(n, s.k);
  }

  lemma Distance(s: Shared)
    requires Ring(s)
    ensures Minus(s.head, s.tail) == |s.enqueued| - |s.dequeued|
    ensures s.head == s.tail <==> |s.enqueued| == |s.dequeued|
  {
    Pow2Values();
    Pow2Mono(s.k, 63);
    WrappedDistance(|s.enqueued|, |s.dequeued|, U64);
  }

  /** Writing the producer's slot touches no packet still in the ring, in particular not the one being read. */
  lemma WriteElsewhere(s: Shared, b: PacketBuffer, j: nat)
    requires Ring(s) && Room(s) && |s.dequeued| <= j < |s.enqueued|
    ensures At(WithSlot(s, Wrap(|s.enqueued|), b), j) == At(s, j)
  {
    SlotOf(s, |s.enqueued|);
    ModDistinct(j, |s.enqueued|, |s.slots|);
  }

  lemma WriteHere(s: Shared, b: PacketBuffer)
    requires WellSized(s)
    ensures At(WithSlot(s, Wrap(|s.enqueued|), b), |s.enqueued|) == b
  {
    SlotOf(s, |s.enqueued|);
  }

  lemma WriteKeepsRing(s: Shared, b: PacketBuffer)
    requires Ring(s) && Room(s)
    ensures Ring(WithSlot(s, Wrap(|s.enqueued|), b))
  {
    var s' := WithSlot(s, Wrap(|s.enqueued|), b);
    forall j | |s.dequeued| <= j < |s.enqueued| ensures Holds(At(s', j), s'.enqueued[j]) {
      WriteElsewhere(s, b, j);
    }
  }

  // ---------------------------------------------------------------- every step keeps it

  /** A write of the producer's slot keeps everything but what it says about that slot. */
  lemma WriteKeeps(s: Shared, b: PacketBuffer, producer: Producer)
    requires Invariant(s) && Room(s)
    ensures var s' := WithSlot(s, Wrap(|s.enqueued|), b).(producer := producer);
            Ring(s') && ConsumerFits(s') && Room(s') && At(s', |s'.enqueued|) == b
  {
    WriteKeepsRing(s, b);
    WriteHere(s, b);
  }

  lemma ProducerWrites(s: Shared, next: Packet)
    requires Invariant(s) && (s.producer.Admitted? || s.producer.Copying? || s.producer.LengthStored?)
    ensures Invariant(ProducerStep(s, next))
  {
    var b := At(s, |s.enqueued|);
    SlotOf(s, |s.enqueued|);
    hide Pow2, Wrap, And, SlotAt, WithSlot, Ring, ConsumerFits, Room, At;
    match s.producer
    case Admitted(p, h) =>
      var room := if |b.data| < |p.data| then Zeros(|p.data| + 512) else b.data;
      WriteKeeps(s, b.(data := room), Copying(p, h, 0));
    case Copying(p, h, i) =>
      if i < |p.data| && i < |b.data| {
        WriteKeeps(s, b.(data := b.data[i := p.data[i]]), Copying(p, h, i + 1));
      } else {
        WriteKeeps(s, b.(length := |p.data|), LengthStored(p, h));
      }
    case LengthStored(p, h) =>
      WriteKeeps(s, b.(timestamp := p.timestamp), TimeStored(p, h));
  }

  lemma ProducerKeeps(s: Shared, next: Packet)
    requires Invariant(s)
    ensures Invariant(ProducerStep(s, next))
  {
    if s.producer.Admitted? || s.producer.Copying? || s.producer.LengthStored? {
      ProducerWrites(s, next);
    } else if s.producer.TimeStored? {
      Published(s, next);
    } else {
      Distance(s);
    }
  }

  lemma Published(s: Shared, next: Packet)
    requires Invariant(s) && s.producer.TimeStored?
    ensures Invariant(ProducerStep(s, next))
  {
    hide Wrap, Inc, Pow2;
    Succeeds(|s.enqueued|);
  }

  lemma ConsumerReads(s: Shared)
    requires Invariant(s) && (s.consumer.NotEmpty? || s.consumer.Reading? || s.consumer.BytesRead? || s.consumer.LengthRead?)
    ensures Invariant(ConsumerStep(s))
  {
    var m := |s.dequeued|;
    SlotOf(s, m);
    var b, p := At(s, m), s.enqueued[m];
    assert Holds(b, p);
    assert b.data[..b.length] == p.data && b.timestamp == p.timestamp;
    if s.consumer.Reading? && |s.consumer.got| < |p.data| {
      assert b.data[|s.consumer.got|] == p.data[|s.consumer.got|];
    }
  }

  lemma ConsumerKeeps(s: Shared)
    requires Invariant(s)
    ensures Invariant(ConsumerStep(s))
  {
    if s.consumer.NotEmpty? || s.consumer.Reading? || s.consumer.BytesRead? || s.consumer.LengthRead? {
      ConsumerReads(s);
    } else if s.consumer.PacketRead? {
      Taken(s);
    } else {
      Distance(s);
    }
  }

  lemma Taken(s: Shared)
    requires Invariant(s) && s.consumer.PacketRead?
    ensures Invariant(ConsumerStep(s))
  {
    hide Wrap, Inc;
    Succeeds(|s.dequeued|);
  }

  lemma {:induction false} RunKeeps(s: Shared, run: seq<Action>)
    requires Initial(s)
    ensures Invariant(Run(s, run))
  {
    if run != [] {
      var before := Run(s, run[..|run| - 1]);
      RunKeeps(s, run[..|run| - 1]);
      match run[|run| - 1]
      case Produce(next) => ProducerKeeps(before, next);
      case Consume => ConsumerKeeps(before);
    } else {
      assert 0 == Wrap(0);
    }
  }

  // ---------------------------------------------------------------- main results

  ghost predicate ProducerWriting(s: Shared) {
    s.producer.Admitted? || s.producer.Copying? || s.producer.LengthStored?
  }

  ghost predicate ConsumerReading(s: Shared) {
    s.consumer.NotEmpty? || s.consumer.Reading? || s.consumer.BytesRead? || s.consumer.LengthRead?
  }

  /** Safety over every interleaving from an empty ring, counters wrapping or not: the ring never holds more than
      its capacity, what was taken is a prefix of what was published, byte for byte, the consumer never meets a slot
      that changed under it, and whenever one side is writing a slot and the other reading one, the slots differ. */
  lemma InterleavingSafe(s: Shared, run: seq<Action>)
    requires Initial(s)
    ensures var r := Run(s, run);
            && |r.dequeued| <= |r.enqueued| <= |r.dequeued| + Pow2(r.k)
            && r.dequeued <= r.enqueued
            && Minus(r.head, r.tail) == |r.enqueued| - |r.dequeued|
            && !r.consumer.Broken?
            && (ProducerWriting(r) && ConsumerReading(r) ==> Slot(r, r.producer.h) != Slot(r, r.consumer.t))
  {
    RunKeeps(s, run);
    var r := Run(s, run);
    Distance(r);
    if ProducerWriting(r) && ConsumerReading(r) {
      SlotOf(r, |r.enqueued|);
      SlotOf(r, |r.dequeued|);
      ModDistinct(|r.dequeued|, |r.enqueued|, |r.slots|);
    }
  }

  /** The packets in the ring, as the atomic queue sees them. */
  ghost function Queue(s: Shared): seq<Packet>
    requires s.dequeued <= s.enqueued
  {
    s.enqueued[|s.dequeued|..]
  }

  /** The steps at which an operation takes effect. */
  ghost function Effect(s: Shared, a: Action): Option<Op> {
    if a.Produce? && s.producer.TimeStored? then Some(Enqueue(s.producer.p))
    else if a.Consume? && s.consumer.PacketRead? then Some(Dequeue)
    else None
  }

  /** Every producer step of a reachable state either leaves the bounded FIFO alone or, storing head, is an accepted
      enqueue; a refusal is decided at a moment when the queue is full. */
  lemma ProducerRefinesFifo(s: Shared, next: Packet)
    requires Invariant(s)
    ensures var s' := ProducerStep(s, next);
            && s'.dequeued <= s'.enqueued
            && Queue(s') == (match Effect(s, Produce(next))
                             case Some(op) => Accept(Pow2(s.k), Queue(s), op)
                             case None => Queue(s))
            && (s.producer.TimeStored? ==> |Queue(s)| < Pow2(s.k))
            && (s'.producer.Refused? <==> s.producer.HeadLoaded? && |Queue(s)| == Pow2(s.k))
  {
    Distance(s);
  }

  lemma ConsumerTakes(s: Shared)
    requires Invariant(s) && s.consumer.PacketRead?
    ensures var s' := ConsumerStep(s);
            && s'.dequeued <= s'.enqueued && Queue(s) != []
            && Queue(s') == Queue(s)[1..] && s.consumer.p == Queue(s)[0]
  {
    Taken(s);
  }

  /** Every consumer step either leaves the FIFO alone or, storing tail, is a dequeue that yields the oldest packet;
      an empty answer is decided at a moment when the queue is empty. */
  lemma ConsumerRefinesFifo(s: Shared)
    requires Invariant(s)
    ensures var s' := ConsumerStep(s);
            && s'.dequeued <= s'.enqueued
            && Queue(s') == (match Effect(s, Consume)
                             case Some(op) => Accept(Pow2(s.k), Queue(s), op)
                             case None => Queue(s))
            && (s.consumer.PacketRead? ==> Queue(s) != [] && s.consumer.p == Queue(s)[0])
            && (s.consumer.TailLoaded? ==> (s'.consumer == Waiting <==> Queue(s) == []))
  {
    if s.consumer.PacketRead? {
      ConsumerTakes(s);
    } else {
      Distance(s);
    }
    hide Slot, SlotAt, Inc, Wrap;
  }

  /** The queue operations of a run, in the order in which they take effect. */
  ghost function Ops(s: Shared, run: seq<Action>): seq<Op>
    requires WellSized(s)
  {
    if run == [] then []
    else
      var n := |run| - 1;
      Ops(s, run[..n]) + match Effect(Run(s, run[..n]), run[n]) case Some(op) => [op] case None => []
  }

  /** Linearizability: after any interleaving the ring holds what the atomic bounded FIFO holds after the same operations. */
  lemma {:induction false} RunRefinesFifo(s: Shared, run: seq<Action>)
    requires Initial(s)
    ensures Invariant(Run(s, run))
    ensures Queue(Run(s, run)) == State(Pow2(s.k), Ops(s, run))
  {
    RunKeeps(s, run);
    if run != [] {
      var n := |run| - 1;
      RunRefinesFifo(s, run[..n]);
      StepRefinesFifo(Run(s, run[..n]), run[n]);
      hide Invariant, Next, Effect, Queue;
      var e := Effect(Run(s, run[..n]), run[n]);
      if e.Some? {
        assert Ops(s, run) == Ops(s, run[..n]) + [e.value];
      } else {
        assert Ops(s, run) == Ops(s, run[..n]);
      }
    }
  }

  lemma StepRefinesFifo(s: Shared, a: Action)
    requires Invariant(s)
    ensures var s' := Next(s, a);
            && s'.dequeued <= s'.enqueued
            && Queue(s') == (match Effect(s, a) case Some(op) => Accept(Pow2(s.k), Queue(s), op) case None => Queue(s))
  {
    match a
    case Produce(next) => ProducerRefinesFifo(s, next);
    case Consume => ConsumerRefinesFifo(s);
  }

  // ---------------------------------------------------------------- what the calls were given

  /** The producer's next step starts a call, which is given `a.next`. */
  ghost predicate Starts(s: Shared, a: Action) {
    a.Produce? && s.producer.Idle?
  }

  /** The producer's next step finds the ring full and refuses the call. */
  ghost predicate Refuses(s: Shared, a: Action) {
    a.Produce? && s.producer.HeadLoaded? && |s.enqueued| == |s.dequeued| + Pow2(s.k)
  }

  /** The arguments of the calls started by the run, in order, without those of the calls refused. */
  ghost function Arguments(s: Shared, run: seq<Action>): seq<Packet>
    requires WellSized(s)
  {
    if run == [] then []
    else
      var n := |run| - 1;
      var before, args := Run(s, run[..n]), Arguments(s, run[..n]);
      if Starts(before, run[n]) then args + [run[n].next]
      else if Refuses(before, run[n]) && args != [] then args[..|args| - 1]
      else args
  }

  ghost function Refusals(s: Shared, run: seq<Action>): nat
    requires WellSized(s)
  {
    if run == [] then 0
    else
      var n := |run| - 1;
      Refusals(s, run[..n]) + if Refuses(Run(s, run[..n]), run[n]) then 1 else 0
  }

  /** The packet of a call that is neither refused nor published yet. */
  ghost function InFlight(p: Producer): seq<Packet> {
    if p.Idle? || p.Refused? then [] else [p.p]
  }

  lemma CallStep(s: Shared, a: Action)
    requires Invariant(s)
    ensures var s' := Next(s, a);
            var held, held' := s.enqueued + InFlight(s.producer), s'.enqueued + InFlight(s'.producer);
            held' == if Starts(s, a) then held + [a.next]
                     else if Refuses(s, a) && held != [] then held[..|held| - 1]
                     else held
  {
    Distance(s);
    hide Slot, SlotAt, WithSlot, Inc, Wrap, Holds;
  }

  /** Over every run: the packets published and then the one in flight are, in order and whole, the arguments of the
      calls that were not refused. */
  lemma {:induction false} PublishedAreArguments(s: Shared, run: seq<Action>)
    requires Initial(s)
    ensures Run(s, run).enqueued + InFlight(Run(s, run).producer) == Arguments(s, run)
  {
    if run != [] {
      var n := |run| - 1;
      PublishedAreArguments(s, run[..n]);
      RunKeeps(s, run[..n]);
      CallStep(Run(s, run[..n]), run[n]);
      hide Invariant, Next, Starts, Refuses, InFlight;
    }
  }

  /** What the consumer has taken is the front of those arguments. */
  lemma TakenAreArguments(s: Shared, run: seq<Action>)
    requires Initial(s)
    ensures Run(s, run).dequeued <= Arguments(s, run)
  {
    PublishedAreArguments(s, run);
    InterleavingSafe(s, run);
    hide Run, Arguments, InFlight;
  }

  ghost function EnqueueArguments(ops: seq<Op>): seq<Packet> {
    if ops == [] then []
    else
      var n := |ops| - 1;
      EnqueueArguments(ops[..n]) + if ops[n].Enqueue? then [ops[n].p] else []
  }

  lemma EffectIsPublished(s: Shared, a: Action)
    requires WellSized(s)
    ensures Next(s, a).enqueued ==
      match Effect(s, a) case Some(op) => s.enqueued + (if op.Enqueue? then [op.p] else []) case None => s.enqueued
  {
    hide Slot, SlotAt, Inc;
  }

  /** The enqueues that take effect over a run carry exactly the arguments of the calls, but for the one in flight. */
  lemma {:induction false} OpsCarryArguments(s: Shared, run: seq<Action>)
    requires Initial(s)
    ensures EnqueueArguments(Ops(s, run)) == Run(s, run).enqueued
    ensures EnqueueArguments(Ops(s, run)) + InFlight(Run(s, run).producer) == Arguments(s, run)
  {
    PublishedAreArguments(s, run);
    hide Arguments, InFlight;
    if run != [] {
      var n := |run| - 1;
      OpsCarryArguments(s, run[..n]);
      var before := Run(s, run[..n]);
      var e := Effect(before, run[n]);
      EffectIsPublished(before, run[n]);
      hide Next, Effect;
      if e.Some? {
        assert Ops(s, run) == Ops(s, run[..n]) + [e.value];
        assert (Ops(s, run[..n]) + [e.value])[..|Ops(s, run[..n])|] == Ops(s, run[..n]);
      } else {
        assert Ops(s, run) == Ops(s, run[..n]);
      }
    }
  }

  lemma RefusalStep(s: Shared, a: Action)
    requires Invariant(s)
    ensures var s' := Next(s, a);
            && s'.dropped == (if a.Produce? && s.producer.Refused? then Inc(s.dropped) else s.dropped)
            && (s'.producer.Refused? <==> Refuses(s, a) || (s.producer.Refused? && !a.Produce?))
            && (Refuses(s, a) ==> !s.producer.Refused?)
  {
    Distance(s);
    hide Slot, SlotAt, WithSlot, Inc, Wrap, Holds;
  }

  ghost predicate Takes(s: Shared, a: Action) {
    a.Consume? && s.consumer.PacketRead?
  }

  lemma TakeStep(s: Shared, a: Action)
    requires WellSized(s)
    ensures var s' := Next(s, a);
            && s'.processed == (if a.Consume? && s.consumer.Counted? then Inc(s.processed) else s.processed)
            && |s'.dequeued| == |s.dequeued| + One(Takes(s, a))
            && (s'.consumer.Counted? <==> Takes(s, a) || (s.consumer.Counted? && !a.Consume?))
            && (Takes(s, a) ==> !s.consumer.Counted?)
  {
    hide Slot, SlotAt, Inc, Wrap;
  }

  lemma LastStep(s: Shared, run: seq<Action>)
    requires WellSized(s) && run != []
    ensures var n := |run| - 1;
            && Run(s, run) == Next(Run(s, run[..n]), run[n])
            && Refusals(s, run) == Refusals(s, run[..n]) + One(Refuses(Run(s, run[..n]), run[n]))
  {
    hide Next, Refuses;
  }

  /** `dropped` counts, modulo 2^64, the refused calls, but for one refused and not counted yet. */
  lemma {:induction false} DroppedAreRefusals(s: Shared, run: seq<Action>)
    requires Initial(s)
    ensures Tally(s.dropped, Run(s, run).dropped, Refusals(s, run), Run(s, run).producer.Refused?)
  {
    if run == [] {
      WrapSmall(s.dropped);
    } else {
      var n := |run| - 1;
      var before, a := Run(s, run[..n]), run[n];
      LastStep(s, run);
      hide Run, Refusals, Refuses, Invariant, Next, Tally, Inc, Wrap, Initial;
      DroppedAreRefusals(s, run[..n]);
      RunKeeps(s, run[..n]);
      RefusalStep(before, a);
      TallyStep(s.dropped, before.dropped, Refusals(s, run[..n]), before.producer.Refused?,
                Refuses(before, a), a.Produce? && before.producer.Refused?);
    }
  }

  /** `processed` counts, modulo 2^64, the packets taken, but for one taken and not counted yet. */
  lemma {:induction false} ProcessedAreTaken(s: Shared, run: seq<Action>)
    requires Initial(s)
    ensures Tally(s.processed, Run(s, run).processed, |Run(s, run).dequeued|, Run(s, run).consumer.Counted?)
  {
    if run == [] {
      WrapSmall(s.processed);
    } else {
      var n := |run| - 1;
      var before, a := Run(s, run[..n]), run[n];
      LastStep(s, run);
      hide Run, Takes, Invariant, Next, Tally, Inc, Wrap, Initial;
      ProcessedAreTaken(s, run[..n]);
      TakeStep(before, a);
      TallyStep(s.processed, before.processed, |before.dequeued|, before.consumer.Counted?,
                Takes(before, a), a.Consume? && before.consumer.Counted?);
    }
  }
}
