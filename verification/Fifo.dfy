/** A bounded first-in first-out queue of packets: the specification both rings refine. */
module Fifo {
  import opened Bits

  datatype Packet = Packet(data: seq<byte>, timestamp: int)

  /** A packet slot: `data` is the backing slice, of which `length` bytes are the packet. */
  datatype PacketBuffer = PacketBuffer(data: seq<byte>, timestamp: int, length: nat) {
    predicate Valid() {
      length <= |data|
    }

    function Payload(): Packet
      requires Valid()
    {
      Packet(data[..length], timestamp)
    }
  }

  function Zeros(n: nat): (s: seq<byte>)
    ensures |s| == n
  {
    seq(n, _ => 0)
  }

  /** `copy(buf.Data, data)` after growing the slice when it is too short; bytes beyond the packet stay. */
  function Store(buf: PacketBuffer, data: seq<byte>, timestamp: int): (r: PacketBuffer)
    ensures r.Valid() && r.Payload() == Packet(data, timestamp)
  {
    var room := if |buf.data| < |data| then Zeros(|data| + 512) else buf.data;
    var d := data + room[|data|..];
    assert d[..|data|] == data;
    PacketBuffer(d, timestamp, |data|)
  }

  datatype Option<T> = None | Some(value: T)

  datatype Op = Enqueue(p: Packet) | Dequeue

  datatype Result = Stored(ok: bool) | Taken(p: Option<Packet>)

  function Accept(capacity: nat, q: seq<Packet>, op: Op): seq<Packet> {
    match op
    case Enqueue(p) => if |q| < capacity then q + [p] else q
    case Dequeue => if q == [] then q else q[1..]
  }

  function Answer(capacity: nat, q: seq<Packet>, op: Op): Result {
    match op
    case Enqueue(p) => Stored(|q| < capacity)
    case Dequeue => Taken(if q == [] then None else Some(q[0]))
  }

  function State(capacity: nat, ops: seq<Op>): seq<Packet> {
    if ops == [] then []
    else Accept(capacity, State(capacity, ops[..|ops| - 1]), ops[|ops| - 1])
  }

  function Answers(capacity: nat, ops: seq<Op>): (r: seq<Result>)
    ensures |r| == |ops|
  {
    if ops == [] then []
    else
      var n := |ops| - 1;
      Answers(capacity, ops[..n]) + [Answer(capacity, State(capacity, ops[..n]), ops[n])]
  }

  /** Some operation of the run tries to store into a queue that already holds `small` packets. */
  ghost predicate Overfills(small: nat, ops: seq<Op>) {
    exists k :: 0 <= k < |ops| && ops[k].Enqueue? && |State(small, ops[..k])| >= small
  }

  lemma OverfillsStep(small: nat, ops: seq<Op>)
    requires ops != []
    ensures var n := |ops| - 1;
            Overfills(small, ops) <==>
              Overfills(small, ops[..n]) || (ops[n].Enqueue? && |State(small, ops[..n])| >= small)
  {
    var n := |ops| - 1;
    if Overfills(small, ops) {
      var k :| 0 <= k < |ops| && ops[k].Enqueue? && |State(small, ops[..k])| >= small;
      if k < n { assert ops[..n][..k] == ops[..k] && ops[..n][k].Enqueue?; }
    }
    if Overfills(small, ops[..n]) {
      var k :| 0 <= k < n && ops[..n][k].Enqueue? && |State(small, ops[..n][..k])| >= small;
      assert ops[..n][..k] == ops[..k] && ops[k].Enqueue?;
    }
  }

  /** Two capacities give the same answers on a run exactly when the smaller queue is never asked to overfill;
      until then the contents agree too. */
  lemma {:induction false} CapacitiesAgreeIff(small: nat, large: nat, ops: seq<Op>)
    requires small < large
    ensures Answers(small, ops) == Answers(large, ops) <==> !Overfills(small, ops)
    ensures !Overfills(small, ops) ==> State(small, ops) == State(large, ops) && |State(small, ops)| <= small
  {
    if ops != [] {
      var n := |ops| - 1;
      CapacitiesAgreeIff(small, large, ops[..n]);
      OverfillsStep(small, ops);
      var a, b := Answers(small, ops), Answers(large, ops);
      assert a[..n] == Answers(small, ops[..n]) && b[..n] == Answers(large, ops[..n]);
      assert a[n] == Answer(small, State(small, ops[..n]), ops[n]);
      assert b[n] == Answer(large, State(large, ops[..n]), ops[n]);
    }
  }
}
