/** The capture object: target MACs with their Bloom snapshot, the pre-filter, the body of the capture loop and the
    dispatch of a batch. */
module Capture {
  import opened Bits
  import opened Fifo
  import opened MacFilter
  import opened Rings

  /** EtherType 0x88B8 and the GOOSE multicast prefix 01-0C-CD. */
  predicate GooseHeader(data: seq<byte>) {
    && |data| >= 14
    && data[12] == 0x88 && data[13] == 0xB8
    && data[0] == 0x01 && data[1] == 0x0C && data[2] == 0xCD
  }

  /** The header as Ethernet writes it: destination, source, and the type field in network order. */
  lemma GooseHeaderIs(data: seq<byte>)
    ensures GooseHeader(data) <==>
      |data| >= 14 && data[..3] == [0x01, 0x0C, 0xCD] && BigEndian(data[12..14]) == 0x88B8
  {
    if |data| >= 14 {
      var t := data[12..14];
      var high: int, low: int := t[0], t[1];
      assert t[..1] == [t[0]] && t[..1][..0] == [];
      assert BigEndian(t[..1]) == high;
      assert BigEndian(t) == 256 * high + low;
    }
  }

  class HighPerfGOOSECapture {
    const macFilter: MACExactFilter
    const ringBuffer: LockFreeRingBuffer
    const useBloom: bool
    var bloomSnapshot: seq<nat>    // empty until the first refresh
    var bloomRejects: u64
    var packetsReceived: u64
    var packetsFiltered: u64
    var packetsDropped: u64
    var packetsQueued: u64
    var packetsSent: u64

    constructor (macFilter: MACExactFilter, ringBuffer: LockFreeRingBuffer, useBloom: bool)
      requires macFilter.Valid() && macFilter.added == {}
      ensures this.macFilter == macFilter && this.ringBuffer == ringBuffer && this.useBloom == useBloom
      ensures ValidFilter() && bloomSnapshot == []
    {
      this.macFilter, this.ringBuffer, this.useBloom := macFilter, ringBuffer, useBloom;
      bloomSnapshot := [];
      bloomRejects, packetsReceived, packetsFiltered := 0, 0, 0;
      packetsDropped, packetsQueued, packetsSent := 0, 0, 0;
    }

    /** The snapshot, once taken, covers every bit of every added MAC. */
    ghost predicate ValidFilter()
      reads this`bloomSnapshot, macFilter, macFilter.bloom, macFilter.bloom.bits
    {
      && macFilter.Valid()
      && (bloomSnapshot == [] ==> macFilter.added == {})
      && (bloomSnapshot != [] ==> bloomSnapshot == macFilter.bloom.bits[..])
    }

    method RefreshBloomSnapshot()
      requires macFilter.Valid()
      modifies this`bloomSnapshot
      ensures ValidFilter() && bloomSnapshot != []
    {
      bloomSnapshot := macFilter.bloom.BitsSnapshot();
    }

    method AddTargetMAC(mac: Mac)
      requires ValidFilter()
      modifies this`bloomSnapshot, macFilter, macFilter.bloom`size, macFilter.bloom.bits
      ensures ValidFilter()
      ensures macFilter.added == if |mac| == 6 then old(macFilter.added) + {mac} else old(macFilter.added)
      ensures |mac| == 6 ==> bloomSnapshot != []
    {
      if |mac| != 6 {
        return;
      }
      macFilter.Add(mac);
      RefreshBloomSnapshot();
    }

    /** What the pre-filter lets through: a GOOSE header and, when the Bloom filter is in use and a snapshot was taken,
        a destination whose every probe is a probe of some target. */
    ghost predicate Admits(data: seq<byte>)
      requires macFilter.Valid()
      reads this`bloomSnapshot, macFilter, macFilter.bloom, macFilter.bloom.bits
    {
      var b := macFilter.bloom;
      && GooseHeader(data)
      && (useBloom && bloomSnapshot != [] ==>
            forall i: nat | i < b.k ::
              ProbeOfSome(b.hash, b.m, b.k, macFilter.added, Probe(b.hash, b.m, data[..6], i)))
    }

    /** Every GOOSE frame addressed to a target passes; with the Bloom filter in use, a snapshot taken and no targets,
        nothing does. */
    lemma TargetsPass(data: seq<byte>)
      requires ValidFilter()
      ensures GooseHeader(data) && data[..6] in macFilter.added ==> Admits(data)
      ensures useBloom && bloomSnapshot != [] && macFilter.added == {} && macFilter.bloom.k > 0 ==> !Admits(data)
    {
      var b := macFilter.bloom;
      if GooseHeader(data) && data[..6] in macFilter.added {
        forall i: nat | i < b.k
          ensures ProbeOfSome(b.hash, b.m, b.k, macFilter.added, Probe(b.hash, b.m, data[..6], i))
        {
          assert Probes(b.hash, b.m, b.k, data[..6], Probe(b.hash, b.m, data[..6], i));
        }
      }
      if Admits(data) && useBloom && bloomSnapshot != [] && b.k > 0 {
        assert ProbeOfSome(b.hash, b.m, b.k, macFilter.added, Probe(b.hash, b.m, data[..6], 0));
      }
    }

    method FastPreFilter(data: seq<byte>) returns (pass: bool)
      requires ValidFilter()
      modifies this`bloomRejects
      ensures ValidFilter()
      ensures pass == Admits(data)
      ensures bloomRejects == if GooseHeader(data) && !pass then Inc(old(bloomRejects)) else old(bloomRejects)
    {
      if |data| < 14 {
        return false;
      }
      if data[12] != 0x88 || data[13] != 0xB8 {
        return false;
      }
      if data[0] != 0x01 || data[1] != 0x0C || data[2] != 0xCD {
        return false;
      }
      if useBloom && |bloomSnapshot| > 0 {
        var dstMAC := data[0..6];
        assert dstMAC == data[..6];
        var hit := macFilter.bloom.TestFast(dstMAC, bloomSnapshot);
        if !hit {
          bloomRejects := Inc(bloomRejects);
          return false;
        }
      }
      return true;
    }

    /** The body of the capture loop for one frame; `refreshDue` is the comparison with the refresh interval. */
    method CaptureFrame(rawData: seq<byte>, refreshDue: bool)
      requires ValidFilter() && ringBuffer.Valid()
      requires ringBuffer.buffer as object != macFilter.bloom.bits
      modifies this, ringBuffer, ringBuffer.buffer
      ensures ValidFilter() && ringBuffer.Valid()
      ensures packetsReceived == Inc(old(packetsReceived)) && packetsSent == old(packetsSent)
      ensures var pass, q := old(Admits(rawData)), old(ringBuffer.Contents());
        && ringBuffer.Contents() == (if pass then Accept(ringBuffer.capacity, q, Enqueue(Packet(rawData, 0))) else q)
        && packetsFiltered == (if pass then old(packetsFiltered) else Inc(old(packetsFiltered)))
        && packetsQueued == (if pass && |q| < ringBuffer.capacity then Inc(old(packetsQueued)) else old(packetsQueued))
        && packetsDropped == (if pass && |q| >= ringBuffer.capacity then Inc(old(packetsDropped)) else old(packetsDropped))
    {
      hide LockFreeRingBuffer.Valid, LockFreeRingBuffer.Contents, MACExactFilter.Valid, Inc;
      packetsReceived := Inc(packetsReceived);
      var pass := FastPreFilter(rawData);
      if !pass {
        packetsFiltered := Inc(packetsFiltered);
        return;
      }
      var stored := ringBuffer.Enqueue(rawData, 0);
      if !stored {
        packetsDropped := Inc(packetsDropped);
        return;
      }
      packetsQueued := Inc(packetsQueued);
      if refreshDue {
        RefreshBloomSnapshot();
      }
    }

    /** Empties up to one batch of the ring into the channel; `room(i)` says whether the channel takes frame `i`. */
    method DispatchBatch(bufs: array<PacketBuffer>, room: nat -> bool) returns (sent: seq<seq<byte>>)
      requires ringBuffer.Valid() && bufs != ringBuffer.buffer
      modifies this`packetsSent, this`packetsDropped, ringBuffer, bufs
      ensures ringBuffer.Valid()
      ensures var q := old(ringBuffer.Contents());
        var count := if |q| < bufs.Length then |q| else bufs.Length;
        && ringBuffer.Contents() == q[count..]
        && sent == Offered(q[..count], room)
        && packetsSent == Wrap(old(packetsSent) + |sent|)
        && packetsDropped == Wrap(old(packetsDropped) + count - |sent|)
    {
      hide LockFreeRingBuffer.Valid, LockFreeRingBuffer.Contents, Offered;
      ghost var q := ringBuffer.Contents();
      var count := ringBuffer.DequeueBatch(bufs);
      sent := OfferFrames(bufs, count, q[..count], room);
    }

    /** The second loop of the dispatch: each frame of the batch is copied and offered to the channel. */
    method OfferFrames(bufs: array<PacketBuffer>, count: nat, ghost ps: seq<Packet>, room: nat -> bool)
      returns (sent: seq<seq<byte>>)
      requires count == |ps| <= bufs.Length
      requires forall i | 0 <= i < |ps| :: bufs[i].Valid() && bufs[i].Payload() == ps[i]
      modifies this`packetsSent, this`packetsDropped
      ensures sent == Offered(ps, room)
      ensures packetsSent == Wrap(old(packetsSent) + |sent|)
      ensures packetsDropped == Wrap(old(packetsDropped) + |ps| - |sent|)
    {
      WrapSmall(packetsSent);
      WrapSmall(packetsDropped);
      hide Inc, Wrap;
      sent := [];
      for i := 0 to count
        invariant sent == Offered(ps[..i], room) && |sent| <= i
        invariant packetsSent == Wrap(old(packetsSent) + |sent|)
        invariant packetsDropped == Wrap(old(packetsDropped) + i - |sent|)
      {
        var pkt := bufs[i];
        assert ps[..i + 1][..i] == ps[..i];
        var dataCopy := pkt.data[..pkt.length];
        Succeeds(old(packetsSent) + |sent|);
        Succeeds(old(packetsDropped) + i - |sent|);
        if room(i) {
          sent := sent + [dataCopy];
          packetsSent := Inc(packetsSent);
        } else {
          packetsDropped := Inc(packetsDropped);
        }
      }
      assert ps[..count] == ps;
    }
  }

  /** The payloads of the packets that found room, in order. */
  ghost function Offered(ps: seq<Packet>, room: nat -> bool): (r: seq<seq<byte>>)
    ensures |r| <= |ps|
  {
    if ps == [] then []
    else
      var n := |ps| - 1;
      Offered(ps[..n], room) + if room(n) then [ps[n].data] else []
  }

  /** The frames before position `n` that find room. */
  ghost function Before(room: nat -> bool, n: nat): set<nat> {
    set j: nat | j < n && room(j)
  }

  lemma BeforeStep(room: nat -> bool, n: nat)
    ensures |Before(room, 0)| == 0
    ensures |Before(room, n + 1)| == |Before(room, n)| + if room(n) then 1 else 0
  {
    assert Before(room, 0) == {};
    assert Before(room, n + 1) == Before(room, n) + if room(n) then {n} else {};
  }

  /** Exactly the frames that find room are sent, each at its place among them. */
  lemma {:induction false} OfferedAt(ps: seq<Packet>, room: nat -> bool, i: nat)
    requires i < |ps|
    ensures |Offered(ps, room)| == |Before(room, |ps|)|
    ensures room(i) ==> |Before(room, i)| < |Offered(ps, room)| && Offered(ps, room)[|Before(room, i)|] == ps[i].data
  {
    var n := |ps| - 1;
    BeforeStep(room, n);
    hide Before;
    if n > 0 { OfferedAt(ps[..n], room, if i < n then i else 0); }
  }
}
