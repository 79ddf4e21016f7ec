/** The delivery pipeline: the capture loop fills the ring, the dispatch loop empties it in batches into the packet
    channel. The two loops interleave; ring operations are atomic here, which Spsc.dfy justifies. */
module Pipeline {
  import opened Bits
  import opened Fifo

  type Frame = seq<byte>

  const BATCH: nat := 256

  datatype Capture =
    | Top
    | Received(f: Frame)      // PacketsReceived counted, not yet judged
    | Rejected                // PacketsFiltered about to be counted
    | Admitted(f: Frame)      // passed the pre-filter, about to enqueue
    | Overflowed              // enqueue failed, PacketsDropped about to be counted
    | Enqueued                // enqueued, PacketsQueued about to be counted

  datatype Dispatch =
    | Idle
    | Collecting(batch: seq<Frame>)
    | Sending(batch: seq<Frame>)      // frames of the batch not yet offered to the channel
    | Delivered(batch: seq<Frame>)    // one frame sent, PacketsSent about to be counted
    | Lost(batch: seq<Frame>)         // one frame refused by the full channel, PacketsDropped about to be counted

  datatype Pipe = Pipe(
    capacity: nat, ring: seq<Frame>, channel: seq<Frame>,   // channel: every frame ever sent on it
    capture: Capture, dispatch: Dispatch,
    received: u64, filtered: u64, dropped: u64, queued: u64, sent: u64,
    passed: seq<Frame>)                                     // every frame the pre-filter let through

  /** `Take` runs the capture loop one step, with the next frame and the pre-filter's verdict on it;
      `Give` runs the dispatch loop one step, with the channel having room or not. */
  datatype Action = Take(f: Frame, pass: bool) | Give(room: bool)

  ghost function CaptureStep(s: Pipe, f: Frame, pass: bool): Pipe {
    match s.capture
    case Top => s.(received := Inc(s.received), capture := Received(f))
    case Received(g) =>
      if pass then s.(capture := Admitted(g), passed := s.passed + [g]) else s.(capture := Rejected)
    case Rejected => s.(filtered := Inc(s.filtered), capture := Top)
    case Admitted(g) =>
      if |s.ring| < s.capacity then s.(ring := s.ring + [g], capture := Enqueued) else s.(capture := Overflowed)
    case Overflowed => s.(dropped := Inc(s.dropped), capture := Top)
    case Enqueued => s.(queued := Inc(s.queued), capture := Top)
  }

  ghost function DispatchStep(s: Pipe, room: bool): Pipe {
    match s.dispatch
    case Idle => s.(dispatch := Collecting([]))
    case Collecting(b) =>
      if |b| < BATCH && s.ring != [] then s.(ring := s.ring[1..], dispatch := Collecting(b + [s.ring[0]]))
      else s.(dispatch := Sending(b))
    case Sending(b) =>
      if b == [] then s.(dispatch := Idle)
      else if room then s.(channel := s.channel + [b[0]], dispatch := Delivered(b[1..]))
      else s.(dispatch := Lost(b[1..]))
    case Delivered(b) => s.(sent := Inc(s.sent), dispatch := Sending(b))
    case Lost(b) => s.(dropped := Inc(s.dropped), dispatch := Sending(b))
  }

  ghost function Step(s: Pipe, a: Action): Pipe {
    match a
    case Take(f, pass) => CaptureStep(s, f, pass)
    case Give(room) => DispatchStep(s, room)
  }

  ghost function Run(s: Pipe, run: seq<Action>): Pipe {
    if run == [] then s else Step(Run(s, run[..|run| - 1]), run[|run| - 1])
  }

  ghost predicate Initial(s: Pipe) {
    && s.ring == [] && s.channel == [] && s.passed == []
    && s.capture == Top && s.dispatch == Idle
    && s.received == s.filtered == s.dropped == s.queued == s.sent == 0
  }

  // ---------------------------------------------------------------- where a frame can be

  /** A frame taken from the wire that no counter and no queue accounts for yet. */
  ghost function CaptureInFlight(s: Pipe): nat {
    if s.capture == Top || s.capture == Enqueued then 0 else 1
  }

  ghost function DispatchInFlight(s: Pipe): nat {
    match s.dispatch
    case Idle => 0
    case Collecting(b) => |b|
    case Sending(b) => |b|
    case Delivered(b) => |b| + 1
    case Lost(b) => |b| + 1
  }

  ghost function Accounted(s: Pipe): nat {
    s.filtered + s.dropped + s.sent + |s.ring| + CaptureInFlight(s) + DispatchInFlight(s)
  }

  /** Counting one more in a 64-bit counter adds one to any sum it is part of, modulo 2^64. */
  lemma IncInSum(x: u64, rest: nat)
    ensures (Inc(x) + rest) % U64 == (x + 1 + rest) % U64
  {
  }

  lemma CaptureConserves(s: Pipe, f: Frame, pass: bool)
    requires s.received == Accounted(s) % U64
    ensures CaptureStep(s, f, pass).received == Accounted(CaptureStep(s, f, pass)) % U64
  {
    var s' := CaptureStep(s, f, pass);
    match s.capture
    case Top => Succeeds(Accounted(s));
    case Rejected => IncInSum(s.filtered, Accounted(s) - 1 - s.filtered);
    case Overflowed => IncInSum(s.dropped, Accounted(s) - 1 - s.dropped);
    case _ => assert Accounted(s') == Accounted(s);
  }

  lemma DispatchConserves(s: Pipe, room: bool)
    requires s.received == Accounted(s) % U64
    ensures DispatchStep(s, room).received == Accounted(DispatchStep(s, room)) % U64
  {
    var s' := DispatchStep(s, room);
    match s.dispatch
    case Delivered(b) => IncInSum(s.sent, Accounted(s) - 1 - s.sent);
    case Lost(b) => IncInSum(s.dropped, Accounted(s) - 1 - s.dropped);
    case _ => assert Accounted(s') == Accounted(s);
  }

  /** Conservation over every interleaving: modulo 2^64, frames received are frames filtered, dropped, sent,
      in the ring, or in the hands of one of the two loops. */
  lemma {:induction false} FramesConserved(s: Pipe, run: seq<Action>)
    requires Initial(s)
    ensures Run(s, run).received == Accounted(Run(s, run)) % U64
  {
    if run != [] {
      FramesConserved(s, run[..|run| - 1]);
      match run[|run| - 1]
      case Take(f, pass) => CaptureConserves(Run(s, run[..|run| - 1]), f, pass);
      case Give(room) => DispatchConserves(Run(s, run[..|run| - 1]), room);
    }
  }

  // ---------------------------------------------------------------- order

  ghost predicate Subsequence(a: seq<Frame>, b: seq<Frame>) {
    if a == [] then true
    else if b == [] then false
    else (a[|a| - 1] == b[|b| - 1] && Subsequence(a[..|a| - 1], b[..|b| - 1])) || Subsequence(a, b[..|b| - 1])
  }

  lemma {:induction false} SubsequenceSnoc(a: seq<Frame>, b: seq<Frame>, f: Frame)
    requires Subsequence(a, b)
    ensures Subsequence(a + [f], b + [f])
    ensures Subsequence(a, b + [f])
  {
    assert (a + [f])[..|a|] == a && (b + [f])[..|b|] == b;
  }

  /** Dropping one element of a subsequence leaves a subsequence. */
  lemma {:induction false} SubsequenceDrop(a: seq<Frame>, b: seq<Frame>, i: nat)
    requires Subsequence(a, b) && i < |a|
    ensures Subsequence(a[..i] + a[i + 1..], b)
    decreases |b|
  {
    var c := a[..i] + a[i + 1..];
    var m, n := |a| - 1, |b| - 1;
    if a[m] == b[n] && Subsequence(a[..m], b[..n]) {
      if i == m {
        assert c == a[..m];
        assert b == b[..n] + [b[n]];
        SubsequenceSnoc(a[..m], b[..n], b[n]);
      } else {
        SubsequenceDrop(a[..m], b[..n], i);
        assert c == (a[..m][..i] + a[..m][i + 1..]) + [a[m]];
        assert b == b[..n] + [b[n]];
        SubsequenceSnoc(a[..m][..i] + a[..m][i + 1..], b[..n], b[n]);
      }
    } else {
      SubsequenceDrop(a, b[..n], i);
      assert b == b[..n] + [b[n]];
      SubsequenceSnoc(c, b[..n], b[n]);
    }
  }

  ghost function Batch(s: Pipe): seq<Frame> {
    if s.dispatch == Idle then [] else s.dispatch.batch
  }

  ghost function Pending(s: Pipe): seq<Frame> {
    if s.capture.Admitted? then [s.capture.f] else []
  }

  /** Every admitted frame that was not lost, in order: sent, in the batch, in the ring, about to be stored. */
  ghost function Alive(s: Pipe): seq<Frame> {
    s.channel + Batch(s) + s.ring + Pending(s)
  }

  lemma CaptureKeepsOrder(s: Pipe, f: Frame, pass: bool)
    requires Subsequence(Alive(s), s.passed)
    ensures var s' := CaptureStep(s, f, pass); Subsequence(Alive(s'), s'.passed)
  {
    var s' := CaptureStep(s, f, pass);
    if s.capture.Received? && pass {
      assert Alive(s') == Alive(s) + [s.capture.f];
      SubsequenceSnoc(Alive(s), s.passed, s.capture.f);
    } else if s.capture.Admitted? && |s.ring| >= s.capacity {
      var i := |Alive(s)| - 1;
      assert Alive(s') == Alive(s)[..i] + Alive(s)[i + 1..];
      SubsequenceDrop(Alive(s), s.passed, i);
    } else {
      assert Alive(s') == Alive(s);
    }
  }

  lemma LostKeepsOrder(sent: seq<Frame>, batch: seq<Frame>, rest: seq<Frame>, passed: seq<Frame>)
    requires batch != [] && Subsequence(sent + batch + rest, passed)
    ensures Subsequence(sent + batch[1..] + rest, passed)
  {
    hide Subsequence;
    var all, i := sent + batch + rest, |sent|;
    assert sent + batch[1..] + rest == all[..i] + all[i + 1..];
    SubsequenceDrop(all, passed, i);
  }

  /** Handing a frame on leaves the list as it is. */
  lemma MovesKeepAlive(s: Pipe, room: bool)
    requires s.dispatch.Sending? && s.dispatch.batch != [] ==> room
    ensures Alive(DispatchStep(s, room)) == Alive(s)
  {
    var rest := s.ring + Pending(s);
    if s.dispatch.Sending? && s.dispatch.batch != [] {
      var b := s.dispatch.batch;
      assert s.channel + b == s.channel + [b[0]] + b[1..];
    } else if s.dispatch.Collecting? && s.ring != [] {
      var b := s.dispatch.batch;
      assert s.channel + b + s.ring == s.channel + (b + [s.ring[0]]) + s.ring[1..];
    }
  }

  lemma DispatchKeepsOrder(s: Pipe, room: bool)
    requires Subsequence(Alive(s), s.passed)
    ensures var s' := DispatchStep(s, room); Subsequence(Alive(s'), s'.passed)
  {
    hide Subsequence;
    if s.dispatch.Sending? && s.dispatch.batch != [] && !room {
      var rest := s.ring + Pending(s);
      assert Alive(s) == s.channel + s.dispatch.batch + rest;
      LostKeepsOrder(s.channel, s.dispatch.batch, rest, s.passed);
      assert Alive(DispatchStep(s, room)) == s.channel + s.dispatch.batch[1..] + rest;
    } else {
      MovesKeepAlive(s, room);
      hide Alive;
    }
  }

  lemma {:induction false} SubsequencePrefix(a: seq<Frame>, c: seq<Frame>, b: seq<Frame>)
    requires Subsequence(a + c, b)
    ensures Subsequence(a, b)
  {
    if c == [] {
      assert a + c == a;
    } else {
      var m := |a + c| - 1;
      SubsequenceDrop(a + c, b, m);
      assert (a + c)[..m] + (a + c)[m + 1..] == a + c[..|c| - 1];
      SubsequencePrefix(a, c[..|c| - 1], b);
    }
  }

  lemma {:induction false} AliveInOrder(s: Pipe, run: seq<Action>)
    requires Initial(s)
    ensures Subsequence(Alive(Run(s, run)), Run(s, run).passed)
  {
    if run != [] {
      AliveInOrder(s, run[..|run| - 1]);
      match run[|run| - 1]
      case Take(f, pass) => CaptureKeepsOrder(Run(s, run[..|run| - 1]), f, pass);
      case Give(room) => DispatchKeepsOrder(Run(s, run[..|run| - 1]), room);
    }
  }

  /** Over every interleaving the frames sent on the channel are a subsequence, in order and byte for byte,
      of the frames that passed the pre-filter. */
  lemma SentInOrder(s: Pipe, run: seq<Action>)
    requires Initial(s)
    ensures Subsequence(Run(s, run).channel, Run(s, run).passed)
  {
    AliveInOrder(s, run);
    var r := Run(s, run);
    assert Alive(r) == r.channel + (Batch(r) + r.ring + Pending(r));
    SubsequencePrefix(r.channel, Batch(r) + r.ring + Pending(r), r.passed);
  }

  // ---------------------------------------------------------------- the run read off its actions

  /** What the actions of a run say: the frames taken from the wire, those whose next step passed the pre-filter, the
      number of those it rejected, the frames that then found room in the ring, the number that did not, and the
      channel's answer to each frame offered to it. */
  datatype History = History(
    heard: seq<Frame>, passes: seq<Frame>, rejections: nat, stored: seq<Frame>, overflows: nat, offers: seq<bool>)

  function LastOf(frames: seq<Frame>): seq<Frame> {
    if frames == [] then [] else [frames[|frames| - 1]]
  }

  ghost function Record(h: History, s: Pipe, a: Action): History {
    match a
    case Take(f, pass) =>
      if s.capture.Top? then h.(heard := h.heard + [f])
      else if s.capture.Received? && pass then h.(passes := h.passes + LastOf(h.heard))
      else if s.capture.Received? then h.(rejections := h.rejections + 1)
      else if s.capture.Admitted? && |s.ring| < s.capacity then h.(stored := h.stored + LastOf(h.passes))
      else if s.capture.Admitted? then h.(overflows := h.overflows + 1)
      else h
    case Give(room) =>
      if s.dispatch.Sending? && s.dispatch.batch != [] then h.(offers := h.offers + [room]) else h
  }

  ghost function HistoryOf(s: Pipe, run: seq<Action>): History {
    if run == [] then History([], [], 0, [], 0, [])
    else
      var n := |run| - 1;
      Record(HistoryOf(s, run[..n]), Run(s, run[..n]), run[n])
  }

  /** The frames at which the answer is yes. */
  function Select(frames: seq<Frame>, answers: seq<bool>): (r: seq<Frame>)
    requires |answers| <= |frames|
    ensures |r| <= |answers|
  {
    if answers == [] then []
    else
      var n := |answers| - 1;
      Select(frames, answers[..n]) + if answers[n] then [frames[n]] else []
  }

  lemma {:induction false} SelectAppend(frames: seq<Frame>, f: seq<Frame>, answers: seq<bool>)
    requires |answers| <= |frames|
    ensures Select(frames + f, answers) == Select(frames, answers)
  {
    if answers != [] { SelectAppend(frames, f, answers[..|answers| - 1]); }
  }

  /** Where the frames are: what passed is what the pre-filter answered, what was stored leaves in order, and the channel
      holds exactly the offered frames it had room for. */
  ghost predicate Flows(s: Pipe, h: History) {
    && s.passed == h.passes
    && (s.capture.Received? ==> [s.capture.f] == LastOf(h.heard))
    && (s.capture.Admitted? ==> [s.capture.f] == LastOf(h.passes))
    && |h.offers| <= |h.stored|
    && h.stored[|h.offers|..] == Batch(s) + s.ring
    && s.channel == Select(h.stored, h.offers)
    && |s.ring| <= s.capacity && |Batch(s)| <= BATCH
  }

  /** The counters, modulo 2^64. */
  ghost predicate Counts(s: Pipe, h: History) {
    && Tally(0, s.received, |h.heard|, false)
    && Tally(0, s.filtered, h.rejections, s.capture.Rejected?)
    && Tally(0, s.queued, |h.stored|, s.capture.Enqueued?)
    && Tally(0, s.sent, |s.channel|, s.dispatch.Delivered?)
  }

  lemma CaptureFlows(s: Pipe, h: History, f: Frame, pass: bool)
    requires Flows(s, h)
    ensures Flows(CaptureStep(s, f, pass), Record(h, s, Take(f, pass)))
  {
    if s.capture.Admitted? && |s.ring| < s.capacity {
      var h' := Record(h, s, Take(f, pass));
      SelectAppend(h.stored, LastOf(h.passes), h.offers);
      assert h'.stored[|h.offers|..] == h.stored[|h.offers|..] + LastOf(h.passes);
      assert Batch(s) + (s.ring + [s.capture.f]) == Batch(s) + s.ring + [s.capture.f];
    }
    hide Select;
  }

  lemma DispatchFlows(s: Pipe, h: History, room: bool)
    requires Flows(s, h)
    ensures Flows(DispatchStep(s, room), Record(h, s, Give(room)))
  {
    var k := |h.offers|;
    var rest := h.stored[k..];
    if s.dispatch.Sending? && s.dispatch.batch != [] {
      Offered(s, h, room);
    } else {
      if s.dispatch.Collecting? && s.ring != [] {
        assert s.dispatch.batch + s.ring == s.dispatch.batch + [s.ring[0]] + s.ring[1..];
      }
      hide Select;
    }
  }

  lemma Offered(s: Pipe, h: History, room: bool)
    requires Flows(s, h) && s.dispatch.Sending? && s.dispatch.batch != []
    ensures Flows(DispatchStep(s, room), Record(h, s, Give(room)))
  {
    var k, b := |h.offers|, s.dispatch.batch;
    var offers := h.offers + [room];
    assert h.stored[k..] == b + s.ring;
    assert h.stored[k] == h.stored[k..][0] == b[0];
    assert h.stored[k + 1..] == h.stored[k..][1..] == b[1..] + s.ring;
    assert offers[..k] == h.offers;
    assert Select(h.stored, offers) == Select(h.stored, h.offers) + if room then [b[0]] else [];
    hide Select;
  }

  lemma CaptureCounts(s: Pipe, h: History, f: Frame, pass: bool)
    requires Flows(s, h) && Counts(s, h)
    ensures Counts(CaptureStep(s, f, pass), Record(h, s, Take(f, pass)))
  {
    var store := s.capture.Admitted? && |s.ring| < s.capacity;
    HeardTally(s.received, |h.heard|);
    TallyStep(0, s.filtered, h.rejections, s.capture.Rejected?, s.capture.Received? && !pass, s.capture.Rejected?);
    TallyStep(0, s.queued, |h.stored|, s.capture.Enqueued?, store, s.capture.Enqueued?);
    hide Tally, Inc, Select;
  }

  lemma HeardTally(count: u64, total: nat)
    requires Tally(0, count, total, false)
    ensures Tally(0, Inc(count), total + 1, false)
  {
    Succeeds(total);
    hide Inc, Wrap;
  }

  lemma DispatchCounts(s: Pipe, h: History, room: bool)
    requires Counts(s, h)
    ensures Counts(DispatchStep(s, room), Record(h, s, Give(room)))
  {
    TallyStep(0, s.sent, |s.channel|, s.dispatch.Delivered?,
              s.dispatch.Sending? && s.dispatch.batch != [] && room, s.dispatch.Delivered?);
    hide Tally, Inc;
  }

  lemma StepIsRecorded(s: Pipe, h: History, a: Action)
    requires Flows(s, h) && Counts(s, h)
    ensures Flows(Step(s, a), Record(h, s, a)) && Counts(Step(s, a), Record(h, s, a))
  {
    match a
    case Take(f, pass) =>
      CaptureFlows(s, h, f, pass);
      CaptureCounts(s, h, f, pass);
    case Give(room) =>
      DispatchFlows(s, h, room);
      DispatchCounts(s, h, room);
    hide Flows, Counts, CaptureStep, DispatchStep, Record;
  }

  lemma StartsEmpty(s: Pipe)
    requires Initial(s)
    ensures HistoryOf(s, []) == History([], [], 0, [], 0, [])
    ensures Flows(s, History([], [], 0, [], 0, [])) && Counts(s, History([], [], 0, [], 0, []))
  {
    hide Tally, Flows, Counts;
    StartsFlowing(s);
    StartsCounting(s);
  }

  lemma StartsFlowing(s: Pipe)
    requires Initial(s)
    ensures Flows(s, History([], [], 0, [], 0, []))
  {
    var none: seq<Frame> := [];
    assert none[0..] == [] == Batch(s) + s.ring;
  }

  lemma StartsCounting(s: Pipe)
    requires Initial(s)
    ensures Counts(s, History([], [], 0, [], 0, []))
  {
    hide Tally;
    NothingCounted();
  }

  lemma NothingCounted()
    ensures Tally(0, 0, 0, false)
  {
    WrapSmall(0);
  }

  /** Over every interleaving, read off the actions: the frames that passed are exactly those whose next step the
      pre-filter admitted, the ring is a bounded queue of those that found room, the channel holds exactly the ones it had
      room for when they were offered, in order, and each counter counts its events. */
  lemma {:induction false} RunIsItsHistory(s: Pipe, run: seq<Action>)
    requires Initial(s)
    ensures Flows(Run(s, run), HistoryOf(s, run)) && Counts(Run(s, run), HistoryOf(s, run))
  {
    hide Flows, Counts, Step, Record, Initial;
    if run == [] {
      StartsEmpty(s);
    } else {
      var n := |run| - 1;
      RunIsItsHistory(s, run[..n]);
      StepIsRecorded(Run(s, run[..n]), HistoryOf(s, run[..n]), run[n]);
    }
  }

  /** `dropped` counts, modulo 2^64, the frames the full ring refused and those the full channel refused, but for those of
      either loop not counted yet. */
  lemma DroppedAreLost(s: Pipe, run: seq<Action>)
    requires Initial(s)
    ensures var r, h := Run(s, run), HistoryOf(s, run);
            && |r.channel| <= |h.offers|
            && One(r.capture.Overflowed?) + One(r.dispatch.Lost?) <= h.overflows + (|h.offers| - |r.channel|)
            && r.dropped ==
                 Wrap(h.overflows + (|h.offers| - |r.channel|) - One(r.capture.Overflowed?) - One(r.dispatch.Lost?))
  {
    RunIsItsHistory(s, run);
    DroppedTally(s, run);
  }

  ghost predicate Losses(s: Pipe, h: History) {
    var total := h.overflows + |h.offers| - |s.channel|;
    && |s.channel| <= |h.offers|
    && One(s.capture.Overflowed?) <= h.overflows && One(s.dispatch.Lost?) <= |h.offers| - |s.channel|
    && s.dropped == Wrap(total - One(s.capture.Overflowed?) - One(s.dispatch.Lost?))
  }

  lemma LossStep(s: Pipe, h: History, a: Action)
    requires Losses(s, h)
    ensures Losses(Step(s, a), Record(h, s, a))
  {
    Succeeds(h.overflows + |h.offers| - |s.channel| - One(s.capture.Overflowed?) - One(s.dispatch.Lost?));
    hide Inc, Wrap;
  }

  lemma {:induction false} DroppedTally(s: Pipe, run: seq<Action>)
    requires Initial(s)
    ensures Losses(Run(s, run), HistoryOf(s, run))
  {
    if run != [] {
      var n := |run| - 1;
      DroppedTally(s, run[..n]);
      LossStep(Run(s, run[..n]), HistoryOf(s, run[..n]), run[n]);
      hide Losses, Step, Record;
    }
  }

  /** The dispatch loop stops collecting exactly at a full batch or an empty ring. */
  lemma CollectsAll(s: Pipe, run: seq<Action>, room: bool)
    requires Initial(s) && Run(s, run).dispatch.Collecting?
    ensures var r := Run(s, run);
            DispatchStep(r, room).dispatch.Sending? <==> |r.dispatch.batch| == BATCH || r.ring == []
  {
    RunIsItsHistory(s, run);
  }
}
