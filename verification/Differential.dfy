/** Biased differential protection: the relay as an object, and its decisions over whole runs. */
module Differential {
  import opened Bits
  import opened Window
  import opened Phasors
  import opened Restraint

  // ---------------------------------------------------------------- the two quantities

  /** A magnitude on the primary side of the current transformer. */
  function Primary(mag: real, ct: real): real {
    mag * ct
  }

  function DifferentialMag(m: Math, p: Phasor, q: Phasor, ct: real): real {
    Primary(Sub(m, p, q).Mag, ct)
  }

  function RestraintMag(p: Phasor, q: Phasor, ct: real): real {
    Primary((p.Mag + q.Mag) / 2.0, ct)
  }

  function RestraintPhasor(m: Math, p: Phasor, q: Phasor): Phasor {
    NewPhasor(m, (p.Real + q.Real) / 2.0, (p.Imag + q.Imag) / 2.0)
  }

  function CalculateDifferentialCurrent(m: Math, p: Phasor, q: Phasor, ct: real): Phasor {
    Scale(m, Sub(m, p, q), ct)
  }

  function CalculateRestraintCurrent(m: Math, p: Phasor, q: Phasor, ct: real): (real, Phasor) {
    (RestraintMag(p, q, ct), Scale(m, RestraintPhasor(m, p, q), ct))
  }

  /** For a ratio that is not negative the differential quantity is at most twice the restraint quantity; a negative ratio
      turns the comparison round. */
  lemma DifferentialWithinTwiceRestraint(m: Math, p: Phasor, q: Phasor, ct: real)
    requires Euclidean(m) && Proper(p) && Proper(q)
    ensures ct >= 0.0 ==> 0.0 <= DifferentialMag(m, p, q, ct) <= 2.0 * RestraintMag(p, q, ct)
    ensures ct <= 0.0 ==> 2.0 * RestraintMag(p, q, ct) <= DifferentialMag(m, p, q, ct) <= 0.0
  {
    SubTriangle(m, p, q);
    assert Sub(m, p, q).Mag >= 0.0;
    ScaleOrder(Sub(m, p, q).Mag, p.Mag + q.Mag, ct);
    hide Sub, Proper, Euclidean, Primary;
  }

  lemma ScaleOrder(d: real, s: real, ct: real)
    requires 0.0 <= d <= s
    ensures 2.0 * Primary(s / 2.0, ct) == Primary(s, ct)
    ensures ct >= 0.0 ==> 0.0 <= Primary(d, ct) <= Primary(s, ct)
    ensures ct <= 0.0 ==> Primary(s, ct) <= Primary(d, ct) <= 0.0
  {
    if ct >= 0.0 {
      Product(d, ct);
      Product(s - d, ct);
    } else {
      Product(d, -ct);
      Product(s - d, -ct);
      assert d * (-ct) == -(d * ct) && (s - d) * (-ct) == -((s - d) * ct);
    }
    assert (s - d) * ct == s * ct - d * ct;
  }

  /** The stand-alone calculation scales the phasor and then measures it, the relay measures and then scales: they agree
      exactly when the ratio is not negative or there is nothing to scale. */
  lemma CalculationsAgreeIff(m: Math, p: Phasor, q: Phasor, ct: real)
    requires Euclidean(m) && Proper(p) && Proper(q)
    ensures CalculateDifferentialCurrent(m, p, q, ct).Mag == DifferentialMag(m, p, q, ct) <==>
            ct >= 0.0 || Sub(m, p, q).Mag == 0.0
  {
    var d := Sub(m, p, q);
    ScaledMagnitude(m, d, ct);
    if ct < 0.0 && d.Mag > 0.0 { PositiveProduct(-ct, d.Mag); assert (-ct) * d.Mag == -(ct * d.Mag); }
  }

  function Inner(p: Phasor, q: Phasor): real {
    p.Real * q.Real + p.Imag * q.Imag
  }

  /** The restraint quantity depends on the two magnitudes alone and does not tell the sides apart. */
  lemma RestraintOfMagnitudes(p: Phasor, q: Phasor, p': Phasor, q': Phasor, ct: real)
    requires (p.Mag == p'.Mag && q.Mag == q'.Mag) || (p.Mag == q'.Mag && q.Mag == p'.Mag)
    ensures RestraintMag(p, q, ct) == RestraintMag(p', q', ct)
  {
    assert p.Mag + q.Mag == p'.Mag + q'.Mag;
    hide Primary;
  }

  /** The law of cosines for the difference and, halved, for the mean. */
  lemma Cosines(m: Math, p: Phasor, q: Phasor)
    requires Euclidean(m) && Proper(p) && Proper(q)
    ensures var d, r, t := Sub(m, p, q).Mag, RestraintPhasor(m, p, q).Mag, Inner(p, q);
            && d >= 0.0 && d * d == p.Mag * p.Mag + q.Mag * q.Mag - 2.0 * t
            && r >= 0.0 && 4.0 * (r * r) == p.Mag * p.Mag + q.Mag * q.Mag + 2.0 * t
  {
    CosineLaw(m, p, q);
    var r := RestraintPhasor(m, p, q);
    hide Sub;
    assert r.Mag * r.Mag == r.Real * r.Real + r.Imag * r.Imag;
    Binomials(p.Real, q.Real);
    Binomials(p.Imag, q.Imag);
  }

  /** For opposed phasors, and for no others, the difference is as long as both together. */
  lemma OpposedIff(m: Math, p: Phasor, q: Phasor)
    requires Euclidean(m) && Proper(p) && Proper(q)
    ensures Sub(m, p, q).Mag == p.Mag + q.Mag <==> Inner(p, q) == -(p.Mag * q.Mag)
  {
    var d := Sub(m, p, q).Mag;
    Cosines(m, p, q);
    Binomials(p.Mag, q.Mag);
    hide Sub, Inner, RestraintPhasor;
    if d * d == (p.Mag + q.Mag) * (p.Mag + q.Mag) { SameMagnitude(d, p.Mag + q.Mag); }
  }

  /** For a positive ratio the differential quantity is twice the restraint quantity exactly when the two phasors are
      opposed. */
  lemma TwiceRestraintIffOpposed(m: Math, p: Phasor, q: Phasor, ct: real)
    requires Euclidean(m) && Proper(p) && Proper(q) && ct > 0.0
    ensures DifferentialMag(m, p, q, ct) == 2.0 * RestraintMag(p, q, ct) <==> Inner(p, q) == -(p.Mag * q.Mag)
  {
    OpposedIff(m, p, q);
    var d, s := Sub(m, p, q).Mag, p.Mag + q.Mag;
    SubTriangle(m, p, q);
    assert d >= 0.0;
    ScaleOrder(d, s, ct);
    PrimaryInjective(d, s, ct);
    hide Sub, Inner, Primary, Proper, Euclidean;
  }

  lemma PrimaryInjective(d: real, s: real, ct: real)
    requires ct > 0.0
    ensures Primary(d, ct) == Primary(s, ct) <==> d == s
  {
    if d < s { PositiveProduct(s - d, ct); }
    if d > s { PositiveProduct(d - s, ct); }
    assert (s - d) * ct == s * ct - d * ct && (d - s) * ct == d * ct - s * ct;
  }

  /** For phasors in phase the restraint quantity is the scaled length of the restraint phasor, and the differential
      quantity the scaled difference of the two lengths. */
  lemma InPhase(m: Math, p: Phasor, q: Phasor, ct: real)
    requires Euclidean(m) && Proper(p) && Proper(q) && Inner(p, q) == p.Mag * q.Mag
    ensures RestraintMag(p, q, ct) == RestraintPhasor(m, p, q).Mag * ct
    ensures DifferentialMag(m, p, q, ct) == Abs(p.Mag - q.Mag) * ct
  {
    Cosines(m, p, q);
    Binomials(p.Mag, q.Mag);
    var d, r, e := Sub(m, p, q).Mag, RestraintPhasor(m, p, q).Mag, p.Mag - q.Mag;
    hide Sub, RestraintPhasor, Inner;
    assert Abs(e) * Abs(e) == e * e;
    SameMagnitude(d, Abs(e));
    SameMagnitude(r, (p.Mag + q.Mag) / 2.0);
  }

  /** The stand-alone restraint current agrees with the relay's, and for phasors in phase and a ratio that is not negative
      its magnitude is the length of the phasor returned with it. */
  lemma RestraintCurrentAgrees(m: Math, p: Phasor, q: Phasor, ct: real)
    requires Euclidean(m) && Proper(p) && Proper(q)
    ensures CalculateRestraintCurrent(m, p, q, ct).0 == RestraintMag(p, q, ct)
    ensures ct >= 0.0 && Inner(p, q) == p.Mag * q.Mag ==>
      CalculateRestraintCurrent(m, p, q, ct).1.Mag == CalculateRestraintCurrent(m, p, q, ct).0
  {
    if ct >= 0.0 && Inner(p, q) == p.Mag * q.Mag {
      InPhase(m, p, q, ct);
      Cosines(m, p, q);
      ScaledMagnitude(m, RestraintPhasor(m, p, q), ct);
    }
  }

  lemma SubScale(m: Math, p: Phasor, k: real)
    ensures Sub(m, p, Scale(m, p, k)) == Scale(m, p, 1.0 - k)
  {
    assert p.Real - Times(p.Real, k) == Times(p.Real, 1.0 - k);
    assert p.Imag - Times(p.Imag, k) == Times(p.Imag, 1.0 - k);
    hide Times;
  }

  /** How long the multiple of a phasor is, and its difference from the phasor. */
  lemma ScaledPair(m: Math, p: Phasor, k: real)
    requires Euclidean(m) && Proper(p)
    ensures Scale(m, p, k).Mag == Abs(k) * p.Mag && Sub(m, p, Scale(m, p, k)).Mag == Abs(1.0 - k) * p.Mag
  {
    hide Sub, Scale, Proper, Euclidean;
    ScaledMagnitude(m, p, k);
    ScaledMagnitude(m, p, 1.0 - k);
    SubScale(m, p, k);
  }

  /** With one side at zero the restraint is half the differential quantity, and the relay trips exactly when the
      differential quantity exceeds the minimum: the bias can neither block nor cause a trip. */
  lemma OneSideZero(m: Math, rc: RestraintCharacteristic, p: Phasor, q: Phasor, ct: real)
    requires Euclidean(m) && Proper(p) && Proper(q) && q.Mag == 0.0
    requires rc.Breakpoint1 <= rc.Breakpoint2 && rc.MinTrip < 2.0 * rc.Breakpoint1
    requires rc.Slope1 <= 2.0 && rc.Slope2 <= 2.0
    ensures DifferentialMag(m, p, q, ct) == Primary(p.Mag, ct)
    ensures rc.CheckRestraint(DifferentialMag(m, p, q, ct), RestraintMag(p, q, ct)).0 <==> Primary(p.Mag, ct) > rc.MinTrip
  {
    SubTriangle(m, p, q);
    HalfMag(p, q, ct);
    hide Sub, RestraintMag, Primary, Proper, Euclidean, RestraintCharacteristic.TripThreshold;
    ShallowThreshold(rc, Primary(p.Mag, ct));
  }

  lemma HalfMag(p: Phasor, q: Phasor, ct: real)
    requires q.Mag == 0.0
    ensures RestraintMag(p, q, ct) == Primary(p.Mag, ct) / 2.0
  {
    assert (p.Mag + q.Mag) / 2.0 == p.Mag / 2.0;
  }

  lemma ShallowThreshold(rc: RestraintCharacteristic, d: real)
    requires rc.Breakpoint1 <= rc.Breakpoint2 && rc.MinTrip < 2.0 * rc.Breakpoint1
    requires rc.Slope1 <= 2.0 && rc.Slope2 <= 2.0
    ensures d > rc.TripThreshold(d / 2.0) <==> d > rc.MinTrip
  {
    var x, b1, b2 := d / 2.0, rc.Breakpoint1, rc.Breakpoint2;
    OnLine(rc, x);
    hide RestraintCharacteristic.TripThreshold, Climb;
    assert d == 2.0 * x;
    if x > b1 { Twice(rc.Slope1, x - b1); }
    if x > b2 { Twice(rc.Slope2, x - b2); }
    Twice(rc.Slope1, b2 - b1);
  }

  lemma Twice(s: real, d: real)
    requires s <= 2.0 && d >= 0.0
    ensures Climb(s, d) <= 2.0 * d
  {
    SteeperClimbs(s, 2.0, d);
  }

  // ---------------------------------------------------------------- the relay as a value

  datatype Setup = Setup(m: Math, cycle: nat, rc: RestraintCharacteristic, ct: real) {
    ghost predicate Valid() {
      Euclidean(m) && cycle > 0
    }
  }

  datatype Relay = Relay(
    histM: seq<real>, histN: seq<real>, idiff: Phasor, ires: Phasor,
    idiffMag: real, iresMag: real, slope: real, trip: bool, tripCount: u64)

  const IDLE := Relay([], [], ZERO, ZERO, 0.0, 0.0, 0.0, false, 0)

  datatype Call =
    | SideM(Ia: real, Ib: real, Ic: real)
    | SideN(Ia: real, Ib: real, Ic: real)
    | Both(IaM: real, IbM: real, IcM: real, IaN: real, IbN: real, IcN: real)

  function Evaluated(c: Setup, r: Relay): Relay
    requires c.cycle > 0
  {
    if |r.histM| < c.cycle || |r.histN| < c.cycle then r
    else
      var p, q := CyclePhasor(c.m, r.histM, c.cycle), CyclePhasor(c.m, r.histN, c.cycle);
      var idiff, ires := DifferentialMag(c.m, p, q, c.ct), RestraintMag(p, q, c.ct);
      var (trip, slope) := c.rc.CheckRestraint(idiff, ires);
      r.(idiff := Sub(c.m, p, q), ires := RestraintPhasor(c.m, p, q), idiffMag := idiff, iresMag := ires,
         slope := slope, trip := trip, tripCount := if trip && !r.trip then Inc(r.tripCount) else r.tripCount)
  }

  /** The zero-sequence currents a call gives to each side. */
  function PushM(call: Call): seq<real> {
    match call
    case SideM(a, b, d) => [ZeroSequence(a, b, d)]
    case SideN(_, _, _) => []
    case Both(a, b, d, _, _, _) => [ZeroSequence(a, b, d)]
  }

  function PushN(call: Call): seq<real> {
    match call
    case SideM(_, _, _) => []
    case SideN(a, b, d) => [ZeroSequence(a, b, d)]
    case Both(_, _, _, a, b, d) => [ZeroSequence(a, b, d)]
  }

  function Push(c: Setup, r: Relay, call: Call): Relay
    requires c.cycle > 0
  {
    Evaluated(c, r.(histM := r.histM + PushM(call), histN := r.histN + PushN(call)))
  }

  function Run(c: Setup, calls: seq<Call>): Relay
    requires c.cycle > 0
  {
    if calls == [] then IDLE else Push(c, Run(c, calls[..|calls| - 1]), calls[|calls| - 1])
  }

  // ---------------------------------------------------------------- the object

  class DifferentialProtection {
    const SideM: ZeroSequenceProcessor
    const SideN: ZeroSequenceProcessor
    var Settings: DifferentialSettings
    var Restraint: RestraintCharacteristic
    var CurrentDifferential: Phasor
    var CurrentRestraint: Phasor
    var IdiffMag: real
    var IresMag: real
    var Slope: real
    var Trip: bool
    var TripCount: u64

    ghost function Objects(): set<object> {
      SideM.Repr() + SideN.Repr()
    }

    ghost predicate Valid()
      reads Objects(), SideM.Tables(), SideN.Tables()
    {
      && SideM.Valid() && SideN.Valid() && SideM.Repr() !! SideN.Repr() && this !in Objects()
      && SideM.Tables() !! Objects() && SideN.Tables() !! Objects()
      && SideM.DFT.math == SideN.DFT.math && SideM.DFT.SamplesPerCycle == SideN.DFT.SamplesPerCycle > 0
    }

    ghost function Parameters(): Setup
      reads this
    {
      Setup.Setup(SideM.DFT.math, SideM.DFT.SamplesPerCycle, Restraint, Settings.CTRatio)
    }

    ghost function State(): Relay
      reads this, SideM.BufferI0, SideN.BufferI0
    {
      Relay(SideM.Currents(), SideN.Currents(), CurrentDifferential, CurrentRestraint,
            IdiffMag, IresMag, Slope, Trip, TripCount)
    }

    constructor (math: Math, sampleRate: nat)
      requires sampleRate >= 50
      ensures Valid() && fresh(Objects())
      ensures State() == IDLE && Settings == DEFAULT_SETTINGS && Restraint == DEFAULT
      ensures Parameters() == Setup.Setup(math, sampleRate / 50, DEFAULT, 1.0)
    {
      hide ZeroSequenceProcessor.Valid;
      var sideM := new ZeroSequenceProcessor(math, sampleRate);
      var sideN := new ZeroSequenceProcessor(math, sampleRate);
      SideM, SideN := sideM, sideN;
      Settings, Restraint := DEFAULT_SETTINGS, DEFAULT;
      CurrentDifferential, CurrentRestraint := ZERO, ZERO;
      IdiffMag, IresMag, Slope, Trip, TripCount := 0.0, 0.0, 0.0, false, 0;
    }

    /** Both sides' phasors, once both have a cycle. */
    method SidePhasors() returns (ready: bool, phasorM: Phasor, phasorN: Phasor)
      requires Valid()
      ensures Valid() && this !in Objects() + SideM.Tables() + SideN.Tables() && Parameters().cycle > 0
      ensures ready <==> |SideM.Currents()| >= Parameters().cycle && |SideN.Currents()| >= Parameters().cycle
      ensures phasorM == CyclePhasor(Parameters().m, SideM.Currents(), Parameters().cycle)
      ensures phasorN == CyclePhasor(Parameters().m, SideN.Currents(), Parameters().cycle)
    {
      hide ZeroSequenceProcessor.Valid, CyclePhasor;
      var readyM := SideM.Ready();
      var readyN := SideN.Ready();
      ready := readyM && readyN;
      phasorM := SideM.GetI0Phasor();
      phasorN := SideN.GetI0Phasor();
    }

    method Evaluate()
      requires Valid()
      modifies this
      ensures Valid() && Settings == old(Settings) && Restraint == old(Restraint)
      ensures State() == Evaluated(Parameters(), old(State()))
    {
      hide DifferentialProtection.Valid, DifferentialProtection.Objects;
      var ready, phasorM, phasorN := SidePhasors();
      if !ready {
        return;
      }
      hide CyclePhasor, DifferentialMag, RestraintMag, Sub, RestraintPhasor, RestraintCharacteristic.CheckRestraint, Inc;
      var math, ct := SideM.DFT.math, Settings.CTRatio;
      var idiff, ires := Sub(math, phasorM, phasorN), RestraintPhasor(math, phasorM, phasorN);
      var idiffMag, iresMag := DifferentialMag(math, phasorM, phasorN, ct), RestraintMag(phasorM, phasorN, ct);
      var (trip, slope) := Restraint.CheckRestraint(idiffMag, iresMag);
      var tripCount := if trip && !Trip then Inc(TripCount) else TripCount;
      assert Evaluated(Parameters(), State()) ==
        Relay(SideM.Currents(), SideN.Currents(), idiff, ires, idiffMag, iresMag, slope, trip, tripCount);
      hide Evaluated;
      CurrentDifferential, CurrentRestraint, IdiffMag, IresMag := idiff, ires, idiffMag, iresMag;
      Slope, Trip, TripCount := slope, trip, tripCount;
    }

    method PushSideM(Ia: real, Ib: real, Ic: real)
      requires Valid()
      modifies this, SideM.Repr()
      ensures Valid() && Settings == old(Settings) && Restraint == old(Restraint)
      ensures State() == Push(Parameters(), old(State()), Call.SideM(Ia, Ib, Ic))
    {
      hide ZeroSequenceProcessor.Valid, ZeroSequence, Evaluated;
      SideM.PushSamples(Ia, Ib, Ic);
      assert SideN.Currents() + [] == SideN.Currents();
      Evaluate();
    }

    method PushSideN(Ia: real, Ib: real, Ic: real)
      requires Valid()
      modifies this, SideN.Repr()
      ensures Valid() && Settings == old(Settings) && Restraint == old(Restraint)
      ensures State() == Push(Parameters(), old(State()), Call.SideN(Ia, Ib, Ic))
    {
      hide ZeroSequenceProcessor.Valid, ZeroSequence, Evaluated;
      SideN.PushSamples(Ia, Ib, Ic);
      assert SideM.Currents() + [] == SideM.Currents();
      Evaluate();
    }

    method PushBothSides(IaM: real, IbM: real, IcM: real, IaN: real, IbN: real, IcN: real)
      requires Valid()
      modifies this, Objects()
      ensures Valid() && Settings == old(Settings) && Restraint == old(Restraint)
      ensures State() == Push(Parameters(), old(State()), Call.Both(IaM, IbM, IcM, IaN, IbN, IcN))
    {
      hide ZeroSequenceProcessor.Valid, ZeroSequence, Evaluated;
      SideM.PushSamples(IaM, IbM, IcM);
      SideN.PushSamples(IaN, IbN, IcN);
      Evaluate();
    }
  }

  // ---------------------------------------------------------------- whole runs

  ghost predicate Ready(c: Setup, r: Relay) {
    |r.histM| >= c.cycle && |r.histN| >= c.cycle
  }

  /** The decision on two histories, from their last cycles alone. */
  function Decision(c: Setup, histM: seq<real>, histN: seq<real>): bool
    requires c.cycle > 0
  {
    && |histM| >= c.cycle && |histN| >= c.cycle
    && var p, q := Dft(c.m, Last(histM, c.cycle), c.cycle), Dft(c.m, Last(histN, c.cycle), c.cycle);
       DifferentialMag(c.m, p, q, c.ct) > c.rc.TripThreshold(RestraintMag(p, q, c.ct))
  }

  lemma Pushed(c: Setup, r: Relay, call: Call)
    requires c.cycle > 0 && r.trip == Decision(c, r.histM, r.histN)
    ensures var r' := Push(c, r, call);
            && r'.histM == r.histM + PushM(call) && r'.histN == r.histN + PushN(call)
            && r'.trip == Decision(c, r'.histM, r'.histN)
            && (Ready(c, r') ==>
                  var p, q := CyclePhasor(c.m, r'.histM, c.cycle), CyclePhasor(c.m, r'.histN, c.cycle);
                  && r'.idiff == Sub(c.m, p, q) && r'.ires == RestraintPhasor(c.m, p, q)
                  && r'.idiffMag == DifferentialMag(c.m, p, q, c.ct) && r'.iresMag == RestraintMag(p, q, c.ct))
            && r'.tripCount == if r'.trip && !r.trip then Inc(r.tripCount) else r.tripCount
  {
    hide Dft, Sub, DifferentialMag, RestraintMag, RestraintPhasor, RestraintCharacteristic.TripThreshold, Inc, PushM, PushN;
  }

  /** All currents a run gave to the two sides. */
  function CurrentsM(calls: seq<Call>): seq<real> {
    if calls == [] then [] else CurrentsM(calls[..|calls| - 1]) + PushM(calls[|calls| - 1])
  }

  function CurrentsN(calls: seq<Call>): seq<real> {
    if calls == [] then [] else CurrentsN(calls[..|calls| - 1]) + PushN(calls[|calls| - 1])
  }

  /** A joint call appends one current to either side, */
  lemma JointAppends(calls: seq<Call>, call: Call, x: real, y: real)
    requires call.Both? && 3.0 * x == call.IaM + call.IbM + call.IcM && 3.0 * y == call.IaN + call.IbN + call.IcN
    ensures CurrentsM(calls + [call]) == CurrentsM(calls) + [x] && CurrentsN(calls + [call]) == CurrentsN(calls) + [y]
  {
    hide CurrentsM, CurrentsN;
    CurrentsAppend(calls, call);
    ZeroSequenceIs(call.IaM, call.IbM, call.IcM);
    ZeroSequenceIs(call.IaN, call.IbN, call.IcN);
  }

  /** and a single-sided call one to its own side only. */
  lemma SideAppends(calls: seq<Call>, call: Call, x: real)
    requires (call.SideM? || call.SideN?) && 3.0 * x == call.Ia + call.Ib + call.Ic
    ensures CurrentsM(calls + [call]) == if call.SideM? then CurrentsM(calls) + [x] else CurrentsM(calls)
    ensures CurrentsN(calls + [call]) == if call.SideN? then CurrentsN(calls) + [x] else CurrentsN(calls)
  {
    hide CurrentsM, CurrentsN;
    CurrentsAppend(calls, call);
    ZeroSequenceIs(call.Ia, call.Ib, call.Ic);
    assert CurrentsM(calls) + [] == CurrentsM(calls) && CurrentsN(calls) + [] == CurrentsN(calls);
  }

  lemma CurrentsAppend(calls: seq<Call>, call: Call)
    ensures CurrentsM(calls + [call]) == CurrentsM(calls) + PushM(call)
    ensures CurrentsN(calls + [call]) == CurrentsN(calls) + PushN(call)
  {
    assert (calls + [call])[..|calls|] == calls;
    hide PushM, PushN;
  }

  /** After any run of calls on either side or both, in any order, the relay stands where one evaluation of the whole
      history would put it: it trips exactly when the last cycles of the two sides demand it. */
  lemma {:induction false} RunDecides(c: Setup, calls: seq<Call>)
    requires c.cycle > 0
    ensures var r := Run(c, calls);
            && r.histM == CurrentsM(calls) && r.histN == CurrentsN(calls)
            && r.trip == Decision(c, CurrentsM(calls), CurrentsN(calls))
  {
    if calls != [] {
      var front := calls[..|calls| - 1];
      RunDecides(c, front);
      Pushed(c, Run(c, front), calls[|calls| - 1]);
      hide Decision, Push, Evaluated, PushM, PushN;
    }
  }

  lemma CycleFilters(m: Math, h: seq<real>, g: seq<real>, n: nat)
    requires 0 < n <= |h| && n <= |g|
    ensures var p, q := CyclePhasor(m, h, n), CyclePhasor(m, g, n);
            && Sub(m, p, q) == Dft(m, SampleDifference(Last(h, n), Last(g, n)), n)
            && RestraintPhasor(m, p, q) == Dft(m, SampleMean(Last(h, n), Last(g, n)), n)
  {
    hide Dft, SampleDifference, SampleMean, Last, Sub, NewPhasor;
    DftLinear(m, Last(h, n), Last(g, n), n);
    DftMean(m, Last(h, n), Last(g, n), n);
  }

  /** The two phasors shown are the filter applied to the sample-wise difference and mean of the last cycles. */
  lemma RunFilters(c: Setup, calls: seq<Call>)
    requires c.cycle > 0 && calls != [] && Ready(c, Run(c, calls))
    ensures var r := Run(c, calls);
            var x, y := Last(r.histM, c.cycle), Last(r.histN, c.cycle);
            r.idiff == Dft(c.m, SampleDifference(x, y), c.cycle) && r.ires == Dft(c.m, SampleMean(x, y), c.cycle)
  {
    hide Decision, Dft, SampleDifference, SampleMean, Last, Sub, NewPhasor, CyclePhasor, RestraintPhasor, Evaluated;
    RunDecides(c, calls[..|calls| - 1]);
    Pushed(c, Run(c, calls[..|calls| - 1]), calls[|calls| - 1]);
    CycleFilters(c.m, Run(c, calls).histM, Run(c, calls).histN, c.cycle);
  }

  lemma RunQuantities(c: Setup, calls: seq<Call>)
    requires c.cycle > 0 && calls != [] && Ready(c, Run(c, calls))
    ensures var r := Run(c, calls);
            var p, q := CyclePhasor(c.m, CurrentsM(calls), c.cycle), CyclePhasor(c.m, CurrentsN(calls), c.cycle);
            r.idiffMag == DifferentialMag(c.m, p, q, c.ct) && r.iresMag == RestraintMag(p, q, c.ct)
  {
    RunDecides(c, calls[..|calls| - 1]);
    RunDecides(c, calls);
    Pushed(c, Run(c, calls[..|calls| - 1]), calls[|calls| - 1]);
    hide Decision, CyclePhasor, DifferentialMag, RestraintMag, RestraintPhasor, Sub, Evaluated, CurrentsM, CurrentsN;
  }

  /** The quantities of two sides of which one carries `length`, scaled by `ct`, and the other `k` times as much: the mean
      of the two scaled lengths and the scaled length of the difference. */
  ghost predicate Proportional(idiff: real, ires: real, k: real, length: real, ct: real) {
    && idiff == Abs(1.0 - k) * length * ct
    && ires == (1.0 + Abs(k)) / 2.0 * length * ct
    && (k <= 0.0 ==> idiff == 2.0 * ires)
  }

  /** After any run whose last cycle on side N is `k` times that on side M, sample by sample, the relay shows the quantities
      of such a pair; for `k <= 0`, a fault fed from both sides, the differential quantity is exactly twice the restraint
      quantity. */
  lemma ProportionalFeed(c: Setup, calls: seq<Call>, k: real)
    requires c.Valid() && calls != [] && Ready(c, Run(c, calls))
    requires |CurrentsM(calls)| >= c.cycle && |CurrentsN(calls)| >= c.cycle
    requires Last(CurrentsN(calls), c.cycle) == Multiple(k, Last(CurrentsM(calls), c.cycle))
    ensures var r, p := Run(c, calls), Dft(c.m, Last(CurrentsM(calls), c.cycle), c.cycle);
            Proportional(r.idiffMag, r.iresMag, k, p.Mag, c.ct)
  {
    hide Proportional, Dft, Multiple, Last, DifferentialMag, RestraintMag, Scale;
    RunQuantities(c, calls);
    DftMultiple(c.m, k, Last(CurrentsM(calls), c.cycle), c.cycle);
    CycleProper(c.m, CurrentsM(calls), c.cycle);
    hide Run, CurrentsM, CurrentsN;
    ProportionalQuantities(c.m, Dft(c.m, Last(CurrentsM(calls), c.cycle), c.cycle), k, c.ct);
  }

  lemma CycleProper(m: Math, h: seq<real>, n: nat)
    requires Euclidean(m) && 0 < n <= |h|
    ensures Proper(Dft(m, Last(h, n), n))
  {
    DftProper(m, Last(h, n), n);
  }

  lemma ProportionalQuantities(m: Math, p: Phasor, k: real, ct: real)
    requires Euclidean(m) && Proper(p)
    ensures Proportional(DifferentialMag(m, p, Scale(m, p, k), ct), RestraintMag(p, Scale(m, p, k), ct), k, p.Mag, ct)
  {
    ScaledPair(m, p, k);
    var a := Abs(k);
    assert p.Mag + a * p.Mag == (1.0 + a) * p.Mag;
    assert (1.0 + a) * p.Mag / 2.0 == (1.0 + a) / 2.0 * p.Mag;
    hide Sub, Scale;
    if k <= 0.0 {
      assert Abs(1.0 - k) == 2.0 * ((1.0 + a) / 2.0);
      TwiceProduct((1.0 + a) / 2.0, p.Mag, ct);
    }
  }

  lemma TwiceProduct(x: real, y: real, z: real)
    ensures 2.0 * x * y * z == 2.0 * (x * y * z)
  {
  }

  /** The quantities a relay shows: the differential one at most twice the restraint one, and their quotient. */
  ghost predicate Plausible(r: Relay) {
    && 0.0 <= r.idiffMag <= 2.0 * r.iresMag
    && r.slope == if r.iresMag > 0.0 then r.idiffMag / r.iresMag else 0.0
  }

  lemma EvaluatedPlausible(c: Setup, r: Relay)
    requires c.Valid() && c.ct >= 0.0 && Plausible(r)
    ensures Plausible(Evaluated(c, r))
  {
    if Ready(c, r) {
      DftProper(c.m, Last(r.histM, c.cycle), c.cycle);
      DftProper(c.m, Last(r.histN, c.cycle), c.cycle);
      hide Dft, Last, Proper, Euclidean, RestraintMag, DifferentialMag;
      DifferentialWithinTwiceRestraint(c.m, CyclePhasor(c.m, r.histM, c.cycle), CyclePhasor(c.m, r.histN, c.cycle), c.ct);
    }
  }

  lemma Quotient(a: real, b: real)
    requires 0.0 <= a <= 2.0 * b && b > 0.0
    ensures 0.0 <= a / b <= 2.0
  {
    var s := a / b;
    assert s * b == a;
    if s < 0.0 { ClimbSign(s, b); }
    if s > 2.0 { ClimbDifference(s, 2.0, b); ClimbSign(s - 2.0, b); }
  }

  /** With a ratio that is not negative, the slope shown after any run lies between 0 and 2, and the differential
      quantity is at most twice the restraint quantity. */
  lemma {:induction false} SlopeInRange(c: Setup, calls: seq<Call>)
    requires c.Valid() && c.ct >= 0.0
    ensures Plausible(Run(c, calls)) && 0.0 <= Run(c, calls).slope <= 2.0
  {
    var r := Run(c, calls);
    if calls != [] {
      var front := Run(c, calls[..|calls| - 1]);
      SlopeInRange(c, calls[..|calls| - 1]);
      var call := calls[|calls| - 1];
      EvaluatedPlausible(c, front.(histM := front.histM + PushM(call), histN := front.histN + PushN(call)));
    }
    hide Run, Evaluated;
    if r.iresMag > 0.0 { Quotient(r.idiffMag, r.iresMag); }
  }

  /** Call `k` of the run raised the trip. */
  ghost predicate Rises(c: Setup, calls: seq<Call>, k: nat)
    requires c.cycle > 0 && k < |calls|
  {
    !Run(c, calls[..k]).trip && Run(c, calls[..k + 1]).trip
  }

  ghost function Rising(c: Setup, calls: seq<Call>): set<nat>
    requires c.cycle > 0
  {
    set k: nat | k < |calls| && Rises(c, calls, k)
  }

  ghost function Edges(c: Setup, calls: seq<Call>): nat
    requires c.cycle > 0
  {
    |Rising(c, calls)|
  }

  lemma EdgesStep(c: Setup, calls: seq<Call>)
    requires c.cycle > 0 && calls != []
    ensures var n := |calls| - 1;
            Edges(c, calls) == Edges(c, calls[..n]) + if Rises(c, calls, n) then 1 else 0
  {
    hide Run;
    var n := |calls| - 1;
    var front := calls[..n];
    forall k: nat | k < n ensures Rises(c, calls, k) == Rises(c, front, k) {
      assert front[..k] == calls[..k] && front[..k + 1] == calls[..k + 1];
    }
    assert Rising(c, calls) == Rising(c, front) + if Rises(c, calls, n) then {n} else {};
  }

  lemma CountStep(c: Setup, calls: seq<Call>)
    requires c.cycle > 0 && calls != []
    ensures var n := |calls| - 1;
            var before := Run(c, calls[..n]).tripCount;
            Run(c, calls).tripCount == if Rises(c, calls, n) then Inc(before) else before
  {
    var n := |calls| - 1;
    RunDecides(c, calls[..n]);
    Pushed(c, Run(c, calls[..n]), calls[n]);
    assert calls[..n + 1] == calls;
    hide Decision, Push, Inc;
  }

  /** In every run the trip counter is the number of false-to-true edges, modulo 2^64. */
  lemma {:induction false} TripCountIsEdges(c: Setup, calls: seq<Call>)
    requires c.cycle > 0
    ensures Run(c, calls).tripCount == Wrap(Edges(c, calls))
  {
    if calls == [] {
      assert Rising(c, calls) == {};
    } else {
      var front := calls[..|calls| - 1];
      TripCountIsEdges(c, front);
      CountStep(c, calls);
      EdgesStep(c, calls);
      Succeeds(Edges(c, front));
      hide Run, Rises, Edges, Inc, Wrap;
    }
  }

  // ---------------------------------------------------------------- faults outside and inside the zone

  function ZeroM(call: Call): real
    requires call.Both?
  {
    ZeroSequence(call.IaM, call.IbM, call.IcM)
  }

  function ZeroN(call: Call): real
    requires call.Both?
  {
    ZeroSequence(call.IaN, call.IbN, call.IcN)
  }

  /** Both sides carry the same zero-sequence current. */
  predicate Through(call: Call) {
    call.Both? && ZeroM(call) == ZeroN(call)
  }

  predicate Joint(calls: seq<Call>) {
    forall call | call in calls :: call.Both?
  }

  function ZerosM(calls: seq<Call>): (z: seq<real>)
    requires Joint(calls)
    ensures |z| == |calls|
  {
    seq(|calls|, i requires 0 <= i < |calls| => ZeroM(calls[i]))
  }

  function ZerosN(calls: seq<Call>): (z: seq<real>)
    requires Joint(calls)
    ensures |z| == |calls|
  {
    seq(|calls|, i requires 0 <= i < |calls| => ZeroN(calls[i]))
  }

  lemma LastAppend<T>(s: seq<T>, v: T, n: nat)
    requires 0 < n <= |s| + 1
    ensures Last(s + [v], n) == Last(s, n - 1) + [v]
  {
  }

  lemma ZerosAppend(calls: seq<Call>, call: Call)
    requires Joint(calls + [call])
    ensures Joint(calls) && call.Both?
    ensures ZerosM(calls + [call]) == ZerosM(calls) + [ZeroM(call)]
    ensures ZerosN(calls + [call]) == ZerosN(calls) + [ZeroN(call)]
  {
    forall x | x in calls ensures x.Both? { assert x in calls + [call]; }
    assert call in calls + [call];
  }

  /** A joint call adds one sample to each side. */
  lemma {:induction false} LastCalls(calls: seq<Call>, n: nat)
    requires n <= |calls| && Joint(Last(calls, n))
    ensures |CurrentsM(calls)| >= n && |CurrentsN(calls)| >= n
    ensures Last(CurrentsM(calls), n) == ZerosM(Last(calls, n)) && Last(CurrentsN(calls), n) == ZerosN(Last(calls, n))
  {
    if n > 0 {
      var front, call := calls[..|calls| - 1], calls[|calls| - 1];
      assert calls == front + [call];
      LastAppend(front, call, n);
      ZerosAppend(Last(front, n - 1), call);
      LastCalls(front, n - 1);
      LastAppend(CurrentsM(front), ZeroM(call), n);
      LastAppend(CurrentsN(front), ZeroN(call), n);
      hide Last, ZerosM, ZerosN, Joint;
    }
  }

  lemma EqualCycles(calls: seq<Call>, n: nat)
    requires n <= |calls| && forall call | call in Last(calls, n) :: Through(call)
    ensures |CurrentsM(calls)| >= n && |CurrentsN(calls)| >= n
    ensures Last(CurrentsM(calls), n) == Last(CurrentsN(calls), n)
  {
    LastCalls(calls, n);
    var last := Last(calls, n);
    forall i | 0 <= i < n ensures ZerosM(last)[i] == ZerosN(last)[i] { assert Through(last[i]); }
    assert ZerosM(last) == ZerosN(last);
    hide CurrentsM, CurrentsN, Last;
  }

  lemma NoDifference(c: Setup, h: seq<real>, g: seq<real>)
    requires c.Valid() && |h| >= c.cycle && |g| >= c.cycle && Last(h, c.cycle) == Last(g, c.cycle)
    requires c.rc.MinTrip >= 0.0 && Monotone(c.rc)
    ensures !Decision(c, h, g)
  {
    var p := Dft(c.m, Last(h, c.cycle), c.cycle);
    ZeroMag(c.m);
    hide Dft, Last;
    NeverNegative(c.rc, RestraintMag(p, p, c.ct));
  }

  lemma ZeroMag(m: Math)
    requires Euclidean(m)
    ensures m.hypot(0.0, 0.0) == 0.0
  {
    SameMagnitude(m.hypot(0.0, 0.0), 0.0);
  }

  lemma NeverNegative(rc: RestraintCharacteristic, x: real)
    requires rc.MinTrip >= 0.0 && Monotone(rc)
    ensures rc.TripThreshold(x) >= 0.0
  {
    if x > rc.Breakpoint1 { assert rc.TripThreshold(rc.Breakpoint1) <= rc.TripThreshold(x); }
  }

  /** Security against external faults, with recovery: whatever came before, after one cycle of joint calls with equal
      zero-sequence currents the relay is not tripped. */
  lemma RestoredAfterOneCycle(c: Setup, calls: seq<Call>)
    requires c.Valid() && c.rc.MinTrip >= 0.0 && Monotone(c.rc)
    requires |calls| >= c.cycle && forall call | call in Last(calls, c.cycle) :: Through(call)
    ensures !Run(c, calls).trip
  {
    RunDecides(c, calls);
    EqualCycles(calls, c.cycle);
    NoDifference(c, CurrentsM(calls), CurrentsN(calls));
    hide CurrentsM, CurrentsN, Run, Decision, Monotone, Through;
  }

  /** On a run of through-fault calls only, the relay never trips at any point and counts nothing. */
  lemma {:induction false} ThroughFaultSecure(c: Setup, calls: seq<Call>)
    requires c.Valid() && c.rc.MinTrip >= 0.0 && Monotone(c.rc)
    requires forall call | call in calls :: Through(call)
    ensures !Run(c, calls).trip && Run(c, calls).tripCount == 0
  {
    if calls != [] {
      var n := |calls| - 1;
      ThroughFaultSecure(c, calls[..n]);
      RunDecides(c, calls[..n]);
      RunDecides(c, calls);
      Pushed(c, Run(c, calls[..n]), calls[n]);
      if |calls| < c.cycle {
        ShortHistory(calls);
      } else {
        RestoredAfterOneCycle(c, calls);
      }
    }
  }

  lemma {:induction false} ShortHistory(calls: seq<Call>)
    ensures |CurrentsM(calls)| <= |calls| && |CurrentsN(calls)| <= |calls|
  {
    if calls != [] { ShortHistory(calls[..|calls| - 1]); }
  }

  /** Ordered breakpoints and slopes that are not negative are enough for both lemmas above. */
  lemma OrderedIsMonotone(rc: RestraintCharacteristic)
    requires rc.Breakpoint1 <= rc.Breakpoint2 && rc.Slope1 >= 0.0 && rc.Slope2 >= 0.0
    ensures Monotone(rc)
  {
    MonotoneIff(rc);
  }

  lemma {:induction false} DotZero(a: seq<real>, t: seq<real>, n: nat)
    requires n <= |a| && n <= |t| && forall i | 0 <= i < n :: a[i] == 0.0
    ensures Dot(a, t, n) == 0.0
  {
    if n > 0 { DotZero(a, t, n - 1); }
  }

  lemma SilentCycle(c: Setup, a: seq<real>)
    requires c.Valid() && |a| == c.cycle && forall i | 0 <= i < |a| :: a[i] == 0.0
    ensures Dft(c.m, a, c.cycle).Mag == 0.0
  {
    DotZero(a, Table(c.m.cos, c.m.pi, c.cycle), c.cycle);
    DotZero(a, Table(c.m.sin, c.m.pi, c.cycle), c.cycle);
    ZeroMag(c.m);
  }

  /** Dependability: when for one cycle only side M carries zero-sequence current, the relay trips exactly when the scaled
      magnitude of that cycle exceeds the minimum. */
  lemma TripsOnSingleFeed(c: Setup, calls: seq<Call>)
    requires c.Valid() && c.rc.Breakpoint1 <= c.rc.Breakpoint2 && c.rc.MinTrip < 2.0 * c.rc.Breakpoint1
    requires c.rc.Slope1 <= 2.0 && c.rc.Slope2 <= 2.0
    requires |calls| >= c.cycle
    requires forall call | call in Last(calls, c.cycle) :: call.Both? && ZeroN(call) == 0.0
    ensures |CurrentsM(calls)| >= c.cycle
    ensures Run(c, calls).trip <==> Primary(Dft(c.m, Last(CurrentsM(calls), c.cycle), c.cycle).Mag, c.ct) > c.rc.MinTrip
  {
    RunDecides(c, calls);
    SilentSide(calls, c.cycle);
    SingleFeed(c, CurrentsM(calls), CurrentsN(calls));
    hide *;
  }

  lemma SilentSide(calls: seq<Call>, n: nat)
    requires n <= |calls| && forall call | call in Last(calls, n) :: call.Both? && ZeroN(call) == 0.0
    ensures |CurrentsM(calls)| >= n && |CurrentsN(calls)| >= n
    ensures forall i | 0 <= i < n :: Last(CurrentsN(calls), n)[i] == 0.0
  {
    LastCalls(calls, n);
    forall i | 0 <= i < n ensures Last(CurrentsN(calls), n)[i] == 0.0 { assert Last(calls, n)[i] in Last(calls, n); }
  }

  lemma SingleFeed(c: Setup, h: seq<real>, g: seq<real>)
    requires c.Valid() && c.rc.Breakpoint1 <= c.rc.Breakpoint2 && c.rc.MinTrip < 2.0 * c.rc.Breakpoint1
    requires c.rc.Slope1 <= 2.0 && c.rc.Slope2 <= 2.0
    requires |h| >= c.cycle && |g| >= c.cycle && forall i | 0 <= i < c.cycle :: Last(g, c.cycle)[i] == 0.0
    ensures Decision(c, h, g) <==> Primary(Dft(c.m, Last(h, c.cycle), c.cycle).Mag, c.ct) > c.rc.MinTrip
  {
    SilentCycle(c, Last(g, c.cycle));
    DftProper(c.m, Last(h, c.cycle), c.cycle);
    DftProper(c.m, Last(g, c.cycle), c.cycle);
    hide Dft, Last, Primary, DifferentialMag, RestraintMag, Proper, RestraintCharacteristic.TripThreshold;
    OneSideZero(c.m, c.rc, Dft(c.m, Last(h, c.cycle), c.cycle), Dft(c.m, Last(g, c.cycle), c.cycle), c.ct);
  }
}
