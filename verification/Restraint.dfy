/** The percentage-restraint characteristic and the differential and restraint quantities. */
module Restraint {
  import opened Phasors

  datatype RestraintCharacteristic = RestraintCharacteristic(
    Breakpoint1: real, Breakpoint2: real, Slope1: real, Slope2: real, MinTrip: real)
  {
    function TripThreshold(x: real): real {
      if x <= Breakpoint1 then MinTrip
      else if x <= Breakpoint2 then MinTrip + Slope1 * (x - Breakpoint1)
      else MinTrip + Slope1 * (Breakpoint2 - Breakpoint1) + Slope2 * (x - Breakpoint2)
    }

    /** The trip decision and the slope reported with it. */
    function CheckRestraint(idiff: real, ires: real): (bool, real) {
      (idiff > TripThreshold(ires), if ires > 0.0 then idiff / ires else 0.0)
    }
  }

  const DEFAULT := RestraintCharacteristic(0.5, 2.0, 0.3, 0.5, 0.2)

  datatype DifferentialSettings = DifferentialSettings(
    Iset1: real, Iset2: real, K1: real, K2: real, IresMin: real, CTRatio: real)

  const DEFAULT_SETTINGS := DifferentialSettings(0.2, 1.5, 0.3, 0.5, 0.5, 1.0)

  /** The restraint check of the settings, with their own names for the five parameters. */
  function CheckBiasedRestraint(idiff: real, ires: real, s: DifferentialSettings): (bool, real) {
    RestraintCharacteristic(s.IresMin, s.Iset2, s.K1, s.K2, s.Iset1).CheckRestraint(idiff, ires)
  }

  // ---------------------------------------------------------------- arithmetic

  /** What a line of this slope rises over that distance. */
  function Climb(slope: real, distance: real): real {
    slope * distance
  }

  lemma ClimbSum(k: real, x: real, y: real, z: real)
    ensures Climb(k, y - x) + Climb(k, z - y) == Climb(k, z - x)
    ensures Climb(k, x - x) == 0.0 && Climb(0.0, x) == 0.0 && Climb(k, 1.0) == k
    ensures Climb(k, x - y) == -Climb(k, y - x)
  {
  }

  lemma ClimbDifference(s: real, k: real, d: real)
    ensures Climb(s - k, d) == Climb(s, d) - Climb(k, d)
  {
  }

  /** The sign of a product. */
  lemma ClimbSign(s: real, d: real)
    ensures s >= 0.0 && d >= 0.0 ==> Climb(s, d) >= 0.0
    ensures s >= 0.0 && d <= 0.0 ==> Climb(s, d) <= 0.0
    ensures s <= 0.0 && d >= 0.0 ==> Climb(s, d) <= 0.0
    ensures s < 0.0 && d > 0.0 ==> Climb(s, d) < 0.0
    ensures s > 0.0 && d > 0.0 ==> Climb(s, d) > 0.0
  {
    if s >= 0.0 && d >= 0.0 { Product(s, d); }
    if s >= 0.0 && d <= 0.0 { Product(s, -d); assert s * (-d) == -(s * d); }
    if s <= 0.0 && d >= 0.0 { Product(-s, d); assert (-s) * d == -(s * d); }
    if s < 0.0 && d > 0.0 { PositiveProduct(-s, d); assert (-s) * d == -(s * d); }
    if s > 0.0 && d > 0.0 { PositiveProduct(s, d); }
  }

  lemma SteeperClimbs(s: real, k: real, d: real)
    requires s <= k && d >= 0.0
    ensures Climb(s, d) <= Climb(k, d)
  {
    ClimbDifference(k, s, d);
    ClimbSign(k - s, d);
  }

  lemma ClimbBound(s: real, d: real, l: real)
    requires Abs(s) <= l && d >= 0.0
    ensures Abs(Climb(s, d)) <= Climb(l, d)
  {
    SteeperClimbs(s, l, d);
    SteeperClimbs(-l, s, d);
    ClimbDifference(0.0, l, d);
    ClimbSum(0.0, d, d, d);
    assert 0.0 - l == -l;
    hide Climb;
  }

  // ---------------------------------------------------------------- the shape of the threshold

  /** The three straight pieces. */
  function Line(rc: RestraintCharacteristic, i: nat, x: real): real {
    if i == 0 then rc.MinTrip
    else if i == 1 then rc.MinTrip + Climb(rc.Slope1, x - rc.Breakpoint1)
    else rc.MinTrip + Climb(rc.Slope1, rc.Breakpoint2 - rc.Breakpoint1) + Climb(rc.Slope2, x - rc.Breakpoint2)
  }

  function Piece(rc: RestraintCharacteristic, x: real): nat {
    if x <= rc.Breakpoint1 then 0 else if x <= rc.Breakpoint2 then 1 else 2
  }

  function SlopeOf(rc: RestraintCharacteristic, i: nat): real {
    if i == 0 then 0.0 else if i == 1 then rc.Slope1 else rc.Slope2
  }

  lemma OnLine(rc: RestraintCharacteristic, x: real)
    ensures rc.TripThreshold(x) == Line(rc, Piece(rc, x), x)
    ensures Line(rc, 0, x) == rc.MinTrip
  {
  }

  lemma Along(rc: RestraintCharacteristic, i: nat, x: real, y: real)
    ensures Line(rc, i, y) - Line(rc, i, x) == Climb(SlopeOf(rc, i), y - x)
  {
    hide Climb;
    var b := if i == 1 then rc.Breakpoint1 else rc.Breakpoint2;
    ClimbSum(SlopeOf(rc, i), b, x, y);
    ClimbSum(0.0, y - x, b, b);
  }

  lemma Step(rc: RestraintCharacteristic, i: nat, x: real, d: real)
    ensures Line(rc, i, x + d) == Line(rc, i, x) + Climb(SlopeOf(rc, i), d)
  {
    Along(rc, i, x, x + d);
    assert x + d - x == d;
    hide Climb, Line;
  }

  /** What the threshold jumps by just behind the first breakpoint when the breakpoints are not in order. */
  function Jump(rc: RestraintCharacteristic): real {
    if rc.Breakpoint1 <= rc.Breakpoint2 then 0.0
    else Climb(rc.Slope2 - rc.Slope1, rc.Breakpoint1 - rc.Breakpoint2)
  }

  /** Where the pieces meet. */
  lemma Joints(rc: RestraintCharacteristic)
    ensures Line(rc, 1, rc.Breakpoint1) == Line(rc, 0, rc.Breakpoint1) == rc.TripThreshold(rc.Breakpoint1) == rc.MinTrip
    ensures Line(rc, 1, rc.Breakpoint2) == Line(rc, 2, rc.Breakpoint2)
    ensures rc.Breakpoint1 > rc.Breakpoint2 ==> Line(rc, 2, rc.Breakpoint1) == rc.MinTrip + Jump(rc)
    ensures rc.Breakpoint1 == rc.Breakpoint2 ==> Line(rc, 2, rc.Breakpoint1) == rc.MinTrip
    ensures rc.Breakpoint1 <= rc.Breakpoint2 ==> rc.TripThreshold(rc.Breakpoint2) == Line(rc, 2, rc.Breakpoint2)
  {
    var b1, b2 := rc.Breakpoint1, rc.Breakpoint2;
    OnLine(rc, b1);
    OnLine(rc, b2);
    hide Climb, RestraintCharacteristic.TripThreshold;
    ClimbSum(rc.Slope1, b1, b2, b1);
    ClimbSum(rc.Slope1, b2, b1, b2);
    ClimbSum(rc.Slope2, b2, b2, b1);
    ClimbDifference(rc.Slope2, rc.Slope1, b1 - b2);
  }

  lemma JumpZero(rc: RestraintCharacteristic)
    ensures Jump(rc) == 0.0 <==> rc.Breakpoint1 <= rc.Breakpoint2 || rc.Slope1 == rc.Slope2
    ensures Jump(rc) >= 0.0 <==> rc.Breakpoint1 <= rc.Breakpoint2 || rc.Slope1 <= rc.Slope2
  {
    hide Climb;
    var d, s := rc.Breakpoint1 - rc.Breakpoint2, rc.Slope2 - rc.Slope1;
    ClimbSign(s, d);
    ClimbSum(0.0, d, d, d);
  }

  function Steepest(rc: RestraintCharacteristic): (l: real)
    ensures l >= 0.0 && Abs(rc.Slope1) <= l && Abs(rc.Slope2) <= l
  {
    if Abs(rc.Slope1) < Abs(rc.Slope2) then Abs(rc.Slope2) else Abs(rc.Slope1)
  }

  // ---------------------------------------------------------------- continuity

  /** Continuity in its strongest form: differences of the threshold are at most `l` times those of the restraint. */
  ghost predicate Lipschitz(rc: RestraintCharacteristic, l: real) {
    forall x, y :: x <= y ==> Close(rc, l, x, y)
  }

  ghost predicate Close(rc: RestraintCharacteristic, l: real, x: real, y: real) {
    Abs(rc.TripThreshold(y) - rc.TripThreshold(x)) <= Climb(l, y - x)
  }

  lemma CloseOnLine(rc: RestraintCharacteristic, i: nat, x: real, y: real)
    requires x <= y && rc.TripThreshold(x) == Line(rc, i, x) && rc.TripThreshold(y) == Line(rc, i, y)
    ensures Close(rc, Steepest(rc), x, y)
  {
    Along(rc, i, x, y);
    assert Abs(SlopeOf(rc, i)) <= Steepest(rc);
    hide RestraintCharacteristic.TripThreshold, Line, SlopeOf, Steepest, Climb;
    ClimbBound(SlopeOf(rc, i), y - x, Steepest(rc));
  }

  lemma CloseThrough(rc: RestraintCharacteristic, l: real, x: real, y: real, z: real)
    requires Close(rc, l, x, y) && Close(rc, l, y, z)
    ensures Close(rc, l, x, z)
  {
    hide RestraintCharacteristic.TripThreshold, Climb;
    ClimbSum(l, x, y, z);
  }

  /** One piece at a time, from `x` up to `y`. */
  lemma {:induction false} CloseEverywhere(rc: RestraintCharacteristic, x: real, y: real)
    requires x <= y && Jump(rc) == 0.0
    ensures Close(rc, Steepest(rc), x, y)
    decreases Piece(rc, y) - Piece(rc, x)
  {
    var l, b1, b2 := Steepest(rc), rc.Breakpoint1, rc.Breakpoint2;
    Joints(rc);
    OnLine(rc, x);
    OnLine(rc, y);
    JumpZero(rc);
    hide RestraintCharacteristic.TripThreshold, Line, Steepest, Jump, Close;
    if Piece(rc, x) == Piece(rc, y) {
      CloseOnLine(rc, Piece(rc, x), x, y);
    } else if x <= b1 {
      CloseOnLine(rc, 0, x, b1);
      if y <= b2 { CloseOnLine(rc, 1, b1, y); }
      else if b1 < b2 { CloseOnLine(rc, 1, b1, b2); CloseOnLine(rc, 2, b2, y); CloseThrough(rc, l, b1, b2, y); }
      else { CloseOnLine(rc, 2, b1, y); }
      CloseThrough(rc, l, x, b1, y);
    } else {
      CloseOnLine(rc, 1, x, b2);
      CloseOnLine(rc, 2, b2, y);
      CloseThrough(rc, l, x, b2, y);
    }
  }

  /** The threshold is continuous, with the steeper slope as its Lipschitz constant, exactly when the breakpoints are in
      order or the slopes agree; otherwise no constant will do. */
  lemma ContinuousIff(rc: RestraintCharacteristic)
    ensures (exists l :: Lipschitz(rc, l)) <==> rc.Breakpoint1 <= rc.Breakpoint2 || rc.Slope1 == rc.Slope2
    ensures rc.Breakpoint1 <= rc.Breakpoint2 ==> Lipschitz(rc, Steepest(rc))
  {
    JumpZero(rc);
    if Jump(rc) == 0.0 {
      forall x, y | x <= y ensures Close(rc, Steepest(rc), x, y) { CloseEverywhere(rc, x, y); }
      assert Lipschitz(rc, Steepest(rc));
    } else {
      forall l ensures !Lipschitz(rc, l) { NotClose(rc, l); }
    }
  }

  lemma NotClose(rc: RestraintCharacteristic, l: real)
    requires Jump(rc) != 0.0
    ensures !Lipschitz(rc, l)
  {
    var s, b := rc.Slope2, rc.Breakpoint1;
    var e := ShortStep(Jump(rc), Abs(l) + Abs(s));
    var y := b + e;
    Joints(rc);
    OnLine(rc, y);
    Step(rc, 2, b, e);
    hide RestraintCharacteristic.TripThreshold, Line, Jump, Climb;
    ClimbBound(s, e, Abs(s));
    ClimbBound(l, e, Abs(l));
    ClimbDifference(Abs(l) + Abs(s), Abs(l), e);
    assert Abs(l) + Abs(s) - Abs(l) == Abs(s);
    assert y - b == e;
    assert !Close(rc, l, b, y);
  }

  /** A step so short that not even a line of slope `k` climbs as far as `j` is from zero. */
  lemma ShortStep(j: real, k: real) returns (e: real)
    requires j != 0.0 && k >= 0.0
    ensures e > 0.0 && Climb(k, e) < Abs(j)
  {
    e := Abs(j) / (k + 1.0);
    assert e > 0.0 && (k + 1.0) * e == Abs(j);
    assert (k + 1.0) * e == k * e + e;
  }

  /** The threshold point by point: MinTrip up to the first breakpoint, then the first slope up to the second, then the
      second slope; with the breakpoints out of order the second slope follows the first breakpoint and the jump. */
  lemma ThresholdRises(rc: RestraintCharacteristic, x: real, y: real)
    requires x <= y
    ensures var b1, b2, t, u := rc.Breakpoint1, rc.Breakpoint2, rc.TripThreshold(x), rc.TripThreshold(y);
            && (y <= b1 ==> t == u == rc.MinTrip)
            && (b1 <= x && y <= b2 ==> u - t == rc.Slope1 * (y - x))
            && (b1 <= b2 <= x ==> u - t == rc.Slope2 * (y - x))
            && (b2 < b1 < x ==> u - t == rc.Slope2 * (y - x))
            && (b2 < b1 && x == b1 < y ==>
                  u - rc.MinTrip == (rc.Slope2 - rc.Slope1) * (b1 - b2) + rc.Slope2 * (y - b1))
  {
    OnLine(rc, x);
    OnLine(rc, y);
    Joints(rc);
    Along(rc, 1, x, y);
    Along(rc, 2, x, y);
    Along(rc, 2, rc.Breakpoint1, y);
    ClimbIs(rc.Slope1, y - x);
    ClimbIs(rc.Slope2, y - x);
    ClimbIs(rc.Slope2, y - rc.Breakpoint1);
    ClimbIs(rc.Slope2 - rc.Slope1, rc.Breakpoint1 - rc.Breakpoint2);
    hide RestraintCharacteristic.TripThreshold, Line, Climb;
    if rc.Breakpoint1 <= rc.Breakpoint2 <= x {
      assert rc.TripThreshold(x) == Line(rc, 2, x);
      assert rc.TripThreshold(y) == Line(rc, 2, y);
      assert SlopeOf(rc, 2) == rc.Slope2;
    }
  }

  lemma ClimbIs(s: real, d: real)
    ensures Climb(s, d) == s * d
  {
  }

  /** With the breakpoints in order and apart, the steeper slope is the least constant. */
  lemma LeastConstant(rc: RestraintCharacteristic, l: real)
    requires rc.Breakpoint1 < rc.Breakpoint2
    ensures Lipschitz(rc, l) <==> Steepest(rc) <= l
  {
    var b1, b2 := rc.Breakpoint1, rc.Breakpoint2;
    if Steepest(rc) <= l {
      forall x, y | x <= y ensures Close(rc, l, x, y) {
        CloseEverywhere(rc, x, y);
        SteeperClimbs(Steepest(rc), l, y - x);
        hide Climb, RestraintCharacteristic.TripThreshold;
      }
    }
    if Lipschitz(rc, l) {
      hide RestraintCharacteristic.TripThreshold, Climb;
      assert Close(rc, l, b1, b2);
      assert Close(rc, l, b2, b2 + 1.0);
      SlopesBelow(rc, l);
    }
  }

  lemma SlopesBelow(rc: RestraintCharacteristic, l: real)
    requires rc.Breakpoint1 < rc.Breakpoint2
    requires Close(rc, l, rc.Breakpoint1, rc.Breakpoint2) && Close(rc, l, rc.Breakpoint2, rc.Breakpoint2 + 1.0)
    ensures Steepest(rc) <= l
  {
    var b1, b2 := rc.Breakpoint1, rc.Breakpoint2;
    Joints(rc);
    OnLine(rc, b2 + 1.0);
    Along(rc, 1, b1, b2);
    Step(rc, 2, b2, 1.0);
    hide RestraintCharacteristic.TripThreshold, Line, Climb;
    SlopeBound(rc.Slope1, l, b2 - b1);
    SlopeBound(rc.Slope2, l, 1.0);
    assert b2 + 1.0 - b2 == 1.0;
  }

  lemma SlopeBound(s: real, l: real, d: real)
    requires d > 0.0
    ensures Abs(Climb(s, d)) <= Climb(l, d) ==> Abs(s) <= l
  {
    ClimbDifference(s, l, d);
    ClimbDifference(-s, l, d);
    ClimbSign(s - l, d);
    ClimbSign(-s - l, d);
    assert Climb(-s, d) == -Climb(s, d);
    hide Climb;
  }

  // ---------------------------------------------------------------- monotonicity

  ghost predicate Monotone(rc: RestraintCharacteristic) {
    forall x, y :: x <= y ==> rc.TripThreshold(x) <= rc.TripThreshold(y)
  }

  lemma RiseOnLine(rc: RestraintCharacteristic, i: nat, x: real, y: real)
    requires x <= y && SlopeOf(rc, i) >= 0.0
    ensures Line(rc, i, x) <= Line(rc, i, y)
  {
    Along(rc, i, x, y);
    hide Climb, Line;
    ClimbSign(SlopeOf(rc, i), y - x);
  }

  lemma Rises(rc: RestraintCharacteristic, x: real, y: real)
    requires x <= y && Jump(rc) >= 0.0 && rc.Slope2 >= 0.0 && (rc.Breakpoint1 < rc.Breakpoint2 ==> rc.Slope1 >= 0.0)
    ensures rc.TripThreshold(x) <= rc.TripThreshold(y)
  {
    var b1, b2 := rc.Breakpoint1, rc.Breakpoint2;
    Joints(rc);
    OnLine(rc, x);
    OnLine(rc, y);
    hide RestraintCharacteristic.TripThreshold, Line, Jump;
    if Piece(rc, x) == Piece(rc, y) {
      RiseOnLine(rc, Piece(rc, x), x, y);
    } else if x > b1 {
      RiseOnLine(rc, 1, x, b2);
      RiseOnLine(rc, 2, b2, y);
    } else if y <= b2 {
      RiseOnLine(rc, 1, b1, y);
    } else if b1 < b2 {
      RiseOnLine(rc, 1, b1, b2);
      RiseOnLine(rc, 2, b2, y);
    } else {
      RiseOnLine(rc, 2, b1, y);
    }
  }

  /** Exactly when more restraint never lowers the threshold. */
  lemma MonotoneIff(rc: RestraintCharacteristic)
    ensures Monotone(rc) <==>
      && rc.Slope2 >= 0.0
      && (rc.Breakpoint1 < rc.Breakpoint2 ==> rc.Slope1 >= 0.0)
      && (rc.Breakpoint1 > rc.Breakpoint2 ==> rc.Slope1 <= rc.Slope2)
  {
    var b1, b2 := rc.Breakpoint1, rc.Breakpoint2;
    JumpZero(rc);
    Joints(rc);
    if Jump(rc) >= 0.0 && rc.Slope2 >= 0.0 && (b1 < b2 ==> rc.Slope1 >= 0.0) {
      forall x, y | x <= y ensures rc.TripThreshold(x) <= rc.TripThreshold(y) { Rises(rc, x, y); }
    }
    if Monotone(rc) { MonotoneSlopes(rc); }
  }

  lemma MonotoneSlopes(rc: RestraintCharacteristic)
    requires Monotone(rc)
    ensures Jump(rc) >= 0.0 && rc.Slope2 >= 0.0 && (rc.Breakpoint1 < rc.Breakpoint2 ==> rc.Slope1 >= 0.0)
  {
    var b1, b2 := rc.Breakpoint1, rc.Breakpoint2;
    JumpZero(rc);
    Joints(rc);
    var top := if b1 <= b2 then b2 else b1;
    OnLine(rc, top + 1.0);
    OnLine(rc, top + 2.0);
    hide RestraintCharacteristic.TripThreshold, Line, Jump, Climb;
    assert rc.TripThreshold(top + 1.0) <= rc.TripThreshold(top + 2.0);
    Step(rc, 2, top + 1.0, 1.0);
    assert top + 1.0 + 1.0 == top + 2.0;
    ClimbSum(rc.Slope2, 0.0, 0.0, 0.0);
    if b1 < b2 {
      assert rc.TripThreshold(b1) <= rc.TripThreshold(b2);
      Along(rc, 1, b1, b2);
      ClimbSign(rc.Slope1, b2 - b1);
    }
    if Jump(rc) < 0.0 {
      var e := SmallStep(Jump(rc), rc.Slope2);
      assert rc.TripThreshold(b1) <= rc.TripThreshold(b1 + e);
      OnLine(rc, b1 + e);
      Step(rc, 2, b1, e);
    }
  }

  /** A step so short that a slope does not make up for a fall. */
  lemma SmallStep(j: real, s: real) returns (e: real)
    requires j < 0.0
    ensures e > 0.0 && j + Climb(s, e) < 0.0
  {
    e := ShortStep(j, Abs(s));
    SteeperClimbs(s, Abs(s), e);
    hide Climb;
  }

  // ---------------------------------------------------------------- convexity

  ghost predicate Convex(rc: RestraintCharacteristic) {
    forall x, y, t :: 0.0 <= t <= 1.0 ==> UnderChord(rc, x, y, t)
  }

  ghost predicate UnderChord(rc: RestraintCharacteristic, x: real, y: real, t: real) {
    rc.TripThreshold(Mix(t, x, y)) <= Mix(t, rc.TripThreshold(x), rc.TripThreshold(y))
  }

  function Mix(t: real, a: real, b: real): real {
    t * a + (1.0 - t) * b
  }

  ghost predicate Bends(rc: RestraintCharacteristic) {
    && 0.0 <= rc.Slope2
    && (rc.Breakpoint1 < rc.Breakpoint2 ==> 0.0 <= rc.Slope1 <= rc.Slope2)
    && (rc.Breakpoint1 > rc.Breakpoint2 ==> rc.Slope1 == rc.Slope2)
  }

  /** How far the lines are apart. */
  lemma Gaps(rc: RestraintCharacteristic, x: real)
    ensures Line(rc, 1, x) - Line(rc, 0, x) == Climb(rc.Slope1, x - rc.Breakpoint1)
    ensures Line(rc, 2, x) - Line(rc, 1, x) == Climb(rc.Slope2 - rc.Slope1, x - rc.Breakpoint2)
    ensures Bends(rc) && rc.Breakpoint1 >= rc.Breakpoint2 ==>
              Line(rc, 2, x) - Line(rc, 0, x) == Climb(rc.Slope2, x - rc.Breakpoint1)
  {
    hide Climb;
    var b1, b2 := rc.Breakpoint1, rc.Breakpoint2;
    ClimbSum(rc.Slope1, b1, b2, x);
    ClimbSum(rc.Slope1, b1, b1, x);
    ClimbDifference(rc.Slope2, rc.Slope1, x - b2);
  }

  /** The line of any piece in use lies nowhere above the threshold. */
  lemma LineBelow(rc: RestraintCharacteristic, i: nat, x: real)
    requires Bends(rc) && i <= 2 && (i == 1 ==> rc.Breakpoint1 < rc.Breakpoint2)
    ensures Line(rc, i, x) <= rc.TripThreshold(x)
  {
    OnLine(rc, x);
    Gaps(rc, x);
    hide RestraintCharacteristic.TripThreshold, Line, Climb;
    ClimbSign(rc.Slope1, x - rc.Breakpoint1);
    ClimbSign(rc.Slope2, x - rc.Breakpoint1);
    ClimbSign(rc.Slope2 - rc.Slope1, x - rc.Breakpoint2);
  }

  lemma Affine(rc: RestraintCharacteristic, i: nat, x: real, y: real, t: real)
    ensures Line(rc, i, Mix(t, x, y)) == Mix(t, Line(rc, i, x), Line(rc, i, y))
  {
    var z := Mix(t, x, y);
    Along(rc, i, y, z);
    Along(rc, i, y, x);
    hide Line;
    ClimbMix(SlopeOf(rc, i), t, x, y);
    MixFrom(t, Line(rc, i, x), Line(rc, i, y));
    hide Climb, Mix;
  }

  lemma ClimbMix(s: real, t: real, x: real, y: real)
    ensures Climb(s, Mix(t, x, y) - y) == Climb(t, Climb(s, x - y))
  {
    assert Mix(t, x, y) - y == t * (x - y);
    Associates(s, t, x - y);
  }

  lemma Associates(s: real, t: real, d: real)
    ensures s * (t * d) == t * (s * d)
  {
  }

  lemma MixFrom(t: real, a: real, b: real)
    ensures Mix(t, a, b) == b + Climb(t, a - b)
  {
  }

  lemma Chord(rc: RestraintCharacteristic, x: real, y: real, t: real)
    requires Bends(rc) && 0.0 <= t <= 1.0
    ensures UnderChord(rc, x, y, t)
  {
    var z := Mix(t, x, y);
    var i := Piece(rc, z);
    OnLine(rc, z);
    Affine(rc, i, x, y, t);
    LineBelow(rc, i, x);
    LineBelow(rc, i, y);
    Weighted(t, Line(rc, i, x), Line(rc, i, y), rc.TripThreshold(x), rc.TripThreshold(y));
    hide RestraintCharacteristic.TripThreshold, Line, Bends, Mix;
  }

  lemma Weighted(t: real, a: real, b: real, c: real, d: real)
    requires 0.0 <= t <= 1.0 && a <= c && b <= d
    ensures Mix(t, a, b) <= Mix(t, c, d)
  {
    MulBoth(t, 1.0 - t, a, b, c, d);
  }

  lemma MulBoth(t: real, u: real, a: real, b: real, c: real, d: real)
    requires t >= 0.0 && u >= 0.0 && a <= c && b <= d
    ensures t * a + u * b <= t * c + u * d
  {
    Product(t, c - a);
    Product(u, d - b);
    assert t * (c - a) == t * c - t * a && u * (d - b) == u * d - u * b;
  }

  lemma Midpoint(rc: RestraintCharacteristic, x: real, d: real)
    requires Convex(rc)
    ensures 2.0 * rc.TripThreshold(x) <= rc.TripThreshold(x - d) + rc.TripThreshold(x + d)
  {
    assert UnderChord(rc, x - d, x + d, 0.5);
    assert Mix(0.5, x - d, x + d) == x;
  }

  /** Exactly when the characteristic is convex: with the breakpoints in order, when the slopes are ordered and not
      negative. */
  lemma ConvexIff(rc: RestraintCharacteristic)
    ensures Convex(rc) <==> Bends(rc)
  {
    if Bends(rc) {
      forall x, y, t | 0.0 <= t <= 1.0 ensures UnderChord(rc, x, y, t) { Chord(rc, x, y, t); }
    }
    if Convex(rc) { ConvexBends(rc); }
  }

  lemma ConvexBends(rc: RestraintCharacteristic)
    requires Convex(rc)
    ensures Bends(rc)
  {
    var b1, b2 := rc.Breakpoint1, rc.Breakpoint2;
    Joints(rc);
    JumpZero(rc);
    hide RestraintCharacteristic.TripThreshold, Line, Jump, Climb;
    if b1 < b2 {
      var d := b2 - b1;
      Midpoint(rc, b1, d);
      Midpoint(rc, b2, d);
      OnLine(rc, b1 - d);
      OnLine(rc, b2 + d);
      Step(rc, 1, b1, d);
      Step(rc, 2, b2, d);
      ClimbSign(rc.Slope1, d);
      ClimbDifference(rc.Slope2, rc.Slope1, d);
      ClimbSign(rc.Slope2 - rc.Slope1, d);
      assert b1 + d == b2 && b2 - d == b1;
    } else {
      AboveBoth(rc);
      if Jump(rc) < 0.0 {
        var e := SmallStep(Jump(rc), rc.Slope2);
        OnLine(rc, b1 - e);
        OnLine(rc, b1 + e);
        Step(rc, 2, b1, e);
        Midpoint(rc, b1, e);
      }
    }
  }

  /** Around and behind the first breakpoint, when no middle piece is in use. */
  lemma AboveBoth(rc: RestraintCharacteristic)
    requires Convex(rc) && rc.Breakpoint1 >= rc.Breakpoint2
    ensures Jump(rc) <= 0.0 <= Jump(rc) + rc.Slope2
  {
    var b := rc.Breakpoint1;
    Joints(rc);
    OnLine(rc, b - 1.0);
    OnLine(rc, b + 1.0);
    OnLine(rc, b + 2.0);
    Step(rc, 2, b, 1.0);
    Step(rc, 2, b, 2.0);
    Midpoint(rc, b, 1.0);
    Midpoint(rc, b + 1.0, 1.0);
    assert b + 1.0 - 1.0 == b && b + 1.0 + 1.0 == b + 2.0;
    ClimbSum(rc.Slope2, 0.0, 1.0, 2.0);
    hide RestraintCharacteristic.TripThreshold, Line, Jump, Climb;
  }

  /** The threshold of the default settings is not the default characteristic: the two give the same decisions on a
      restraint quantity exactly when it is at most 1.5, where the settings have their second breakpoint. */
  lemma DefaultsAgreeIff(ires: real)
    ensures (forall idiff :: CheckBiasedRestraint(idiff, ires, DEFAULT_SETTINGS).0 == DEFAULT.CheckRestraint(idiff, ires).0)
            <==> ires <= 1.5
  {
    var s := RestraintCharacteristic(0.5, 1.5, 0.3, 0.5, 0.2);
    var a, b := s.TripThreshold(ires), DEFAULT.TripThreshold(ires);
    if ires > 1.5 {
      assert CheckBiasedRestraint(a, ires, DEFAULT_SETTINGS).0 != DEFAULT.CheckRestraint(a, ires).0;
    }
  }

  /** The characteristic every protection starts with is continuous, monotone and convex. */
  lemma DefaultShape()
    ensures Lipschitz(DEFAULT, 0.5) && Monotone(DEFAULT) && Convex(DEFAULT)
    ensures DEFAULT.TripThreshold(0.5) == 0.2 && DEFAULT.TripThreshold(2.0) == 0.65 && DEFAULT.TripThreshold(4.0) == 1.65
  {
    assert Steepest(DEFAULT) == 0.5;
    ContinuousIff(DEFAULT);
    MonotoneIff(DEFAULT);
    ConvexIff(DEFAULT);
  }
}
