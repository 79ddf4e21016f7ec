/** The overcurrent scheme of `BuildOverCurrentProtection`, built by `AddNode` and `AddEdge` as the gateway
    does, and its interlock: when an evaluation trips the breakers. */
module Interlock {
  import opened LogicModel
  import opened Evaluation
  import Runs
  import Edges
  import Lockouts

  // ---------------------------------------------------------------- the scheme

  datatype Edge = Edge(from: string, to: string)

  ghost function Plain(kind: NodeType, name: string): NodeDef {
    NodeDef(kind, name, 0, 0, false, "", [], [])
  }

  ghost function TimerDef(name: string, delayOnMs: int): NodeDef {
    NodeDef(Timer, name, delayOnMs * 1000000, 0, false, "", [], [])
  }

  ghost function TripDef(name: string, device: string): NodeDef {
    NodeDef(Output, name, 0, 0, true, device, [], [])
  }

  ghost const SCHEME: map<string, NodeDef> := map[
    "in_i_start" := Plain(Input, "过流启动"),
    "in_i1_oper" := Plain(Input, "I段动作"),
    "in_i2_oper" := Plain(Input, "II段动作"),
    "in_i3_oper" := Plain(Input, "III段动作"),
    "in_lockout" := Plain(Input, "闭锁信号"),
    "not_lockout" := Plain(Not, "非闭锁"),
    "trip_enable" := Plain(And, "跳闸使能"),
    "timer_I" := TimerDef("I段延时", 0),
    "timer_II" := TimerDef("II段延时", 500),
    "timer_III" := TimerDef("III段延时", 1500),
    "trip_or" := Plain(Or, "跳闸条件或"),
    "trip_final" := Plain(And, "最终跳闸"),
    "out_trip_A" := TripDef("A相跳闸", "breaker_A"),
    "out_trip_B" := TripDef("B相跳闸", "breaker_B"),
    "out_trip_C" := TripDef("C相跳闸", "breaker_C")]

  ghost const EDGES: seq<Edge> := [
    Edge("in_lockout", "not_lockout"),
    Edge("in_i_start", "trip_enable"),
    Edge("not_lockout", "trip_enable"),
    Edge("in_i1_oper", "timer_I"),
    Edge("in_i2_oper", "timer_II"),
    Edge("in_i3_oper", "timer_III"),
    Edge("timer_I", "trip_or"),
    Edge("timer_II", "trip_or"),
    Edge("timer_III", "trip_or"),
    Edge("trip_enable", "trip_final"),
    Edge("trip_or", "trip_final"),
    Edge("trip_final", "out_trip_A"),
    Edge("trip_final", "out_trip_B"),
    Edge("trip_final", "out_trip_C")]

  ghost function Connect(g: Graph, edges: seq<Edge>): Graph {
    if edges == [] then g
    else
      var n := |edges| - 1;
      Edges.AddEdge(Connect(g, edges[..n]), edges[n].from, edges[n].to)
  }

  ghost function InEdges(edges: seq<Edge>, to: string): seq<string> {
    if edges == [] then []
    else
      var n := |edges| - 1;
      InEdges(edges[..n], to) + if edges[n].to == to then [edges[n].from] else []
  }

  /** Connecting edges keeps node parameters and appends the sources of each node in edge order. */
  lemma {:induction false} ConnectInputs(g: Graph, edges: seq<Edge>, id: string)
    requires WellFormed(g) && id in g && forall e | e in edges :: e.from in g && e.to in g
    ensures var g' := Connect(g, edges);
            && WellFormed(g') && g'.Keys == g.Keys
            && g'[id].inputs == g[id].inputs + InEdges(edges, id)
            && g'[id] == g[id].(inputs := g'[id].inputs, outputs := g'[id].outputs)
  {
    if edges != [] {
      var n := |edges| - 1;
      ConnectInputs(g, edges[..n], id);
      var g1 := Connect(g, edges[..n]);
      assert edges[n] in edges;
      Edges.AddEdgeKeeps(g1, edges[n].from, edges[n].to);
      Edges.AddEdgeAt(g1, edges[n].from, edges[n].to, id);
    }
  }

  lemma {:induction false} InEdgesMember(edges: seq<Edge>, to: string, i: string)
    ensures i in InEdges(edges, to) <==> Edge(i, to) in edges
  {
    if edges != [] {
      var n := |edges| - 1;
      InEdgesMember(edges[..n], to, i);
      assert edges == edges[..n] + [edges[n]];
    }
  }

  ghost const OVERCURRENT: Graph := Connect(SCHEME, EDGES)

  /** `i` feeds `id` in the built graph exactly when the scheme has that edge. */
  lemma SchemeNode(id: string, i: string)
    requires id in SCHEME
    ensures WellFormed(OVERCURRENT) && OVERCURRENT.Keys == SCHEME.Keys
    ensures i in OVERCURRENT[id].inputs <==> Edge(i, id) in EDGES
    ensures OVERCURRENT[id] == SCHEME[id].(inputs := OVERCURRENT[id].inputs, outputs := OVERCURRENT[id].outputs)
  {
    SchemeIsLegal();
    hide SCHEME, EDGES;
    ConnectInputs(SCHEME, EDGES, id);
    InEdgesMember(EDGES, id, i);
  }

  lemma SchemeIsLegal()
    ensures WellFormed(SCHEME)
    ensures forall e | e in EDGES :: e.from in SCHEME && e.to in SCHEME
    ensures forall id | id in SCHEME :: SCHEME[id].inputs == [] && SCHEME[id].outputs == []
  {
    forall id | id in SCHEME ensures SCHEME[id].inputs == [] && SCHEME[id].outputs == [] {}
    forall a, b | a in SCHEME && b in SCHEME ensures MirroredAt(SCHEME, a, b) {}
  }

  // ---------------------------------------------------------------- gates by the set of their sources

  ghost predicate TimerValue(d: NodeDef, input: bool, own: bool, value: bool) {
    value == if input then d.delayOn <= 0 || own else d.delayOff > 0 && own
  }

  /** What the node equation says when only the set of sources is known. */
  lemma GateBySources(g: Graph, pre: State, v: Valuation, id: string)
    requires StateOf(g, pre) && Solves(g, pre, v) && id in g && g[id].inputs != []
    ensures forall i | i in g[id].inputs :: i in v
    ensures g[id].kind == And ==> (v[id] <==> forall i | i in g[id].inputs :: v[i])
    ensures g[id].kind == Or ==> (v[id] <==> exists i :: i in g[id].inputs && v[i])
    ensures g[id].kind == Not ==> exists i :: i in g[id].inputs && v[id] == !v[i]
    ensures g[id].kind == Output ==> exists i :: i in g[id].inputs && v[id] == v[i]
    ensures g[id].kind == Timer ==> exists i :: i in g[id].inputs && TimerValue(g[id], v[i], pre[id].value, v[id])
  {
    var d := g[id];
    assert NodeEquation(g, pre, v, id);
    var vals := Sources(d, v);
    assert d.inputs[0] in d.inputs && vals[0] == v[d.inputs[0]];
    if d.kind == And && !v[id] {
      var k :| 0 <= k < |vals| && !vals[k];
      assert d.inputs[k] in d.inputs;
    }
    if d.kind == Or && v[id] {
      var k :| 0 <= k < |vals| && vals[k];
      assert d.inputs[k] in d.inputs;
    }
    if i :| d.kind == And && i in d.inputs && !v[i] {
      var k :| 0 <= k < |d.inputs| && d.inputs[k] == i;
      assert !vals[k];
    }
    if i :| d.kind == Or && i in d.inputs && v[i] {
      var k :| 0 <= k < |d.inputs| && d.inputs[k] == i;
      assert vals[k];
    }
  }

  ghost predicate Solution(pre: State, v: Valuation) {
    StateOf(OVERCURRENT, pre) && Solves(OVERCURRENT, pre, v)
  }

  /** The node equations of the built scheme, read off its edge list. */
  lemma SchemeValue(pre: State, v: Valuation, id: string, sources: set<string>)
    requires Solution(pre, v) && id in SCHEME && sources != {}
    requires forall i :: Edge(i, id) in EDGES <==> i in sources
    ensures id in v && sources <= v.Keys && id in pre
    ensures SCHEME[id].kind == And ==> (v[id] <==> forall i | i in sources :: v[i])
    ensures SCHEME[id].kind == Or ==> (v[id] <==> exists i :: i in sources && v[i])
    ensures SCHEME[id].kind == Not ==> exists i :: i in sources && v[id] == !v[i]
    ensures SCHEME[id].kind == Output ==> exists i :: i in sources && v[id] == v[i]
    ensures SCHEME[id].kind == Timer ==> exists i :: i in sources && TimerValue(SCHEME[id], v[i], pre[id].value, v[id])
  {
    hide SCHEME, EDGES, OVERCURRENT;
    var s :| s in sources;
    SchemeNode(id, s);
    forall i ensures i in OVERCURRENT[id].inputs <==> i in sources { SchemeNode(id, i); }
    GateBySources(OVERCURRENT, pre, v, id);
  }

  lemma InputValue(pre: State, v: Valuation, id: string)
    requires Solution(pre, v) && id in SCHEME && SCHEME[id].kind == Input
    ensures id in v && id in pre && v[id] == pre[id].value
  {
    hide SCHEME, EDGES, OVERCURRENT;
    SchemeNode(id, id);
    assert NodeEquation(OVERCURRENT, pre, v, id);
  }

  lemma NotLockoutValue(pre: State, v: Valuation)
    requires Solution(pre, v)
    ensures {"not_lockout", "in_lockout"} <= v.Keys
    ensures v["not_lockout"] == !v["in_lockout"]
  {
    hide Solution, OVERCURRENT;
    SchemeValue(pre, v, "not_lockout", {"in_lockout"});
  }

  lemma EnableValue(pre: State, v: Valuation)
    requires Solution(pre, v)
    ensures {"trip_enable", "in_i_start", "not_lockout"} <= v.Keys
    ensures v["trip_enable"] == (v["in_i_start"] && v["not_lockout"])
  {
    hide Solution, OVERCURRENT;
    SchemeValue(pre, v, "trip_enable", {"in_i_start", "not_lockout"});
  }

  lemma TimerOneValue(pre: State, v: Valuation)
    requires Solution(pre, v)
    ensures {"timer_I", "in_i1_oper"} <= v.Keys
    ensures v["timer_I"] == v["in_i1_oper"]
  {
    hide Solution, OVERCURRENT;
    SchemeValue(pre, v, "timer_I", {"in_i1_oper"});
  }

  lemma TimerTwoValue(pre: State, v: Valuation)
    requires Solution(pre, v)
    ensures {"timer_II", "in_i2_oper"} <= v.Keys && "timer_II" in pre
    ensures v["timer_II"] == (v["in_i2_oper"] && pre["timer_II"].value)
  {
    hide Solution, OVERCURRENT;
    SchemeValue(pre, v, "timer_II", {"in_i2_oper"});
  }

  lemma TimerThreeValue(pre: State, v: Valuation)
    requires Solution(pre, v)
    ensures {"timer_III", "in_i3_oper"} <= v.Keys && "timer_III" in pre
    ensures v["timer_III"] == (v["in_i3_oper"] && pre["timer_III"].value)
  {
    hide Solution, OVERCURRENT;
    SchemeValue(pre, v, "timer_III", {"in_i3_oper"});
  }

  lemma OrValue(pre: State, v: Valuation)
    requires Solution(pre, v)
    ensures {"trip_or", "timer_I", "timer_II", "timer_III"} <= v.Keys
    ensures v["trip_or"] == (v["timer_I"] || v["timer_II"] || v["timer_III"])
  {
    hide Solution, OVERCURRENT;
    SchemeValue(pre, v, "trip_or", {"timer_I", "timer_II", "timer_III"});
  }

  lemma FinalValue(pre: State, v: Valuation)
    requires Solution(pre, v)
    ensures {"trip_final", "trip_enable", "trip_or"} <= v.Keys
    ensures v["trip_final"] == (v["trip_enable"] && v["trip_or"])
  {
    hide Solution, OVERCURRENT;
    SchemeValue(pre, v, "trip_final", {"trip_enable", "trip_or"});
  }

  lemma OutValue(pre: State, v: Valuation, out: string)
    requires Solution(pre, v) && (out == "out_trip_A" || out == "out_trip_B" || out == "out_trip_C")
    ensures {out, "trip_final"} <= v.Keys && v[out] == v["trip_final"]
  {
    OutEdges(out);
    hide Solution, OVERCURRENT, EDGES;
    SchemeValue(pre, v, out, {"trip_final"});
  }

  lemma OutEdges(out: string)
    requires out == "out_trip_A" || out == "out_trip_B" || out == "out_trip_C"
    ensures forall i :: Edge(i, out) in EDGES <==> i == "trip_final"
  {
  }

  lemma InputValues(pre: State, v: Valuation)
    requires Solution(pre, v)
    ensures INPUTS <= pre.Keys && INPUTS <= v.Keys
    ensures forall id | id in INPUTS :: v[id] == pre[id].value
  {
    hide Solution, OVERCURRENT;
    forall id | id in INPUTS ensures id in v && id in pre && v[id] == pre[id].value { InputValue(pre, v, id); }
  }

  ghost const INPUTS: set<string> := {"in_i_start", "in_i1_oper", "in_i2_oper", "in_i3_oper", "in_lockout"}

  /** When an evaluation in state `pre` trips: the start signal without lockout, and either stage I
      or a delayed stage whose timer was already true. */
  ghost predicate Trips(pre: State)
    requires INPUTS + {"timer_II", "timer_III"} <= pre.Keys
  {
    && pre["in_i_start"].value
    && !pre["in_lockout"].value
    && (pre["in_i1_oper"].value
        || (pre["in_i2_oper"].value && pre["timer_II"].value)
        || (pre["in_i3_oper"].value && pre["timer_III"].value))
  }

  lemma TripValue(pre: State, v: Valuation, out: string)
    requires Solution(pre, v) && (out == "out_trip_A" || out == "out_trip_B" || out == "out_trip_C")
    ensures out in v && INPUTS + {"timer_II", "timer_III"} <= pre.Keys
    ensures v[out] == Trips(pre)
  {
    hide Solution, OVERCURRENT, SCHEME, EDGES;
    InputValues(pre, v);
    NotLockoutValue(pre, v);
    EnableValue(pre, v);
    TimerOneValue(pre, v);
    TimerTwoValue(pre, v);
    TimerThreeValue(pre, v);
    OrValue(pre, v);
    FinalValue(pre, v);
    OutValue(pre, v, out);
  }

  // ---------------------------------------------------------------- main results

  ghost function TripSignalOf(out: string, device: string, start: int): TripSignal
    requires out in SCHEME
  {
    TripSignal(device, out, SCHEME[out].name, start)
  }

  ghost function AllTrips(start: int): multiset<TripSignal> {
    multiset{TripSignalOf("out_trip_A", "breaker_A", start), TripSignalOf("out_trip_B", "breaker_B", start),
             TripSignalOf("out_trip_C", "breaker_C", start)}
  }

  /** The only trip outputs of the scheme are the three breakers. */
  lemma OnlyBreakersTrip(id: string)
    requires id in SCHEME && SCHEME[id].kind == Output
    ensures id == "out_trip_A" || id == "out_trip_B" || id == "out_trip_C"
    ensures SCHEME[id].tripOutput
  {
  }

  lemma AllTripsCount(start: int, t: TripSignal)
    ensures AllTrips(start)[t] ==
            if t.nodeId in SCHEME && SCHEME[t.nodeId].kind == Output && t == TripOf(SCHEME, t.nodeId, start) then 1 else 0
  {
    if t.nodeId in SCHEME && SCHEME[t.nodeId].kind == Output { OnlyBreakersTrip(t.nodeId); }
  }

  /** One evaluation of the scheme, from any state, in any order, at any time: it emits one signal for each
      of the breakers A, B and C when `Trips` holds of the state it starts from, and none otherwise. */
  lemma TripsAllOrNone(pre: State, order: seq<string>, start: int, now: string -> int)
    requires StateOf(OVERCURRENT, pre) && EvaluationOrder(OVERCURRENT, order)
    ensures INPUTS + {"timer_II", "timer_III"} <= pre.Keys
    ensures multiset(Pass(OVERCURRENT, pre, order, start, now).trips) == if Trips(pre) then AllTrips(start) else multiset{}
  {
    hide SCHEME, EDGES, OVERCURRENT;
    var r := Pass(OVERCURRENT, pre, order, start, now);
    var v := Values(r.st);
    PassSolves(OVERCURRENT, pre, order, start, now);
    PassReports(OVERCURRENT, pre, order, start, now);
    TripValue(pre, v, "out_trip_A");
    forall t: TripSignal
      ensures multiset(r.trips)[t] == (if Trips(pre) then AllTrips(start) else multiset{})[t]
    {
      TripListCount(OVERCURRENT, v, order, start, t);
      AllTripsCount(start, t);
      TripCount(pre, v, order, t.nodeId);
    }
  }

  lemma TripCount(pre: State, v: Valuation, order: seq<string>, id: string)
    requires Solution(pre, v) && EvaluationOrder(OVERCURRENT, order)
    ensures INPUTS + {"timer_II", "timer_III"} <= pre.Keys && OVERCURRENT.Keys == SCHEME.Keys
    ensures id in order && Fires(OVERCURRENT[id], v[id]) <==> id in SCHEME && SCHEME[id].kind == Output && Trips(pre)
    ensures id in SCHEME ==> forall start :: TripOf(OVERCURRENT, id, start) == TripOf(SCHEME, id, start)
  {
    hide SCHEME, EDGES, OVERCURRENT;
    TripValue(pre, v, "out_trip_A");
    SchemeKeys();
    if id in SCHEME {
      SchemeNode(id, id);
      if SCHEME[id].kind == Output {
        OnlyBreakersTrip(id);
        TripValue(pre, v, id);
      }
    }
  }

  lemma SchemeKeys()
    ensures OVERCURRENT.Keys == SCHEME.Keys
  {
    SchemeNode("trip_or", "trip_or");
  }

  /** Interlock over whole runs from fresh nodes, whatever inputs, evaluations, resets and clock readings came
      before: the delayed stages never contribute, and an evaluation trips exactly on start, no lockout, stage I. */
  lemma InterlockHolds(order: seq<string>, initial: State, run: seq<Runs.Event>, start: int, now: string -> int)
    requires StateOf(OVERCURRENT, initial) && EvaluationOrder(OVERCURRENT, order) && Runs.Fresh(initial)
    ensures var st := Runs.Run(OVERCURRENT, order, initial, run);
            && INPUTS <= st.Keys
            && multiset(Pass(OVERCURRENT, st, order, start, now).trips)
               == if st["in_i_start"].value && !st["in_lockout"].value && st["in_i1_oper"].value
                  then AllTrips(start) else multiset{}
  {
    SchemeTimers();
    hide SCHEME, EDGES, OVERCURRENT, Runs.Run;
    var st := Runs.Run(OVERCURRENT, order, initial, run);
    TripsAllOrNone(st, order, start, now);
    Runs.TimerNeverRises(OVERCURRENT, order, initial, run, "timer_II");
    Runs.TimerNeverRises(OVERCURRENT, order, initial, run, "timer_III");
  }

  /** End to end: after any run from fresh nodes and with any lockout table, dispatch delivers a trip to a breaker
      exactly when start, no lockout signal and stage I hold and the breaker itself is not locked out. */
  lemma BreakerTripsIff(order: seq<string>, initial: State, run: seq<Runs.Event>, start: int, now: string -> int,
                        t: Lockouts.Table, out: string, device: string)
    requires StateOf(OVERCURRENT, initial) && EvaluationOrder(OVERCURRENT, order) && Runs.Fresh(initial)
    requires (out, device) in {("out_trip_A", "breaker_A"), ("out_trip_B", "breaker_B"), ("out_trip_C", "breaker_C")}
    ensures var st := Runs.Run(OVERCURRENT, order, initial, run);
            var trips := Pass(OVERCURRENT, st, order, start, now).trips;
            && INPUTS <= st.Keys && out in SCHEME
            && (TripSignalOf(out, device, start) in Lockouts.Passed(t, trips) <==>
                  st["in_i_start"].value && !st["in_lockout"].value && st["in_i1_oper"].value
                  && !Lockouts.LockedOut(t, device))
  {
    BreakerSignal(out, device, start);
    hide SCHEME, EDGES, OVERCURRENT, Runs.Run, AllTrips, LogicModel.Pass;
    InterlockHolds(order, initial, run, start, now);
    var st := Runs.Run(OVERCURRENT, order, initial, run);
    var trips := Pass(OVERCURRENT, st, order, start, now).trips;
    var x := TripSignalOf(out, device, start);
    Lockouts.PassedCount(t, trips, x);
    assert x in Lockouts.Passed(t, trips) <==> multiset(Lockouts.Passed(t, trips))[x] > 0;
  }

  lemma BreakerSignal(out: string, device: string, start: int)
    requires (out, device) in {("out_trip_A", "breaker_A"), ("out_trip_B", "breaker_B"), ("out_trip_C", "breaker_C")}
    ensures out in SCHEME && AllTrips(start)[TripSignalOf(out, device, start)] == 1
  {
    AllTripsCount(start, TripSignalOf(out, device, start));
  }

  lemma SchemeTimers()
    ensures "timer_II" in OVERCURRENT && "timer_III" in OVERCURRENT
    ensures OVERCURRENT["timer_II"].kind == Timer && OVERCURRENT["timer_II"].delayOn > 0
    ensures OVERCURRENT["timer_III"].kind == Timer && OVERCURRENT["timer_III"].delayOn > 0
  {
    hide EDGES, OVERCURRENT;
    SchemeNode("timer_II", "timer_II");
    SchemeNode("timer_III", "timer_III");
  }

  /** Inputs are at level 0, stage timers at 1, gates at 2, the final gate at 3, outputs at 4. */
  ghost function Level(id: string): int {
    if id !in SCHEME then 0
    else if id == "trip_final" then 3
    else match SCHEME[id].kind
         case Input => 0
         case Output => 4
         case And => 2
         case Or => 2
         case _ => 1
  }

  lemma EdgeRaisesLevel(k: nat)
    requires k < |EDGES|
    ensures Level(EDGES[k].from) < Level(EDGES[k].to)
  {
  }

  lemma {:induction false} WalkRaisesLevel(p: seq<string>, k: nat)
    requires Cycle(OVERCURRENT, p) && k < |p|
    ensures Level(p[0]) + k <= Level(p[k])
  {
    hide SCHEME, EDGES, OVERCURRENT, Level;
    if k > 0 {
      WalkRaisesLevel(p, k - 1);
      SchemeKeys();
      assert p[k - 1 + 1] == p[k];
      SchemeNode(p[k], p[k - 1]);
      var j :| 0 <= j < |EDGES| && EDGES[j] == Edge(p[k - 1], p[k]);
      EdgeRaisesLevel(j);
    }
  }

  /** The scheme has no cycle, so `BuildTopology` succeeds on it. */
  lemma SchemeIsAcyclic()
    ensures OVERCURRENT != map[] && WellFormed(OVERCURRENT) && Acyclic(OVERCURRENT)
  {
    SchemeKeys();
    SchemeNode("trip_or", "trip_or");
    hide OVERCURRENT, Level;
    forall p: seq<string> ensures !Cycle(OVERCURRENT, p) {
      if Cycle(OVERCURRENT, p) { WalkRaisesLevel(p, |p| - 1); }
    }
  }
}
