/** Whole runs of a fixed graph: any sequence of input changes, evaluations and latch resets,
    with any clock readings. What latches and timers remember across a run. */
module Runs {
  import opened LogicModel
  import opened Evaluation
  import Topology

  datatype Event =
    | SetInput(id: string, value: bool, at: int)
    | Evaluate(start: int, now: string -> int)
    | Reset

  ghost function Step(g: Graph, order: seq<string>, st: State, e: Event): (st': State)
    requires StateOf(g, st) && EvaluationOrder(g, order)
    ensures StateOf(g, st')
  {
    match e
    case SetInput(id, value, at) => LogicModel.SetInput(g, st, id, value, at)
    case Evaluate(start, now) => Pass(g, st, order, start, now).st
    case Reset => ResetLatches(g, st)
  }

  ghost function Run(g: Graph, order: seq<string>, st: State, run: seq<Event>): (st': State)
    requires StateOf(g, st) && EvaluationOrder(g, order)
    ensures StateOf(g, st')
  {
    if run == [] then st else Step(g, order, Run(g, order, st, run[..|run| - 1]), run[|run| - 1])
  }

  /** All nodes as `NewLogicNode` makes them. */
  ghost predicate Fresh(st: State) {
    forall id | id in st :: !st[id].value && !st[id].latched
  }

  // ---------------------------------------------------------------- one step, one node

  lemma StepLatch(g: Graph, order: seq<string>, st: State, e: Event, id: string)
    requires StateOf(g, st) && EvaluationOrder(g, order) && id in g && g[id].kind == Latch && |g[id].inputs| > 0
    requires st[id].value == st[id].latched
    ensures var st' := Step(g, order, st, e);
            st'[id].value == st'[id].latched ==
            match e
            case SetInput(_, _, _) => st[id].value
            case Evaluate(_, _) => st[id].value || FirstInput(g, st', id)
            case Reset => false
  {
    if e.Evaluate? {
      LatchAfterPass(g, st, order, e.start, e.now, id);
      PassNode(g, st, order, e.start, e.now, id);
    }
  }

  lemma StepTimer(g: Graph, order: seq<string>, st: State, e: Event, id: string)
    requires StateOf(g, st) && EvaluationOrder(g, order) && id in g && g[id].kind == Timer
    ensures var st' := Step(g, order, st, e);
            st'[id].value ==
            if e.Evaluate? && |g[id].inputs| == 0 then false
            else if e.Evaluate? then
              (if FirstInput(g, st', id) then g[id].delayOn <= 0 || st[id].value
               else g[id].delayOff > 0 && st[id].value)
            else st[id].value
  {
    if e.Evaluate? { PassNode(g, st, order, e.start, e.now, id); }
  }

  // ---------------------------------------------------------------- latches

  ghost predicate FirstInput(g: Graph, st: State, id: string)
    requires StateOf(g, st) && id in g && |g[id].inputs| > 0
  {
    assert g[id].inputs[0] in g[id].inputs;
    st[g[id].inputs[0]].value
  }

  /** Event `k` of the run is an evaluation, and it left the node's first input at `v`. */
  ghost predicate SeenAt(g: Graph, order: seq<string>, st: State, run: seq<Event>, id: string, k: nat, v: bool)
    requires StateOf(g, st) && EvaluationOrder(g, order) && id in g && |g[id].inputs| > 0 && k < |run|
  {
    run[k].Evaluate? && FirstInput(g, Run(g, order, st, run[..k + 1]), id) == v
  }

  lemma SeenBefore(g: Graph, order: seq<string>, st: State, run: seq<Event>, id: string, k: nat, n: nat, v: bool)
    requires StateOf(g, st) && EvaluationOrder(g, order) && id in g && |g[id].inputs| > 0 && k < n <= |run|
    ensures SeenAt(g, order, st, run[..n], id, k, v) == SeenAt(g, order, st, run, id, k, v)
  {
    assert run[..n][..k + 1] == run[..k + 1];
  }

  ghost predicate NoResetAfter(run: seq<Event>, k: int) {
    forall j | k < j < |run| :: 0 <= j ==> !run[j].Reset?
  }

  ghost predicate TriggeredSinceReset(g: Graph, order: seq<string>, st: State, run: seq<Event>, id: string)
    requires StateOf(g, st) && EvaluationOrder(g, order) && id in g && |g[id].inputs| > 0
  {
    exists k :: 0 <= k < |run| && SeenAt(g, order, st, run, id, k, true) && NoResetAfter(run, k)
  }

  lemma TriggeredStep(g: Graph, order: seq<string>, st: State, run: seq<Event>, id: string)
    requires StateOf(g, st) && EvaluationOrder(g, order) && id in g && |g[id].inputs| > 0 && run != []
    ensures var n := |run| - 1;
            TriggeredSinceReset(g, order, st, run, id) <==>
              SeenAt(g, order, st, run, id, n, true)
              || (!run[n].Reset? && TriggeredSinceReset(g, order, st, run[..n], id))
  {
    hide EvaluationOrder, StateOf, Run;
    var n := |run| - 1;
    if TriggeredSinceReset(g, order, st, run, id) {
      var k :| 0 <= k < |run| && SeenAt(g, order, st, run, id, k, true) && NoResetAfter(run, k);
      if k < n {
        SeenBefore(g, order, st, run, id, k, n, true);
        assert NoResetAfter(run[..n], k);
      }
    }
    if SeenAt(g, order, st, run, id, n, true) {
      assert NoResetAfter(run, n);
    }
    if !run[n].Reset? && TriggeredSinceReset(g, order, st, run[..n], id) {
      var k :| 0 <= k < n && SeenAt(g, order, st, run[..n], id, k, true) && NoResetAfter(run[..n], k);
      SeenBefore(g, order, st, run, id, k, n, true);
      assert NoResetAfter(run, k) by {
        forall j | k < j < |run| ensures !run[j].Reset? { if j < n { assert run[..n][j] == run[j]; } }
      }
    }
  }

  /** In every run from fresh nodes a latch is true exactly when its first input was true
      at some evaluation since the last reset. */
  lemma {:induction false} LatchRemembers(g: Graph, order: seq<string>, st: State, run: seq<Event>, id: string)
    requires StateOf(g, st) && EvaluationOrder(g, order) && Fresh(st)
    requires id in g && g[id].kind == Latch && |g[id].inputs| > 0
    ensures var s := Run(g, order, st, run)[id];
            && s.value == s.latched
            && (s.value <==> TriggeredSinceReset(g, order, st, run, id))
  {
    if run != [] {
      var n := |run| - 1;
      LatchRemembers(g, order, st, run[..n], id);
      StepLatch(g, order, Run(g, order, st, run[..n]), run[n], id);
      assert run[..n + 1] == run;
      TriggeredStep(g, order, st, run, id);
    }
  }

  // ---------------------------------------------------------------- timers

  /** A timer with an on-delay that starts false stays false through every run. */
  lemma {:induction false} TimerNeverRises(g: Graph, order: seq<string>, st: State, run: seq<Event>, id: string)
    requires StateOf(g, st) && EvaluationOrder(g, order)
    requires id in g && g[id].kind == Timer && g[id].delayOn > 0 && !st[id].value
    ensures !Run(g, order, st, run)[id].value
  {
    if run != [] {
      var n := |run| - 1;
      TimerNeverRises(g, order, st, run[..n], id);
      StepTimer(g, order, Run(g, order, st, run[..n]), run[n], id);
    }
  }

  /** A connected timer with an off-delay that is true stays true through every run. */
  lemma {:induction false} TimerNeverFalls(g: Graph, order: seq<string>, st: State, run: seq<Event>, id: string)
    requires StateOf(g, st) && EvaluationOrder(g, order) && id in g && g[id].kind == Timer && |g[id].inputs| > 0
    requires g[id].delayOff > 0 && st[id].value
    ensures Run(g, order, st, run)[id].value
  {
    if run != [] {
      var n := |run| - 1;
      TimerNeverFalls(g, order, st, run[..n], id);
      StepTimer(g, order, Run(g, order, st, run[..n]), run[n], id);
    }
  }

  /** Every evaluation of the run left the timer's input at `v`. */
  ghost predicate InputHeld(g: Graph, order: seq<string>, st: State, run: seq<Event>, id: string, v: bool)
    requires StateOf(g, st) && EvaluationOrder(g, order) && id in g && |g[id].inputs| > 0
  {
    forall k | 0 <= k < |run| && run[k].Evaluate? :: SeenAt(g, order, st, run, id, k, v)
  }

  ghost predicate HasEvaluation(run: seq<Event>) {
    exists k :: 0 <= k < |run| && run[k].Evaluate?
  }

  /** The delays as they are: with the input held through a run of any length and duration, a timer ends
      true exactly when it has no on-delay or was true already, and with the input held off it ends true
      exactly when it has an off-delay and was true already. */
  lemma {:induction false} TimerHeld(g: Graph, order: seq<string>, st: State, run: seq<Event>, id: string, v: bool)
    requires StateOf(g, st) && EvaluationOrder(g, order)
    requires id in g && g[id].kind == Timer && |g[id].inputs| > 0
    requires InputHeld(g, order, st, run, id, v)
    ensures Run(g, order, st, run)[id].value ==
            if !HasEvaluation(run) then st[id].value
            else if v then g[id].delayOn <= 0 || st[id].value
            else g[id].delayOff > 0 && st[id].value
  {
    if run != [] {
      var n := |run| - 1;
      assert InputHeld(g, order, st, run[..n], id, v) by {
        forall k | 0 <= k < n && run[..n][k].Evaluate? ensures SeenAt(g, order, st, run[..n], id, k, v) {
          SeenBefore(g, order, st, run, id, k, n, v);
        }
      }
      TimerHeld(g, order, st, run[..n], id, v);
      TimerHeldStep(g, order, st, run, id, v);
    }
  }

  lemma TimerHeldStep(g: Graph, order: seq<string>, st: State, run: seq<Event>, id: string, v: bool)
    requires StateOf(g, st) && EvaluationOrder(g, order) && run != []
    requires id in g && g[id].kind == Timer && |g[id].inputs| > 0
    requires InputHeld(g, order, st, run, id, v)
    ensures var n := |run| - 1;
            && (HasEvaluation(run) <==> HasEvaluation(run[..n]) || run[n].Evaluate?)
            && Run(g, order, st, run)[id].value ==
               var before := Run(g, order, st, run[..n])[id].value;
               if !run[n].Evaluate? then before
               else if v then g[id].delayOn <= 0 || before
               else g[id].delayOff > 0 && before
  {
    var n := |run| - 1;
    assert run[..n + 1] == run;
    StepTimer(g, order, Run(g, order, st, run[..n]), run[n], id);
    if run[n].Evaluate? { assert SeenAt(g, order, st, run, id, n, v); }
    hide *;
    HasEvaluationStep(run);
  }

  lemma HasEvaluationStep(run: seq<Event>)
    requires run != []
    ensures HasEvaluation(run) <==> HasEvaluation(run[..|run| - 1]) || run[|run| - 1].Evaluate?
  {
    var n := |run| - 1;
    if HasEvaluation(run[..n]) {
      var k :| 0 <= k < n && run[..n][k].Evaluate?;
      assert run[k].Evaluate?;
    }
    if HasEvaluation(run) && !run[n].Evaluate? {
      var k :| 0 <= k < |run| && run[k].Evaluate?;
      assert run[..n][k].Evaluate?;
    }
  }

  ghost const DELAYED: Graph := map[
    "in" := NodeDef(Input, "in", 0, 0, false, "", [], ["t"]),
    "t" := NodeDef(Timer, "t", 500, 0, false, "", ["in"], [])]
  ghost const QUIET: State := map[
    "in" := NodeState(false, false, 0, false),
    "t" := NodeState(false, false, 0, false)]

  lemma DelayedIsLegal()
    ensures WellFormed(DELAYED) && StateOf(DELAYED, QUIET) && Fresh(QUIET)
    ensures TopologicalOrder(DELAYED, ["in", "t"]) && EvaluationOrder(DELAYED, ["in", "t"])
  {
    forall a, b | a in DELAYED && b in DELAYED ensures MirroredAt(DELAYED, a, b) {}
    var order := ["in", "t"];
    assert Elems(order) == DELAYED.Keys;
    assert order[..1] == ["in"] && DELAYED[order[1]].inputs == ["in"] && DELAYED[order[0]].inputs == [];
    assert TopologicalOrder(DELAYED, order);
    Topology.TopologicalIsEvaluationOrder(DELAYED, ["in", "t"]);
  }

  /** An input node keeps the value of the last `SetInput` through any evaluations. */
  lemma {:induction false} InputKept(g: Graph, order: seq<string>, st: State, run: seq<Event>, id: string, value: bool)
    requires StateOf(g, st) && EvaluationOrder(g, order) && IsInput(g, id) && run != []
    requires run[0].SetInput? && run[0].id == id && run[0].value == value
    requires forall k | 1 <= k < |run| :: !run[k].SetInput?
    ensures Run(g, order, st, run)[id].value == value
  {
    var n := |run| - 1;
    if n > 0 {
      InputKept(g, order, st, run[..n], id, value);
      if run[n].Evaluate? { PassNode(g, Run(g, order, st, run[..n]), order, run[n].start, run[n].now, id); }
    }
  }

  /** The textbook on-delay fails on this run: 500 ms, the input true from 0 to 1000 ms, the timer still false. */
  lemma OnDelayCounterexample(run: seq<Event>)
    requires run == [SetInput("in", true, 0), Evaluate(0, _ => 0), Evaluate(1000, _ => 1000)]
    ensures WellFormed(DELAYED) && TopologicalOrder(DELAYED, ["in", "t"])
    ensures EvaluationOrder(DELAYED, ["in", "t"]) && StateOf(DELAYED, QUIET) && Fresh(QUIET)
    ensures Run(DELAYED, ["in", "t"], QUIET, run)["in"].value
    ensures !Run(DELAYED, ["in", "t"], QUIET, run)["t"].value
  {
    DelayedIsLegal();
    hide Run, WellFormed, Closed, EvaluationOrder, TopologicalOrder;
    TimerNeverRises(DELAYED, ["in", "t"], QUIET, run, "t");
    InputKept(DELAYED, ["in", "t"], QUIET, run, "in", true);
  }
}
