/** What one evaluation pass means: its values are the one solution of the node equations,
    so they depend neither on the order chosen nor on any clock reading, and a second pass changes nothing. */
module Evaluation {
  import opened LogicModel
  import Edges

  type Valuation = map<string, bool>

  /** The value a node must have, given its inputs' values, its own previous value and its latch.
      A timer's elapsed time does not occur: `Evaluate` stores the node's own output in PrevValue before
      the timer compares, so a differing input always restarts the delay (see TimerIsTimeFree). */
  predicate Gate(d: NodeDef, vals: seq<bool>, own: bool, latched: bool) {
    match d.kind
    case Input => own
    case And => |vals| > 0 && AllTrue(vals)
    case Or => AnyTrue(vals)
    case Not => |vals| > 0 && !vals[0]
    case Nand => |vals| == 0 || !AllTrue(vals)
    case Nor => !AnyTrue(vals)
    case Xor => |vals| >= 2 && Parity(vals)
    case Latch => if latched then own else |vals| > 0 && vals[0]
    case Timer => |vals| > 0 && if vals[0] then d.delayOn <= 0 || own else d.delayOff > 0 && own
    case Output => |vals| > 0 && vals[0]
    case Unknown => false
  }

  /** One visit gives the gate value whatever the clock reads, and latches exactly when a latch's input is true. */
  lemma TimerIsTimeFree(d: NodeDef, vals: seq<bool>, s: NodeState, start: int, now: int)
    ensures VisitNode(d, vals, s, start, now).value == Gate(d, vals, s.value, s.latched)
    ensures VisitNode(d, vals, s, start, now).latched == (s.latched || (d.kind == Latch && |vals| > 0 && vals[0]))
  {
  }

  ghost function Values(st: State): Valuation {
    map id | id in st :: st[id].value
  }

  ghost function Sources(d: NodeDef, v: Valuation): seq<bool>
    requires forall i | i in d.inputs :: i in v
  {
    seq(|d.inputs|, i requires 0 <= i < |d.inputs| => v[d.inputs[i]])
  }

  /** The node equations: inputs keep their value, every other node has its gate value. */
  ghost predicate Solves(g: Graph, pre: State, v: Valuation)
    requires StateOf(g, pre)
  {
    && v.Keys == g.Keys
    && forall id | id in g :: NodeEquation(g, pre, v, id)
  }

  ghost predicate NodeEquation(g: Graph, pre: State, v: Valuation, id: string)
    requires StateOf(g, pre) && id in g && v.Keys == g.Keys
  {
    v[id] == if g[id].kind == Input then pre[id].value
             else Gate(g[id], Sources(g[id], v), pre[id].value, pre[id].latched)
  }

  // ---------------------------------------------------------------- the pass solves the equations

  ghost function Prefix(g: Graph, st: State, order: seq<string>, k: nat, start: int, now: string -> int): (r: PassResult)
    requires StateOf(g, st) && k <= |order| && forall id | id in order :: id in g
    ensures StateOf(g, r.st)
  {
    Pass(g, st, order[..k], start, now)
  }

  lemma PrefixVisit(g: Graph, st: State, order: seq<string>, k: nat, start: int, now: string -> int)
    requires StateOf(g, st) && k < |order| && forall id | id in order :: id in g
    ensures Prefix(g, st, order, k + 1, start, now) == Visit(g, Prefix(g, st, order, k, start, now), order[k], start, now)
  {
    PassStep(g, st, order, k, start, now);
  }

  /** One turn of the loop changes at most the entry of its node, and never an input. */
  lemma PrefixStep(g: Graph, st: State, order: seq<string>, k: nat, start: int, now: string -> int)
    requires StateOf(g, st) && k < |order| && forall id | id in order :: id in g
    ensures Prefix(g, st, order, k + 1, start, now) == Visit(g, Prefix(g, st, order, k, start, now), order[k], start, now)
    ensures forall x | x in g && (x != order[k] || g[x].kind == Input) ::
              Prefix(g, st, order, k + 1, start, now).st[x] == Prefix(g, st, order, k, start, now).st[x]
  {
    PassStep(g, st, order, k, start, now);
  }

  lemma {:induction false} Untouched(g: Graph, st: State, order: seq<string>, k: nat, start: int, now: string -> int, x: string)
    requires StateOf(g, st) && EvaluationOrder(g, order) && k <= |order| && x in g
    requires g[x].kind == Input || x !in order[..k]
    ensures Prefix(g, st, order, k, start, now).st[x] == st[x]
  {
    if k > 0 {
      hide Prefix, Pass, Visit;
      PrefixStep(g, st, order, k - 1, start, now);
      assert x in order[..k - 1] ==> x in order[..k];
      assert order[k - 1] in order[..k];
      Untouched(g, st, order, k - 1, start, now, x);
    } else {
      PassEmpty(g, st, start, now);
    }
  }

  lemma OrderIn(g: Graph, order: seq<string>)
    requires EvaluationOrder(g, order)
    ensures forall id | id in order :: id in g
  {
  }

  lemma PrefixKeeps(g: Graph, st: State, order: seq<string>, k: nat, start: int, now: string -> int, x: string)
    requires StateOf(g, st) && k < |order| && EvaluationOrder(g, order)
    requires x in g && (x != order[k] || g[x].kind == Input)
    ensures Prefix(g, st, order, k + 1, start, now).st[x] == Prefix(g, st, order, k, start, now).st[x]
  {
    PrefixStep(g, st, order, k, start, now);
  }

  lemma OrderFacts(g: Graph, order: seq<string>, k: nat)
    requires EvaluationOrder(g, order) && k < |order|
    ensures order[k] in g && order[k] !in order[..k]
    ensures order[..k + 1] == order[..k] + [order[k]]
  {
  }

  lemma NotLater(g: Graph, order: seq<string>, j: nat, k: nat, x: string)
    requires EvaluationOrder(g, order) && j <= k < |order| && x in order[..j]
    ensures x != order[k]
  {
  }

  /** Later turns change neither a visited node nor any of its sources. */
  lemma {:induction false} Settled(g: Graph, st: State, order: seq<string>, j: nat, k: nat,
                                   start: int, now: string -> int, x: string)
    requires StateOf(g, st) && EvaluationOrder(g, order) && j <= k <= |order| && x in g
    requires g[x].kind == Input || x in order[..j]
    ensures Prefix(g, st, order, k, start, now).st[x] == Prefix(g, st, order, j, start, now).st[x]
  {
    hide Prefix, Pass, Visit, EvaluationOrder;
    if j < k {
      if x in order[..j] { NotLater(g, order, j, k - 1, x); }
      PrefixKeeps(g, st, order, k - 1, start, now, x);
      Settled(g, st, order, j, k - 1, start, now, x);
    }
  }

  /** The node at position `j` as the whole pass leaves it. */
  lemma VisitedNode(g: Graph, st: State, order: seq<string>, j: nat, start: int, now: string -> int)
    requires StateOf(g, st) && EvaluationOrder(g, order) && j < |order| && g[order[j]].kind != Input
    ensures var id := order[j];
            var post := Prefix(g, st, order, |order|, start, now).st;
            post[id] == VisitNode(g[id], InputValues(g[id], post), st[id], start, now(id))
  {
    hide Prefix, Pass, VisitNode;
    var id, n := order[j], |order|;
    var post := Prefix(g, st, order, n, start, now).st;
    var before := Prefix(g, st, order, j, start, now).st;
    PrefixStep(g, st, order, j, start, now);
    Untouched(g, st, order, j, start, now, id);
    assert order[..j + 1] == order[..j] + [id];
    Settled(g, st, order, j + 1, n, start, now, id);
    forall i | i in g[id].inputs ensures post[i] == before[i] { Settled(g, st, order, j, n, start, now, i); }
    assert InputValues(g[id], post) == InputValues(g[id], before);
  }

  /** Every non-input node after a pass is its visit, applied to the input values it ends up with. */
  lemma PassNode(g: Graph, st: State, order: seq<string>, start: int, now: string -> int, id: string)
    requires StateOf(g, st) && EvaluationOrder(g, order) && id in g
    ensures var post := Pass(g, st, order, start, now).st;
            post[id] == if g[id].kind == Input then st[id]
                        else VisitNode(g[id], InputValues(g[id], post), st[id], start, now(id))
  {
    assert order[..|order|] == order;
    if g[id].kind == Input {
      Untouched(g, st, order, |order|, start, now, id);
    } else {
      var j :| 0 <= j < |order| && order[j] == id;
      VisitedNode(g, st, order, j, start, now);
    }
  }

  lemma SourcesAreInputValues(d: NodeDef, st: State)
    requires forall i | i in d.inputs :: i in st
    ensures Sources(d, Values(st)) == InputValues(d, st)
  {
  }

  /** One pass, in any evaluation order and with any clock readings, solves the node equations. */
  lemma PassSolves(g: Graph, st: State, order: seq<string>, start: int, now: string -> int)
    requires StateOf(g, st) && EvaluationOrder(g, order)
    ensures Solves(g, st, Values(Pass(g, st, order, start, now).st))
  {
    var post := Pass(g, st, order, start, now).st;
    forall id | id in g ensures NodeEquation(g, st, Values(post), id) {
      PassNode(g, st, order, start, now, id);
      SourcesAreInputValues(g[id], post);
      if g[id].kind != Input { TimerIsTimeFree(g[id], InputValues(g[id], post), st[id], start, now(id)); }
    }
  }

  /** The node equations have at most one solution when an evaluation order exists. */
  lemma {:induction false} SolutionsAgree(g: Graph, st: State, order: seq<string>, v: Valuation, w: Valuation, k: nat)
    requires StateOf(g, st) && EvaluationOrder(g, order) && k <= |order|
    requires Solves(g, st, v) && Solves(g, st, w)
    ensures forall id | id in g && (g[id].kind == Input || id in order[..k]) :: v[id] == w[id]
  {
    forall id | id in g && g[id].kind == Input ensures v[id] == w[id] {
      assert NodeEquation(g, st, v, id) && NodeEquation(g, st, w, id);
    }
    if k > 0 {
      SolutionsAgree(g, st, order, v, w, k - 1);
      var id := order[k - 1];
      assert order[..k] == order[..k - 1] + [id];
      assert NodeEquation(g, st, v, id) && NodeEquation(g, st, w, id);
      if g[id].kind != Input {
        assert Sources(g[id], v) == Sources(g[id], w);
      }
    }
  }

  lemma UniqueSolution(g: Graph, st: State, order: seq<string>, v: Valuation, w: Valuation)
    requires StateOf(g, st) && EvaluationOrder(g, order)
    requires Solves(g, st, v) && Solves(g, st, w)
    ensures v == w
  {
    SolutionsAgree(g, st, order, v, w, |order|);
    assert order[..|order|] == order;
  }

  // ---------------------------------------------------------------- what a pass reports

  /** The trip signals of a valuation, in evaluation order. */
  ghost function TripList(g: Graph, v: Valuation, order: seq<string>, start: int): seq<TripSignal>
    requires v.Keys == g.Keys && forall id | id in order :: id in g
  {
    if order == [] then []
    else
      var n := |order| - 1;
      var rest := TripList(g, v, order[..n], start);
      if Fires(g[order[n]], v[order[n]]) then rest + [TripOf(g, order[n], start)] else rest
  }

  lemma {:induction false} TripListAgrees(g: Graph, v: Valuation, w: Valuation, order: seq<string>, start: int)
    requires v.Keys == g.Keys == w.Keys && forall id | id in order :: id in g && v[id] == w[id]
    ensures TripList(g, v, order, start) == TripList(g, w, order, start)
  {
    if order != [] { TripListAgrees(g, v, w, order[..|order| - 1], start); }
  }

  lemma TripsStep(g: Graph, r: PassResult, seen: seq<string>, id: string, start: int, now: string -> int)
    requires TripsListed(g, r, seen, start) && id in g && id !in seen
    ensures TripsListed(g, Visit(g, r, id, start, now), seen + [id], start)
  {
    assert (seen + [id])[..|seen|] == seen;
    TripListAgrees(g, Values(r.st), Values(Visit(g, r, id, start, now).st), seen, start);
  }

  ghost predicate TripsListed(g: Graph, r: PassResult, seen: seq<string>, start: int) {
    StateOf(g, r.st) && (forall id | id in seen :: id in g) && r.trips == TripList(g, Values(r.st), seen, start)
  }

  lemma {:induction false} PrefixTrips(g: Graph, st: State, order: seq<string>, k: nat, start: int, now: string -> int)
    requires StateOf(g, st) && EvaluationOrder(g, order) && k <= |order|
    ensures TripsListed(g, Prefix(g, st, order, k, start, now), order[..k], start)
  {
    OrderIn(g, order);
    if k == 0 {
      PassEmpty(g, st, start, now);
    } else {
      hide TripsListed, Visit, Prefix, Pass, EvaluationOrder;
      PrefixTrips(g, st, order, k - 1, start, now);
      PrefixTripsStep(g, st, order, k - 1, start, now);
    }
  }

  lemma PrefixTripsStep(g: Graph, st: State, order: seq<string>, k: nat, start: int, now: string -> int)
    requires StateOf(g, st) && EvaluationOrder(g, order) && k < |order|
    requires TripsListed(g, Prefix(g, st, order, k, start, now), order[..k], start)
    ensures TripsListed(g, Prefix(g, st, order, k + 1, start, now), order[..k + 1], start)
  {
    OrderIn(g, order);
    OrderFacts(g, order, k);
    hide TripsListed, Visit, Prefix, Pass, EvaluationOrder;
    PrefixVisit(g, st, order, k, start, now);
    TripsStep(g, Prefix(g, st, order, k, start, now), order[..k], order[k], start, now);
  }

  ghost predicate Differs(v: Valuation, w: Valuation, s: seq<string>)
    requires v.Keys == w.Keys && forall id | id in s :: id in v
  {
    exists id :: id in s && v[id] != w[id]
  }

  lemma DiffersStep(v: Valuation, w: Valuation, u: Valuation, s: seq<string>, id: string)
    requires u.Keys == v.Keys == w.Keys && id in v && forall x | x in s :: x in v && v[x] == w[x]
    ensures Differs(w, u, s + [id]) <==> Differs(v, u, s) || w[id] != u[id]
  {
    assert forall x :: x in s + [id] <==> x in s || x == id;
    if Differs(w, u, s + [id]) { var x :| x in s + [id] && w[x] != u[x]; }
    if w[id] != u[id] { assert id in s + [id]; }
  }

  ghost predicate ChangeTold(g: Graph, st: State, r: PassResult, seen: seq<string>) {
    && StateOf(g, r.st) && StateOf(g, st) && (forall id | id in seen :: id in g)
    && (r.changed <==> Differs(Values(r.st), Values(st), seen))
  }

  lemma ChangedStep(g: Graph, st: State, r: PassResult, seen: seq<string>, id: string, start: int, now: string -> int)
    requires ChangeTold(g, st, r, seen) && id in g && id !in seen && r.st[id] == st[id]
    ensures ChangeTold(g, st, Visit(g, r, id, start, now), seen + [id])
  {
    DiffersStep(Values(r.st), Values(Visit(g, r, id, start, now).st), Values(st), seen, id);
  }

  lemma {:induction false} PrefixChanged(g: Graph, st: State, order: seq<string>, k: nat, start: int, now: string -> int)
    requires StateOf(g, st) && EvaluationOrder(g, order) && k <= |order|
    ensures ChangeTold(g, st, Prefix(g, st, order, k, start, now), order[..k])
  {
    OrderIn(g, order);
    if k == 0 {
      PassEmpty(g, st, start, now);
    } else {
      hide ChangeTold, Visit, Prefix, Pass, EvaluationOrder;
      PrefixChanged(g, st, order, k - 1, start, now);
      PrefixChangedStep(g, st, order, k - 1, start, now);
    }
  }

  lemma PrefixChangedStep(g: Graph, st: State, order: seq<string>, k: nat, start: int, now: string -> int)
    requires StateOf(g, st) && EvaluationOrder(g, order) && k < |order|
    requires ChangeTold(g, st, Prefix(g, st, order, k, start, now), order[..k])
    ensures ChangeTold(g, st, Prefix(g, st, order, k + 1, start, now), order[..k + 1])
  {
    OrderIn(g, order);
    OrderFacts(g, order, k);
    hide ChangeTold, Visit, Prefix, Pass, EvaluationOrder;
    PrefixVisit(g, st, order, k, start, now);
    Untouched(g, st, order, k, start, now, order[k]);
    ChangedStep(g, st, Prefix(g, st, order, k, start, now), order[..k], order[k], start, now);
  }

  /** `Changed` says whether any value differs, and the signals are those of the final values. */
  lemma PassReports(g: Graph, st: State, order: seq<string>, start: int, now: string -> int)
    requires StateOf(g, st) && EvaluationOrder(g, order)
    ensures var r := Pass(g, st, order, start, now);
            && (r.changed <==> Values(r.st) != Values(st))
            && r.trips == TripList(g, Values(r.st), order, start)
  {
    var post := Pass(g, st, order, start, now).st;
    assert order[..|order|] == order;
    PrefixTrips(g, st, order, |order|, start, now);
    PrefixChanged(g, st, order, |order|, start, now);
    if Values(post) != Values(st) {
      var id :| id in g && Values(post)[id] != Values(st)[id];
      if id !in order { Untouched(g, st, order, |order|, start, now, id); }
      assert Differs(Values(post), Values(st), order);
    }
  }

  /** Each firing output contributes its signal exactly once. */
  lemma {:induction false} TripListCount(g: Graph, v: Valuation, order: seq<string>, start: int, t: TripSignal)
    requires v.Keys == g.Keys && Distinct(order) && forall id | id in order :: id in g
    ensures multiset(TripList(g, v, order, start))[t] ==
            if t.nodeId in order && Fires(g[t.nodeId], v[t.nodeId]) && t == TripOf(g, t.nodeId, start) then 1 else 0
  {
    if order != [] {
      var n := |order| - 1;
      TripListCount(g, v, order[..n], start, t);
      assert order == order[..n] + [order[n]];
    }
  }

  // ---------------------------------------------------------------- main results

  /** Two passes from one state, in two evaluation orders and with different clock readings, agree on all
      values, all latches, `Changed`, and (for one start time) on the signals up to their order. */
  lemma Confluence(g: Graph, st: State, o1: seq<string>, o2: seq<string>, start1: int, start2: int,
                   now1: string -> int, now2: string -> int)
    requires StateOf(g, st) && EvaluationOrder(g, o1) && EvaluationOrder(g, o2)
    ensures var r1, r2 := Pass(g, st, o1, start1, now1), Pass(g, st, o2, start2, now2);
            && Values(r1.st) == Values(r2.st)
            && (forall id | id in g :: r1.st[id].latched == r2.st[id].latched)
            && r1.changed == r2.changed
            && (start1 == start2 ==> multiset(r1.trips) == multiset(r2.trips))
  {
    hide Pass, Solves;
    var r1, r2 := Pass(g, st, o1, start1, now1), Pass(g, st, o2, start2, now2);
    PassSolves(g, st, o1, start1, now1);
    PassSolves(g, st, o2, start2, now2);
    UniqueSolution(g, st, o1, Values(r1.st), Values(r2.st));
    PassReports(g, st, o1, start1, now1);
    PassReports(g, st, o2, start2, now2);
    forall id | id in g ensures r1.st[id].latched == r2.st[id].latched {
      LatchAfterPass(g, st, o1, start1, now1, id);
      LatchAfterPass(g, st, o2, start2, now2, id);
    }
    if start1 == start2 {
      forall t: TripSignal ensures multiset(r1.trips)[t] == multiset(r2.trips)[t] {
        TripListCount(g, Values(r1.st), o1, start1, t);
        TripListCount(g, Values(r2.st), o2, start1, t);
      }
    }
  }

  ghost predicate Triggered(d: NodeDef, v: Valuation)
    requires forall i | i in d.inputs :: i in v
  {
    d.kind == Latch && |d.inputs| > 0 && v[d.inputs[0]]
  }

  lemma LatchAfterPass(g: Graph, st: State, order: seq<string>, start: int, now: string -> int, id: string)
    requires StateOf(g, st) && EvaluationOrder(g, order) && id in g
    ensures var post := Pass(g, st, order, start, now).st;
            post[id].latched == (st[id].latched || Triggered(g[id], Values(post)))
  {
    hide Pass;
    PassNode(g, st, order, start, now, id);
    assert |g[id].inputs| > 0 ==> g[id].inputs[0] in g[id].inputs;
  }

  /** After a pass the state solves its own equations, */
  lemma SolutionIsStable(g: Graph, st: State, order: seq<string>, start: int, now: string -> int)
    requires StateOf(g, st) && EvaluationOrder(g, order)
    ensures var post := Pass(g, st, order, start, now).st; Solves(g, post, Values(post))
  {
    hide Pass;
    var post := Pass(g, st, order, start, now).st;
    PassSolves(g, st, order, start, now);
    forall id | id in g ensures NodeEquation(g, post, Values(post), id) {
      assert NodeEquation(g, st, Values(post), id);
      LatchAfterPass(g, st, order, start, now, id);
    }
  }

  /** so a second pass, at any later time, changes no value and no latch, reports no change,
      and repeats the signals with its own time stamp. */
  lemma Fixpoint(g: Graph, st: State, order: seq<string>, start1: int, start2: int,
                 now1: string -> int, now2: string -> int)
    requires StateOf(g, st) && EvaluationOrder(g, order)
    ensures var r1 := Pass(g, st, order, start1, now1);
            var r2 := Pass(g, r1.st, order, start2, now2);
            && Values(r2.st) == Values(r1.st)
            && (forall id | id in g :: r2.st[id].latched == r1.st[id].latched)
            && !r2.changed
            && r2.trips == TripList(g, Values(r1.st), order, start2)
            && (start1 == start2 ==> r2.trips == r1.trips)
  {
    hide Pass, Solves;
    var r1 := Pass(g, st, order, start1, now1);
    var r2 := Pass(g, r1.st, order, start2, now2);
    SolutionIsStable(g, st, order, start1, now1);
    PassSolves(g, r1.st, order, start2, now2);
    UniqueSolution(g, r1.st, order, Values(r2.st), Values(r1.st));
    PassReports(g, st, order, start1, now1);
    PassReports(g, r1.st, order, start2, now2);
    forall id | id in g ensures r2.st[id].latched == r1.st[id].latched {
      LatchAfterPass(g, st, order, start1, now1, id);
      LatchAfterPass(g, r1.st, order, start2, now2, id);
    }
  }

  /** An input node added after `BuildTopology` leaves the built order usable. */
  lemma AddedInputKeepsOrder(g: Graph, order: seq<string>, id: string, d: NodeDef)
    requires WellFormed(g) && EvaluationOrder(g, order) && d.kind == Input
    ensures WellFormed(Edges.AddNode(g, id, d)) && EvaluationOrder(Edges.AddNode(g, id, d), order)
  {
    Edges.AddNodeKeeps(g, id, d);
    hide WellFormed;
    var g' := Edges.AddNode(g, id, d);
    forall k, i | 0 <= k < |order| && g'[order[k]].kind != Input && i in g'[order[k]].inputs
      ensures i in order[..k] || (i in g' && g'[i].kind == Input)
    {
      assert g'[order[k]] == g[order[k]];
    }
  }

  // ---------------------------------------------------------------- gates and signals, read off the node fields

  ghost function TrueAt(vals: seq<bool>): set<nat> {
    set i: nat | i < |vals| && vals[i]
  }

  lemma TrueAtStep(vals: seq<bool>)
    ensures vals == [] ==> TrueAt(vals) == {}
    ensures vals != [] ==>
      var n := |vals| - 1; |TrueAt(vals)| == |TrueAt(vals[..n])| + if vals[n] then 1 else 0
  {
    if vals != [] {
      var n := |vals| - 1;
      assert TrueAt(vals) == TrueAt(vals[..n]) + if vals[n] then {n} else {};
    }
  }

  /** An XOR of several inputs counts the true ones. */
  lemma {:induction false} ParityCounts(vals: seq<bool>)
    ensures Parity(vals) <==> |TrueAt(vals)| % 2 == 1
  {
    TrueAtStep(vals);
    hide TrueAt;
    if vals != [] { ParityCounts(vals[..|vals| - 1]); }
  }

  /** The positions of a node's input list whose source is true. */
  ghost function TrueInputs(d: NodeDef, st: State): set<nat>
    requires forall i | i in d.inputs :: i in st
  {
    set k: nat | k < |d.inputs| && st[d.inputs[k]].value
  }

  /** What each gate shows after a pass, in terms of the values its sources show; parallel edges count separately. */
  lemma GatesAfterPass(g: Graph, st: State, order: seq<string>, start: int, now: string -> int, id: string)
    requires StateOf(g, st) && EvaluationOrder(g, order) && id in g
    ensures var post := Pass(g, st, order, start, now).st;
            var d, v, on := g[id], post[id].value, TrueInputs(g[id], post);
            && (d.kind == Input ==> post[id] == st[id])
            && (d.kind == And ==> (v <==> |d.inputs| > 0 && forall k: nat | k < |d.inputs| :: k in on))
            && (d.kind == Nand ==> (v <==> |d.inputs| == 0 || exists k: nat :: k < |d.inputs| && k !in on))
            && (d.kind == Or ==> (v <==> on != {}))
            && (d.kind == Nor ==> (v <==> on == {}))
            && (d.kind == Xor ==> (v <==> |d.inputs| >= 2 && |on| % 2 == 1))
            && (d.kind == Not ==> (v <==> |d.inputs| > 0 && 0 !in on))
            && (d.kind == Output ==> (v <==> |d.inputs| > 0 && 0 in on))
            && (d.kind == Unknown ==> !v)
  {
    PassNode(g, st, order, start, now, id);
    hide Pass, EvaluationOrder;
    var post := Pass(g, st, order, start, now).st;
    GateValue(g[id], post, st[id], start, now(id));
  }

  lemma GateValue(d: NodeDef, post: State, s: NodeState, start: int, now: int)
    requires forall i | i in d.inputs :: i in post
    ensures var v, on := VisitNode(d, InputValues(d, post), s, start, now).value, TrueInputs(d, post);
            && (d.kind == And ==> (v <==> |d.inputs| > 0 && forall k: nat | k < |d.inputs| :: k in on))
            && (d.kind == Nand ==> (v <==> |d.inputs| == 0 || exists k: nat :: k < |d.inputs| && k !in on))
            && (d.kind == Or ==> (v <==> on != {}))
            && (d.kind == Nor ==> (v <==> on == {}))
            && (d.kind == Xor ==> (v <==> |d.inputs| >= 2 && |on| % 2 == 1))
            && (d.kind == Not ==> (v <==> |d.inputs| > 0 && 0 !in on))
            && (d.kind == Output ==> (v <==> |d.inputs| > 0 && 0 in on))
            && (d.kind == Unknown ==> !v)
  {
    InputFacts(d, post);
    assert |InputValues(d, post)| == |d.inputs|;
    hide AllTrue, AnyTrue, Parity, TrueInputs, InputValues;
  }

  lemma InputFacts(d: NodeDef, post: State)
    requires forall i | i in d.inputs :: i in post
    ensures var vals, on := InputValues(d, post), TrueInputs(d, post);
            && (AllTrue(vals) <==> forall k: nat | k < |d.inputs| :: k in on)
            && (AnyTrue(vals) <==> on != {})
            && (Parity(vals) <==> |on| % 2 == 1)
            && (|vals| > 0 ==> (vals[0] <==> 0 in on))
  {
    var vals, on := InputValues(d, post), TrueInputs(d, post);
    ParityCounts(vals);
    assert TrueAt(vals) == on;
    hide Parity;
    assert forall k: nat | k < |vals| :: vals[k] <==> k in on;
    if AnyTrue(vals) {
      var k :| 0 <= k < |vals| && vals[k];
      assert k in on;
    }
    if on != {} {
      var k :| k in on;
      assert vals[k];
    }
  }

  /** The timer on its own, whatever PrevValue holds: a changed input restarts the delay and keeps the output while there is
      one; an unchanged input switches the output once the delay has elapsed since the last stamp. */
  lemma TimerDelays(d: NodeDef, vals: seq<bool>, s: NodeState, now: int)
    requires |vals| > 0
    ensures var (s', out) := LogicModel.EvaluateTimer(d, vals, s, now);
            var delay := if vals[0] then d.delayOn else d.delayOff;
            && s' == s.(lastChanged := s'.lastChanged)
            && (vals[0] != s.prev ==> s'.lastChanged == now && out == if delay <= 0 then vals[0] else s.value)
            && (vals[0] == s.prev ==> s'.lastChanged == s.lastChanged)
            && (vals[0] == s.prev && now - s.lastChanged >= delay ==> out == vals[0])
            && (vals[0] == s.prev && 0 < delay && now - s.lastChanged < delay ==> out == s.value)
  {
  }

  /** A visit stamps a changed value with the start of the pass; a timer whose input differs from its own old value is
      restamped with its own clock reading; every other stamp stays. PrevValue is always the old value. */
  lemma Stamps(d: NodeDef, vals: seq<bool>, s: NodeState, start: int, now: int)
    ensures var r := VisitNode(d, vals, s, start, now);
            && r.prev == s.value
            && r.lastChanged == if r.value != s.value then start
                                else if d.kind == Timer && |vals| > 0 && vals[0] != s.value then now
                                else s.lastChanged
  {
  }

  /** Which signals a pass emits, and how often: exactly one for every trip output that ends up true, with that node's
      device, id and name and the start of the pass, and nothing else. */
  lemma SignalMultiplicity(g: Graph, st: State, order: seq<string>, start: int, now: string -> int, t: TripSignal)
    requires StateOf(g, st) && EvaluationOrder(g, order)
    ensures var r := Pass(g, st, order, start, now);
            multiset(r.trips)[t] ==
              if t.nodeId in g && g[t.nodeId].kind == Output && g[t.nodeId].tripOutput && r.st[t.nodeId].value
                 && t == TripSignal(g[t.nodeId].deviceId, t.nodeId, g[t.nodeId].name, start)
              then 1 else 0
  {
    PassReports(g, st, order, start, now);
    var v := Values(Pass(g, st, order, start, now).st);
    TripListCount(g, v, order, start, t);
    hide Pass, TripList;
  }
}
