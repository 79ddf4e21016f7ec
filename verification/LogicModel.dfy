/** Values of the protection logic graph: its wiring, the mutable part of each
    node, and one evaluation pass as a function on those values.
    The classes of LogicGraph.dfy are proved against these functions. */
module LogicModel {

  datatype NodeType = Input | And | Or | Not | Nand | Nor | Xor | Timer | Latch | Output | Unknown

  /** What `AddNode` and `AddEdge` fix: node type, parameters and the edge lists, in insertion order. */
  datatype NodeDef = NodeDef(
    kind: NodeType, name: string, delayOn: int, delayOff: int,
    tripOutput: bool, deviceId: string,
    inputs: seq<string>, outputs: seq<string>)

  /** What evaluation changes. */
  datatype NodeState = NodeState(value: bool, prev: bool, lastChanged: int, latched: bool)

  type Graph = map<string, NodeDef>
  type State = map<string, NodeState>

  datatype TripSignal = TripSignal(deviceId: string, nodeId: string, nodeName: string, timestamp: int)

  datatype PassResult = PassResult(st: State, changed: bool, trips: seq<TripSignal>)

  ghost predicate Closed(g: Graph) {
    && (forall id, i {:trigger i in g[id].inputs} | id in g && i in g[id].inputs :: i in g)
    && (forall id, o {:trigger o in g[id].outputs} | id in g && o in g[id].outputs :: o in g)
  }

  /** Every edge is listed as often at its source as at its target. */
  ghost predicate Mirrored(g: Graph) {
    forall a, b {:trigger MirroredAt(g, a, b)} | a in g && b in g :: MirroredAt(g, a, b)
  }

  ghost predicate MirroredAt(g: Graph, a: string, b: string)
    requires a in g && b in g
  {
    multiset(g[a].outputs)[b] == multiset(g[b].inputs)[a]
  }

  ghost predicate WellFormed(g: Graph) {
    Closed(g) && Mirrored(g)
  }

  ghost predicate StateOf(g: Graph, st: State) {
    Closed(g) && st.Keys == g.Keys
  }

  // ---------------------------------------------------------------- node semantics as the code runs it

  ghost function InputValues(d: NodeDef, st: State): (vals: seq<bool>)
    requires forall i | i in d.inputs :: i in st
    ensures |vals| == |d.inputs|
  {
    seq(|d.inputs|, i requires 0 <= i < |d.inputs| => st[d.inputs[i]].value)
  }

  predicate Parity(vals: seq<bool>) {
    |vals| > 0 && (Parity(vals[..|vals| - 1]) != vals[|vals| - 1])
  }

  predicate AllTrue(vals: seq<bool>) {
    forall i | 0 <= i < |vals| :: vals[i]
  }

  predicate AnyTrue(vals: seq<bool>) {
    exists i | 0 <= i < |vals| :: vals[i]
  }

  /** `evaluateTimer`: restamps when the input differs from PrevValue, then compares the elapsed time. */
  function EvaluateTimer(d: NodeDef, vals: seq<bool>, s: NodeState, now: int): (NodeState, bool) {
    if |vals| == 0 then (s, false)
    else
      var s1 := if vals[0] != s.prev then s.(lastChanged := now) else s;
      var elapsed := now - s1.lastChanged;
      if vals[0] then
        (s1, d.delayOn <= 0 || elapsed >= d.delayOn || s.value)
      else
        (s1, d.delayOff > 0 && elapsed < d.delayOff && s.value)
  }

  /** `evaluate`: the returned value, and the node with its side effects. */
  function EvaluateNode(d: NodeDef, vals: seq<bool>, s: NodeState, now: int): (NodeState, bool) {
    match d.kind
    case Input => (s, s.value)
    case And => (s, |vals| > 0 && AllTrue(vals))
    case Or => (s, AnyTrue(vals))
    case Not => (s, |vals| > 0 && !vals[0])
    case Nand => (s, |vals| == 0 || !AllTrue(vals))
    case Nor => (s, !AnyTrue(vals))
    case Xor => (s, |vals| >= 2 && Parity(vals))
    case Latch =>
      if s.latched then (s, s.value)
      else if |vals| >= 1 && vals[0] then (s.(latched := true), true)
      else (s, false)
    case Timer => EvaluateTimer(d, vals, s, now)
    case Output => (s, |vals| > 0 && vals[0])
    case Unknown => (s, false)
  }

  /** One turn of the loop in `Evaluate` for a node that is not an input. */
  function VisitNode(d: NodeDef, vals: seq<bool>, s: NodeState, start: int, now: int): NodeState {
    var (s1, v) := EvaluateNode(d, vals, s.(prev := s.value), now);
    s1.(value := v, lastChanged := if v != s.value then start else s1.lastChanged)
  }

  ghost function TripOf(g: Graph, id: string, start: int): TripSignal
    requires id in g
  {
    TripSignal(g[id].deviceId, id, g[id].name, start)
  }

  ghost predicate Fires(d: NodeDef, value: bool) {
    d.kind == Output && d.tripOutput && value
  }

  ghost function Visit(g: Graph, r: PassResult, id: string, start: int, now: string -> int): (r': PassResult)
    requires StateOf(g, r.st) && id in g
    ensures StateOf(g, r'.st)
  {
    if g[id].kind == Input then r
    else
      var s := VisitNode(g[id], InputValues(g[id], r.st), r.st[id], start, now(id));
      PassResult(
        r.st[id := s],
        r.changed || s.value != r.st[id].value,
        if Fires(g[id], s.value) then r.trips + [TripOf(g, id, start)] else r.trips)
  }

  /** The loop of `Evaluate` over `order`. `now(id)` is the clock reading taken while node `id` is evaluated. */
  ghost function Pass(g: Graph, st: State, order: seq<string>, start: int, now: string -> int): (r: PassResult)
    requires StateOf(g, st) && forall id | id in order :: id in g
    ensures StateOf(g, r.st)
  {
    if order == [] then PassResult(st, false, [])
    else
      var n := |order| - 1;
      Visit(g, Pass(g, st, order[..n], start, now), order[n], start, now)
  }

  lemma PassEmpty(g: Graph, st: State, start: int, now: string -> int)
    requires StateOf(g, st)
    ensures Pass(g, st, [], start, now) == PassResult(st, false, [])
  {
  }

  lemma PassStep(g: Graph, st: State, order: seq<string>, k: nat, start: int, now: string -> int)
    requires StateOf(g, st) && k < |order| && forall id | id in order :: id in g
    ensures Pass(g, st, order[..k + 1], start, now) == Visit(g, Pass(g, st, order[..k], start, now), order[k], start, now)
  {
    assert order[..k + 1][..k] == order[..k];
  }

  // ---------------------------------------------------------------- the other operations on the state

  ghost predicate IsInput(g: Graph, id: string) {
    id in g && g[id].kind == Input
  }

  function SetNode(s: NodeState, value: bool, now: int): NodeState {
    NodeState(value, s.value, if value != s.value then now else s.lastChanged, s.latched)
  }

  ghost function SetInput(g: Graph, st: State, id: string, value: bool, now: int): (st': State)
    requires StateOf(g, st)
    ensures StateOf(g, st')
  {
    if id in g && g[id].kind == Input then st[id := SetNode(st[id], value, now)] else st
  }

  /** `SetInput` for every entry of `inputs`; `now(id)` is the clock reading of that call. */
  ghost function SetInputs(g: Graph, st: State, inputs: map<string, bool>, now: string -> int): (st': State)
    requires StateOf(g, st)
    ensures StateOf(g, st')
    ensures inputs == map[] ==> st' == st
  {
    map id | id in st :: if id in inputs && g[id].kind == Input then SetNode(st[id], inputs[id], now(id)) else st[id]
  }

  function ResetNode(d: NodeDef, s: NodeState): NodeState {
    if d.kind == Latch then s.(latched := false, value := false) else s
  }

  ghost function ResetLatches(g: Graph, st: State): (st': State)
    requires StateOf(g, st)
    ensures StateOf(g, st')
  {
    map id | id in st :: ResetNode(g[id], st[id])
  }

  /** `ResetLatches` part way through its iteration, with the nodes in `todo` still to come. */
  ghost function ResetExcept(g: Graph, st: State, todo: set<string>): (st': State)
    requires StateOf(g, st)
    ensures StateOf(g, st')
    ensures todo == {} ==> st' == ResetLatches(g, st)
    ensures todo == g.Keys ==> st' == st
  {
    map id | id in st :: if id in todo then st[id] else ResetNode(g[id], st[id])
  }

  lemma SetInputsStep(g: Graph, st: State, inputs: map<string, bool>, id: string, v: bool, now: string -> int)
    requires StateOf(g, st) && id !in inputs
    ensures SetInputs(g, st, inputs[id := v], now) == SetInput(g, SetInputs(g, st, inputs, now), id, v, now(id))
  {
  }

  lemma ResetStep(g: Graph, st: State, todo: set<string>, id: string)
    requires StateOf(g, st) && id in todo && id in g
    ensures id in ResetExcept(g, st, todo)
    ensures ResetExcept(g, st, todo - {id})
         == ResetExcept(g, st, todo)[id := ResetNode(g[id], ResetExcept(g, st, todo)[id])]
  {
  }

  // ---------------------------------------------------------------- orders

  ghost predicate Distinct<T>(s: seq<T>) {
    forall i, j | 0 <= i < j < |s| :: s[i] != s[j]
  }

  ghost function Elems<T>(s: seq<T>): set<T> {
    set x | x in s
  }

  /** A permutation of the nodes with the source of every edge before its target. */
  ghost predicate TopologicalOrder(g: Graph, order: seq<string>) {
    && Distinct(order)
    && Elems(order) == g.Keys
    && forall k, i | 0 <= k < |order| && i in g[order[k]].inputs :: i in order[..k]
  }

  /** What one pass needs of its order: every non-input node once, each after its non-input sources.
      Input nodes may be missing, because `GetOrAddInputNode` adds them after the order is built. */
  ghost predicate EvaluationOrder(g: Graph, order: seq<string>) {
    && Distinct(order)
    && (forall id | id in order :: id in g)
    && (forall id | id in g && g[id].kind != Input :: id in order)
    && (forall k, i | 0 <= k < |order| && g[order[k]].kind != Input && i in g[order[k]].inputs ::
          i in order[..k] || (i in g && g[i].kind == Input))
  }

  /** A walk along edges that returns to its first node. */
  ghost predicate Cycle(g: Graph, p: seq<string>) {
    && |p| >= 2
    && p[0] == p[|p| - 1]
    && (forall i | 0 <= i < |p| :: p[i] in g)
    && forall i | 0 <= i < |p| - 1 :: p[i] in g[p[i + 1]].inputs
  }

  ghost predicate Acyclic(g: Graph) {
    forall p: seq<string> :: !Cycle(g, p)
  }
}
