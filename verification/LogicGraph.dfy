/** The logic graph as linked node objects that its operations update in place.
    `Wiring` and `State` give the values that LogicModel.dfy speaks about. */
module LogicGraphs {
  import opened LogicModel
  import Topology
  import Edges

  datatype LogicError = NodeExists | NodeNotFound | NotAnInput | EmptyGraph | CycleDetected | TopologyNotBuilt

  datatype Outcome = Pass | Fail(error: LogicError)

  datatype EvaluationResult = EvaluationResult(changed: bool, tripSignals: seq<TripSignal>, updatedAt: int)

  class LogicNode {
    const id: string
    const kind: NodeType
    const name: string
    const delayOn: int
    const delayOff: int
    const tripOutput: bool
    const deviceId: string
    var value: bool
    var prevValue: bool
    var lastChanged: int
    var latched: bool
    var inputs: seq<LogicNode>
    var outputs: seq<LogicNode>

    constructor (id: string, kind: NodeType, name: string, delayOn: int, delayOff: int,
                 tripOutput: bool, deviceId: string, now: int)
      ensures this.id == id && Def() == NodeDef(kind, name, delayOn, delayOff, tripOutput, deviceId, [], [])
      ensures inputs == [] && outputs == []
      ensures State() == NodeState(false, false, now, false)
    {
      this.id, this.kind, this.name := id, kind, name;
      this.delayOn, this.delayOff := delayOn, delayOff;
      this.tripOutput, this.deviceId := tripOutput, deviceId;
      value, prevValue, lastChanged, latched := false, false, now, false;
      inputs, outputs := [], [];
    }

    ghost function Def(): NodeDef
      reads this`inputs, this`outputs
    {
      NodeDef(kind, name, delayOn, delayOff, tripOutput, deviceId, Ids(inputs), Ids(outputs))
    }

    ghost function State(): NodeState
      reads this`value, this`prevValue, this`lastChanged, this`latched
    {
      NodeState(value, prevValue, lastChanged, latched)
    }

    ghost function Values(): seq<bool>
      reads this, inputs
    {
      seq(|inputs|, i requires 0 <= i < |inputs| reads this, inputs => inputs[i].value)
    }

    method AllInputsTrue() returns (result: bool)
      ensures result == AllTrue(Values())
    {
      result := true;
      for i := 0 to |inputs|
        invariant result && forall j | 0 <= j < i :: Values()[j]
      {
        if !inputs[i].value {
          assert !Values()[i];
          return false;
        }
      }
    }

    method AnyInputTrue() returns (result: bool)
      ensures result == AnyTrue(Values())
    {
      result := false;
      for i := 0 to |inputs|
        invariant !result && forall j | 0 <= j < i :: !Values()[j]
      {
        if inputs[i].value {
          assert Values()[i];
          return true;
        }
      }
    }

    method InputParity() returns (result: bool)
      ensures result == Parity(Values())
    {
      result := false;
      for i := 0 to |inputs|
        invariant result == Parity(Values()[..i])
      {
        result := result != inputs[i].value;
        assert Values()[..i + 1][..i] == Values()[..i];
      }
      assert Values()[..|inputs|] == Values();
    }

    method EvaluateTimer(now: int) returns (v: bool)
      modifies this`lastChanged
      ensures (State(), v) == LogicModel.EvaluateTimer(Def(), old(Values()), old(State()), now)
    {
      if |inputs| == 0 {
        return false;
      }
      var inputValue := inputs[0].value;
      if inputValue && !prevValue {
        lastChanged := now;
      }
      if !inputValue && prevValue {
        lastChanged := now;
      }
      var elapsed := now - lastChanged;
      if inputValue {
        if delayOn > 0 {
          if elapsed >= delayOn {
            return true;
          }
          return value;
        }
        return true;
      } else {
        if delayOff > 0 {
          if elapsed >= delayOff {
            return false;
          }
          return value;
        }
        return false;
      }
    }

    method Evaluate(now: int) returns (v: bool)
      modifies this`lastChanged, this`latched
      ensures (State(), v) == EvaluateNode(Def(), old(Values()), old(State()), now)
    {
      match kind
      case Input =>
        return value;
      case And =>
        if |inputs| == 0 {
          return false;
        }
        v := AllInputsTrue();
      case Or =>
        if |inputs| == 0 {
          return false;
        }
        v := AnyInputTrue();
      case Not =>
        if |inputs| == 0 {
          return false;
        }
        return !inputs[0].value;
      case Nand =>
        if |inputs| == 0 {
          return true;
        }
        var allTrue := AllInputsTrue();
        return !allTrue;
      case Nor =>
        if |inputs| == 0 {
          return true;
        }
        var anyTrue := AnyInputTrue();
        return !anyTrue;
      case Xor =>
        if |inputs| < 2 {
          return false;
        }
        v := InputParity();
      case Latch =>
        if latched {
          return value;
        }
        if |inputs| >= 1 && inputs[0].value {
          latched := true;
          return true;
        }
        return false;
      case Timer =>
        v := EvaluateTimer(now);
      case Output =>
        if |inputs| == 0 {
          return false;
        }
        return inputs[0].value;
      case Unknown =>
        return false;
    }

    /** The body of the loop of `LogicGraph.Evaluate` for a node that is not an input. */
    method Visit(start: int, now: int) returns (differs: bool)
      modifies this`value, this`prevValue, this`lastChanged, this`latched
      ensures State() == VisitNode(Def(), old(Values()), old(State()), start, now)
      ensures differs == (value != old(value))
    {
      var oldValue := value;
      prevValue := oldValue;
      assert Values() == old(Values());
      var newValue := Evaluate(now);
      value := newValue;
      if newValue != oldValue {
        lastChanged := start;
      }
      return newValue != oldValue;
    }

    method ResetLatch()
      modifies this`value, this`latched
      ensures State() == ResetNode(Def(), old(State()))
    {
      if kind == Latch {
        latched := false;
        value := false;
      }
    }

    method SetInput(value: bool, now: int)
      modifies this`value, this`prevValue, this`lastChanged
      ensures State() == if kind == Input then SetNode(old(State()), value, now) else old(State())
    {
      if kind != Input {
        return;
      }
      prevValue := this.value;
      this.value := value;
      if this.value != prevValue {
        lastChanged := now;
      }
    }
  }

  function Ids(ns: seq<LogicNode>): (ids: seq<string>)
    ensures |ids| == |ns| && forall i | 0 <= i < |ns| :: ids[i] == ns[i].id
  {
    seq(|ns|, i requires 0 <= i < |ns| => ns[i].id)
  }

  class LogicGraph {
    var nodes: map<string, LogicNode>
    var topoOrder: seq<string>   // empty until BuildTopology succeeds; a built order is never empty

    constructor ()
      ensures Valid() && Wiring() == map[] && State() == map[] && topoOrder == []
    {
      nodes := map[];
      topoOrder := [];
    }

    ghost predicate Registered(n: LogicNode)
      reads this`nodes
    {
      n.id in nodes && nodes[n.id] == n
    }

    ghost predicate Linked(ns: seq<LogicNode>)
      reads this`nodes
    {
      forall n | n in ns :: Registered(n)
    }

    ghost predicate Wired()
      reads this`nodes, nodes.Values`inputs, nodes.Values`outputs
    {
      && (forall k | k in nodes :: nodes[k].id == k && Linked(nodes[k].inputs) && Linked(nodes[k].outputs))
      && WellFormed(Wiring())
    }

    ghost predicate Valid()
      reads this`nodes, this`topoOrder, nodes.Values`inputs, nodes.Values`outputs
    {
      Wired() && forall id | id in topoOrder :: id in nodes
    }

    ghost function Wiring(): Graph
      reads this`nodes, nodes.Values`inputs, nodes.Values`outputs
    {
      map k | k in nodes :: nodes[k].Def()
    }

    ghost function State(): State
      reads this`nodes, nodes.Values`value, nodes.Values`prevValue, nodes.Values`lastChanged, nodes.Values`latched
    {
      map k | k in nodes :: nodes[k].State()
    }

    /** Changing the value fields of one node changes that entry of `State` and nothing else. */
    twostate lemma OneNodeChanged(node: LogicNode)
      requires old(Valid()) && Registered(node) && unchanged(this)
      requires forall k | k in nodes ::
        nodes[k].inputs == old(nodes[k].inputs) && nodes[k].outputs == old(nodes[k].outputs)
      requires forall k | k in nodes && nodes[k] != node :: nodes[k].State() == old(nodes[k].State())
      ensures Valid() && Wiring() == old(Wiring())
      ensures State() == old(State())[node.id := node.State()]
    {
      forall k | k in nodes ensures nodes[k].Def() == old(nodes[k].Def()) {}
      assert Wiring() == old(Wiring());
    }

    method AddNode(node: LogicNode) returns (r: Outcome)
      requires Valid() && node.inputs == [] && node.outputs == []
      modifies this`nodes
      ensures Valid()
      ensures r == if node.id in old(nodes) then Fail(NodeExists) else Pass
      ensures nodes == if node.id in old(nodes) then old(nodes) else old(nodes)[node.id := node]
      ensures Wiring() == Edges.AddNode(old(Wiring()), node.id, node.Def())
    {
      if node.id in nodes {
        return Fail(NodeExists);
      }
      Edges.AddNodeKeeps(Wiring(), node.id, node.Def());
      nodes := nodes[node.id := node];
      assert Wiring() == Edges.AddNode(old(Wiring()), node.id, node.Def());
      return Pass;
    }

    method AddEdge(fromId: string, toId: string) returns (r: Outcome)
      requires Valid()
      modifies nodes.Values`inputs, nodes.Values`outputs
      ensures Valid() && State() == old(State())
      ensures r == if fromId in nodes && toId in nodes then Pass else Fail(NodeNotFound)
      ensures Wiring() == Edges.AddEdge(old(Wiring()), fromId, toId)
    {
      if fromId !in nodes {
        return Fail(NodeNotFound);
      }
      if toId !in nodes {
        return Fail(NodeNotFound);
      }
      hide *;
      var fromNode, toNode := NodeAt(fromId), NodeAt(toId);
      fromNode.outputs := fromNode.outputs + [toNode];
      toNode.inputs := toNode.inputs + [fromNode];
      EdgeAdded((fromId, toId));
      return Pass;
    }

    twostate lemma EdgeAdded(edge: (string, string))
      requires old(Valid()) && edge.0 in nodes && edge.1 in nodes && unchanged(this)
      requires nodes[edge.0].outputs == old(nodes[edge.0].outputs) + [nodes[edge.1]]
      requires nodes[edge.1].inputs == old(nodes[edge.1].inputs) + [nodes[edge.0]]
      requires forall k | k in nodes && k != edge.0 :: nodes[k].outputs == old(nodes[k].outputs)
      requires forall k | k in nodes && k != edge.1 :: nodes[k].inputs == old(nodes[k].inputs)
      requires forall k | k in nodes :: nodes[k].State() == old(nodes[k].State())
      ensures Valid() && State() == old(State())
      ensures Wiring() == Edges.AddEdge(old(Wiring()), edge.0, edge.1)
    {
      var (from, to) := edge;
      Edges.AddEdgeKeeps(old(Wiring()), from, to);
      forall k | k in nodes
        ensures nodes[k].Def() == Edges.AddEdge(old(Wiring()), from, to)[k]
        ensures Linked(nodes[k].inputs) && Linked(nodes[k].outputs)
      {
        hide WellFormed;
        Edges.AddEdgeAt(old(Wiring()), from, to, k);
        IdsAppend(old(nodes[k].outputs), nodes[to]);
        IdsAppend(old(nodes[k].inputs), nodes[from]);
        assert old(Wiring())[k] == old(nodes[k].Def());
      }
      assert Wiring() == Edges.AddEdge(old(Wiring()), from, to);
    }

    lemma WiringFacts()
      requires Valid()
      ensures Wiring().Keys == nodes.Keys && |Wiring()| == |nodes|
      ensures WellFormed(Wiring()) && Closed(Wiring()) && StateOf(Wiring(), State())
      ensures forall id | id in topoOrder :: id in Wiring()
    {
      assert |Wiring().Keys| == |Wiring()| && |nodes.Keys| == |nodes|;
    }

    lemma StateFacts()
      requires Valid()
      ensures StateOf(Wiring(), State())
    {
    }

    /** Kahn's algorithm. The order of the two map iterations is left open. */
    method TopologicalSort() returns (order: seq<string>, r: Outcome)
      requires Valid()
      ensures r == if nodes == map[] then Fail(EmptyGraph) else if Acyclic(Wiring()) then Pass else Fail(CycleDetected)
      ensures r == Pass ==> order != [] && TopologicalOrder(Wiring(), order)
    {
      hide *;
      WiringFacts();
      if nodes == map[] {
        return [], Fail(EmptyGraph);
      }
      var result, degree := KahnRun();
      Topology.KahnOutcome(Wiring(), result, degree);
      if |result| != |nodes| {
        return [], Fail(CycleDetected);
      }
      return result, Pass;
    }

    method KahnRun() returns (result: seq<string>, degree: map<string, int>)
      requires Valid()
      ensures Topology.OuterInvariant(Wiring(), result, |result|, degree)
    {
      hide *;
      WiringFacts();
      var inDegree := InDegrees();
      var queue := Sources(inDegree);
      Topology.StartOuter(Wiring(), queue, inDegree);
      result, degree := DrainQueue(queue, inDegree);
    }

    method InDegrees() returns (inDegree: map<string, int>)
      requires Valid()
      ensures inDegree.Keys == nodes.Keys && forall id | id in nodes :: inDegree[id] == |Wiring()[id].inputs|
    {
      inDegree := map[];
      var todo := nodes.Keys;
      while todo != {}
        invariant todo <= nodes.Keys && inDegree.Keys == nodes.Keys - todo
        invariant forall id | id in inDegree :: inDegree[id] == |Wiring()[id].inputs|
        decreases todo
      {
        var id :| id in todo;
        inDegree := inDegree[id := |nodes[id].inputs|];
        todo := todo - {id};
      }
    }

    method Sources(inDegree: map<string, int>) returns (queue: seq<string>)
      ensures Distinct(queue)
      ensures forall id :: id in queue <==> id in inDegree && inDegree[id] == 0
    {
      queue := [];
      var todo := inDegree.Keys;
      while todo != {}
        invariant todo <= inDegree.Keys && Distinct(queue)
        invariant forall id :: id in queue <==> id in inDegree.Keys - todo && inDegree[id] == 0
        decreases todo
      {
        var id :| id in todo;
        if inDegree[id] == 0 {
          queue := queue + [id];
        }
        todo := todo - {id};
      }
    }

    /** The outer loop. `result` and the queue together are the nodes enqueued so far. */
    method DrainQueue(start: seq<string>, degree: map<string, int>)
      returns (result: seq<string>, degree': map<string, int>)
      requires Valid() && Topology.OuterInvariant(Wiring(), start, 0, degree)
      ensures Topology.OuterInvariant(Wiring(), result, |result|, degree')
    {
      hide *;
      ghost var g := Wiring();
      var queue, inDegree := start, degree;
      result := [];
      assert result + queue == queue;
      while |queue| > 0
        invariant Topology.OuterInvariant(g, result + queue, |result|, inDegree)
        decreases |g| - |result|
      {
        Topology.DoneSize(g, result + queue, |result|, inDegree);
        var node := queue[0];
        assert result + queue == result + [node] + queue[1..];
        queue, inDegree := ReleaseOutputs(node, result, queue[1..], inDegree);
        result := result + [node];
      }
      assert result + queue == result;
      degree' := inDegree;
    }

    /** The inner loop: lowers the degree of every output of `id` and enqueues those that reach zero. */
    method ReleaseOutputs(id: string, ghost done: seq<string>, queue: seq<string>, inDegree: map<string, int>)
      returns (queue': seq<string>, inDegree': map<string, int>)
      requires Valid() && Topology.OuterInvariant(Wiring(), done + [id] + queue, |done|, inDegree)
      ensures Topology.OuterInvariant(Wiring(), done + [id] + queue', |done| + 1, inDegree')
    {
      hide *;
      ghost var g, seen := Wiring(), done + [id] + queue;
      assert seen[|done|] == id;
      WiringFacts();
      Topology.EnterInner(g, seen, |done|, inDegree);
      queue', inDegree' := queue, inDegree;
      var outputs := NodeAt(id).outputs;
      for j := 0 to |outputs|
        invariant seen == done + [id] + queue'
        invariant Topology.InnerInvariant(g, seen, |done|, j, inDegree')
      {
        var output := outputs[j].id;
        Topology.ReleaseOutput(g, seen, |done|, j, inDegree');
        inDegree' := inDegree'[output := inDegree'[output] - 1];
        if inDegree'[output] == 0 {
          queue' := queue' + [output];
          seen := seen + [output];
        }
      }
      Topology.LeaveInner(g, seen, |done|, inDegree');
    }

    method BuildTopology() returns (r: Outcome)
      requires Valid()
      modifies this`topoOrder
      ensures Valid() && Wiring() == old(Wiring()) && State() == old(State())
      ensures r == if nodes == map[] then Fail(EmptyGraph) else if Acyclic(Wiring()) then Pass else Fail(CycleDetected)
      ensures r == Pass ==> topoOrder != [] && TopologicalOrder(Wiring(), topoOrder)
      ensures r != Pass ==> topoOrder == old(topoOrder)
    {
      hide *;
      var order;
      order, r := TopologicalSort();
      if r != Pass {
        return;
      }
      WiringFacts();
      Topology.TopologicalIsEvaluationOrder(Wiring(), order);
      SetOrder(order);
    }

    method SetOrder(order: seq<string>)
      requires Valid() && forall id | id in order :: id in nodes
      modifies this`topoOrder
      ensures Valid() && Wiring() == old(Wiring()) && State() == old(State()) && topoOrder == order
    {
      topoOrder := order;
    }

    method SetInput(id: string, value: bool, now: int) returns (r: Outcome)
      requires Valid()
      modifies nodes.Values`value, nodes.Values`prevValue, nodes.Values`lastChanged
      ensures Valid() && Wiring() == old(Wiring())
      ensures r == if id !in nodes then Fail(NodeNotFound) else if nodes[id].kind != Input then Fail(NotAnInput) else Pass
      ensures State() == LogicModel.SetInput(Wiring(), old(State()), id, value, now)
      ensures r == Pass <==> IsInput(Wiring(), id)
      ensures r != Pass ==> State() == old(State())
    {
      if id !in nodes {
        return Fail(NodeNotFound);
      }
      var node := nodes[id];
      if node.kind != Input {
        return Fail(NotAnInput);
      }
      node.SetInput(value, now);
      OneNodeChanged(node);
      return Pass;
    }

    /** The loop over a batch of inputs: stops at the first id that is not an input node, keeping what was set. */
    method SetInputs(inputs: map<string, bool>, now: string -> int) returns (r: Outcome, ghost done: map<string, bool>)
      requires Valid()
      modifies nodes.Values`value, nodes.Values`prevValue, nodes.Values`lastChanged
      ensures Valid() && Wiring() == old(Wiring())
      ensures r == Pass <==> forall id | id in inputs :: IsInput(Wiring(), id)
      ensures done.Keys <= inputs.Keys && (r == Pass ==> done == inputs)
      ensures forall id | id in done :: done[id] == inputs[id]
      ensures State() == LogicModel.SetInputs(Wiring(), old(State()), done, now)
    {
      hide *;
      StateFacts();
      ghost var g, st := Wiring(), State();
      var todo := inputs.Keys;
      done := map[];
      while todo != {}
        invariant todo <= inputs.Keys && done.Keys == inputs.Keys - todo
        invariant forall id | id in done :: done[id] == inputs[id] && IsInput(g, id)
        invariant Valid() && Wiring() == g
        invariant State() == LogicModel.SetInputs(g, st, done, now)
        decreases todo
      {
        var id :| id in todo;
        r := SetInput(id, inputs[id], now(id));
        if r != Pass {
          return;
        }
        SetInputsStep(g, st, done, id, inputs[id], now);
        done := done[id := inputs[id]];
        todo := todo - {id};
      }
      return Pass, done;
    }

    method EvaluateIncremental(changedInputs: map<string, bool>, nowSet: string -> int, start: int, now: string -> int)
      returns (result: EvaluationResult, r: Outcome, ghost done: map<string, bool>)
      requires Valid()
      modifies nodes.Values`value, nodes.Values`prevValue, nodes.Values`lastChanged, nodes.Values`latched
      ensures Valid() && Wiring() == old(Wiring())
      ensures forall id | id in topoOrder :: id in Wiring()
      ensures r == Pass <==> topoOrder != [] && forall id | id in changedInputs :: IsInput(Wiring(), id)
      ensures done.Keys <= changedInputs.Keys && forall id | id in done :: done[id] == changedInputs[id]
      ensures r != Pass ==> State() == LogicModel.SetInputs(Wiring(), old(State()), done, nowSet)
      ensures r == Pass ==>
        var st := LogicModel.SetInputs(Wiring(), old(State()), changedInputs, nowSet);
        var p := LogicModel.Pass(Wiring(), st, topoOrder, start, now);
        State() == p.st && result == EvaluationResult(p.changed, p.trips, start)
    {
      hide *;
      WiringFacts();
      result := EvaluationResult(false, [], start);
      r, done := SetInputs(changedInputs, nowSet);
      if r != Pass {
        return;
      }
      result, r := Evaluate(start, now);
    }

    method GetOrAddInputNode(id: string) returns (node: LogicNode?, r: Outcome)
      requires Valid()
      modifies this`nodes
      ensures Valid() && topoOrder == old(topoOrder)
      ensures r == Pass <==> id !in old(nodes) || old(nodes)[id].kind == Input
      ensures r == Pass ==> node != null && id in nodes && node == nodes[id] && node.kind == Input
      ensures id in old(nodes) ==> nodes == old(nodes)
      ensures id !in old(nodes) ==> nodes.Keys == old(nodes).Keys + {id}
      ensures Wiring() == Edges.AddNode(old(Wiring()), id, NodeDef(Input, id, 0, 0, false, "", [], []))
    {
      if id in nodes {
        node := nodes[id];
        if node.kind != Input {
          return null, Fail(NotAnInput);
        }
        return node, Pass;
      }
      node := new LogicNode(id, Input, id, 0, 0, false, "", 0);
      r := AddNode(node);
    }

    /** One pass over the built order; `start` and `now` are the clock readings. */
    method Evaluate(start: int, now: string -> int) returns (result: EvaluationResult, r: Outcome)
      requires Valid()
      modifies nodes.Values`value, nodes.Values`prevValue, nodes.Values`lastChanged, nodes.Values`latched
      ensures Valid() && Wiring() == old(Wiring())
      ensures r == if topoOrder == [] then Fail(TopologyNotBuilt) else Pass
      ensures r != Pass ==> State() == old(State())
      ensures forall id | id in topoOrder :: id in Wiring()
      ensures r == Pass ==>
        var p := LogicModel.Pass(Wiring(), old(State()), topoOrder, start, now);
        State() == p.st && result == EvaluationResult(p.changed, p.trips, start)
    {
      hide LogicGraph.Wired, LogicGraph.Wiring, LogicGraph.State, Closed, Mirrored, InputValues, VisitNode, LogicModel.Pass;
      result := EvaluationResult(false, [], start);
      WiringFacts();
      if |topoOrder| == 0 {
        return result, Fail(TopologyNotBuilt);
      }
      var changed := false;
      var tripSignals: seq<TripSignal> := [];
      ghost var g, st := Wiring(), State();
      PassEmpty(g, st, start, now);
      for k := 0 to |topoOrder|
        invariant Valid() && Wiring() == g
        invariant LogicModel.PassResult(State(), changed, tripSignals) == LogicModel.Pass(g, st, topoOrder[..k], start, now)
      {
        PassStep(g, st, topoOrder, k, start, now);
        var node := NodeAt(topoOrder[k]);
        if node.kind == Input {
          continue;
        }
        var differs := VisitOne(node, start, now(node.id));
        changed := changed || differs;
        if node.kind == Output && node.tripOutput && node.value {
          tripSignals := tripSignals + [TripSignal(node.deviceId, node.id, node.name, start)];
        }
      }
      assert topoOrder[..|topoOrder|] == topoOrder;
      result := EvaluationResult(changed, tripSignals, start);
      return result, Pass;
    }

    function NodeAt(id: string): (node: LogicNode)
      requires Valid() && id in nodes
      reads this`nodes, this`topoOrder, nodes.Values`inputs, nodes.Values`outputs
      ensures node.id == id && node == nodes[id]
      ensures Wiring()[id] == node.Def() && Wiring()[id].outputs == Ids(node.outputs)
    {
      nodes[id]
    }

    method VisitOne(node: LogicNode, start: int, now: int) returns (differs: bool)
      requires Valid() && Registered(node)
      modifies node`value, node`prevValue, node`lastChanged, node`latched
      ensures Valid() && Wiring() == old(Wiring())
      ensures State() == old(State())[node.id :=
        VisitNode(Wiring()[node.id], InputValues(Wiring()[node.id], old(State())), old(State())[node.id], start, now)]
      ensures differs == (State()[node.id].value != old(State())[node.id].value)
      ensures node.value == State()[node.id].value
    {
      assert node.Values() == InputValues(Wiring()[node.id], State()) by {
        assert Linked(node.inputs);
        forall i | 0 <= i < |node.inputs| ensures Registered(node.inputs[i]) { assert node.inputs[i] in node.inputs; }
      }
      differs := node.Visit(start, now);
      OneNodeChanged(node);
    }

    method ResetLatches()
      requires Valid()
      modifies nodes.Values`value, nodes.Values`latched
      ensures Valid() && Wiring() == old(Wiring())
      ensures State() == LogicModel.ResetLatches(Wiring(), old(State()))
    {
      hide *;
      WiringFacts();
      ghost var g, st := Wiring(), State();
      var todo := nodes.Keys;
      while todo != {}
        invariant todo <= nodes.Keys && Valid() && Wiring() == g
        invariant State() == ResetExcept(g, st, todo)
        decreases todo
      {
        var id :| id in todo;
        ResetStep(g, st, todo, id);
        ResetOne(NodeAt(id));
        todo := todo - {id};
      }
    }

    method ResetOne(node: LogicNode)
      requires Valid() && Registered(node)
      modifies node`value, node`latched
      ensures Valid() && Wiring() == old(Wiring())
      ensures State() == old(State())[node.id := ResetNode(Wiring()[node.id], old(State())[node.id])]
    {
      node.ResetLatch();
      OneNodeChanged(node);
    }
  }

  lemma IdsAppend(ns: seq<LogicNode>, n: LogicNode)
    ensures Ids(ns + [n]) == Ids(ns) + [n.id]
  {
  }
}
