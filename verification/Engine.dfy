/** The protection engine around one logic graph: batches of inputs, lockouts, dispatch. */
module Engine {
  import Bits
  import opened LogicModel
  import opened LogicGraphs
  import opened Lockouts

  class ProtectionEngine {
    const graph: LogicGraph
    var lockouts: Table
    var evalCount: Bits.u64
    var tripCount: Bits.u64

    constructor (graph: LogicGraph)
      ensures this.graph == graph && lockouts == map[] && evalCount == 0 && tripCount == 0
    {
      this.graph := graph;
      lockouts, evalCount, tripCount := map[], 0, 0;
    }

    method SetLockout(id: string, duration: int, now: int)
      modifies this`lockouts
      ensures lockouts == Set(old(lockouts), id, duration, now)
    {
      lockouts := lockouts[id := Lockout(true, now, duration)];
    }

    method ClearLockout(id: string)
      modifies this`lockouts
      ensures lockouts == Clear(old(lockouts), id)
    {
      if id in lockouts {
        lockouts := lockouts[id := lockouts[id].(active := false)];
      }
    }

    method IsLockedOut(device: string) returns (b: bool)
      ensures b == LockedOut(lockouts, device)
    {
      if device in lockouts {
        return lockouts[device].active;
      }
      return false;
    }

    method CheckTimers(now: int)
      modifies this`lockouts
      ensures lockouts == Lockouts.CheckTimers(old(lockouts), now)
    {
      var todo := lockouts.Keys;
      while todo != {}
        invariant todo <= old(lockouts).Keys && lockouts.Keys == old(lockouts).Keys
        invariant forall id | id in lockouts ::
          lockouts[id] == if id in todo then old(lockouts)[id] else Expired(old(lockouts)[id], now)
        decreases todo
      {
        var id :| id in todo;
        var state := lockouts[id];
        if state.active && now - state.startTime >= state.duration {
          ClearLockout(id);
        }
        todo := todo - {id};
      }
    }

    /** `sent` is what the handlers receive. */
    method DispatchTrips(signals: seq<TripSignal>) returns (sent: seq<TripSignal>)
      modifies this`tripCount
      ensures sent == Passed(lockouts, signals)
      ensures tripCount == (old(tripCount) + |sent|) % Bits.U64
    {
      sent := [];
      for k := 0 to |signals|
        invariant sent == Passed(lockouts, signals[..k])
        invariant tripCount == (old(tripCount) + |sent|) % Bits.U64
      {
        assert signals[..k + 1][..k] == signals[..k];
        var locked := IsLockedOut(signals[k].deviceId);
        if locked {
          continue;
        }
        tripCount := (tripCount + 1) % Bits.U64;
        sent := sent + [signals[k]];
      }
      assert signals[..|signals|] == signals;
    }

    /** A batch of inputs is applied, evaluated once and dispatched; a bad input id stops it before the evaluation, with
        the inputs in `done` set already. */
    method SetInputsBatch(inputs: map<string, bool>, nowSet: string -> int, start: int, now: string -> int)
      returns (r: Outcome, sent: seq<TripSignal>, ghost done: map<string, bool>)
      requires graph.Valid()
      modifies this`evalCount, this`tripCount
      modifies graph.nodes.Values`value, graph.nodes.Values`prevValue, graph.nodes.Values`lastChanged
      modifies graph.nodes.Values`latched
      ensures graph.Valid() && graph.Wiring() == old(graph.Wiring())
      ensures forall id | id in graph.topoOrder :: id in graph.Wiring()
      ensures r == Pass <==>
        graph.topoOrder != [] && forall id | id in inputs :: IsInput(graph.Wiring(), id)
      ensures done.Keys <= inputs.Keys && forall id | id in done :: done[id] == inputs[id]
      ensures r != Pass ==> graph.State() == LogicModel.SetInputs(graph.Wiring(), old(graph.State()), done, nowSet)
      ensures r != Pass ==> sent == [] && tripCount == old(tripCount) && evalCount == old(evalCount)
      ensures r == Pass ==>
        var st := LogicModel.SetInputs(graph.Wiring(), old(graph.State()), inputs, nowSet);
        var p := LogicModel.Pass(graph.Wiring(), st, graph.topoOrder, start, now);
        && graph.State() == p.st
        && sent == Passed(lockouts, p.trips)
        && tripCount == (old(tripCount) + |sent|) % Bits.U64
        && evalCount == (old(evalCount) + 1) % Bits.U64
    {
      hide *;
      sent := [];
      var result;
      result, r, done := graph.EvaluateIncremental(inputs, nowSet, start, now);
      if r != Pass {
        return;
      }
      evalCount := (evalCount + 1) % Bits.U64;
      sent := DispatchTrips(result.tripSignals);
    }
  }
}
