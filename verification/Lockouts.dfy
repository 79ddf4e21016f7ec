/** Device lockouts and the dispatch of trip signals as values, and what they mean over whole runs. */
module Lockouts {
  import Bits
  import opened LogicModel

  datatype Lockout = Lockout(active: bool, startTime: int, duration: int)

  type Table = map<string, Lockout>

  datatype Event =
    | SetLockout(id: string, duration: int, at: int)
    | ClearLockout(id: string)
    | Tick(at: int)
    | Dispatch(signals: seq<TripSignal>)

  function Expired(l: Lockout, at: int): Lockout {
    if l.active && at - l.startTime >= l.duration then l.(active := false) else l
  }

  predicate LockedOut(t: Table, device: string) {
    device in t && t[device].active
  }

  function Set(t: Table, id: string, duration: int, at: int): Table {
    t[id := Lockout(true, at, duration)]
  }

  function Clear(t: Table, id: string): Table {
    if id in t then t[id := t[id].(active := false)] else t
  }

  function CheckTimers(t: Table, at: int): Table {
    map id | id in t :: Expired(t[id], at)
  }

  /** The signals that `dispatchTrips` lets through. */
  function Passed(t: Table, signals: seq<TripSignal>): seq<TripSignal> {
    if signals == [] then []
    else
      var n := |signals| - 1;
      Passed(t, signals[..n]) + if LockedOut(t, signals[n].deviceId) then [] else [signals[n]]
  }

  datatype EngineState = EngineState(table: Table, tripCount: nat)

  ghost function Step(s: EngineState, e: Event): EngineState {
    match e
    case SetLockout(id, duration, at) => s.(table := Set(s.table, id, duration, at))
    case ClearLockout(id) => s.(table := Clear(s.table, id))
    case Tick(at) => s.(table := CheckTimers(s.table, at))
    case Dispatch(signals) => s.(tripCount := (s.tripCount + |Passed(s.table, signals)|) % Bits.U64)
  }

  ghost function Run(run: seq<Event>): EngineState {
    if run == [] then EngineState(map[], 0) else Step(Run(run[..|run| - 1]), run[|run| - 1])
  }

  // ---------------------------------------------------------------- the same facts read off the history

  /** Event `e` ends a lockout of `device` that began at `start` for `duration`. */
  predicate Ends(e: Event, device: string, start: int, duration: int) {
    || (e.SetLockout? && e.id == device)
    || (e.ClearLockout? && e.id == device)
    || (e.Tick? && e.at - start >= duration)
  }

  /** Event `k` locked the device out, and nothing since has ended that lockout. */
  ghost predicate HeldSince(run: seq<Event>, device: string, k: nat)
    requires k < |run|
  {
    && run[k].SetLockout? && run[k].id == device
    && forall j | k < j < |run| :: !Ends(run[j], device, run[k].at, run[k].duration)
  }

  ghost predicate Held(run: seq<Event>, device: string) {
    exists k: nat :: k < |run| && HeldSince(run, device, k)
  }

  lemma HeldStep(run: seq<Event>, device: string, k: nat)
    requires run != [] && k < |run| - 1
    ensures var n := |run| - 1;
            HeldSince(run, device, k) <==>
              HeldSince(run[..n], device, k) && !Ends(run[n], device, run[k].at, run[k].duration)
  {
    var n := |run| - 1;
    if HeldSince(run[..n], device, k) {
      forall j | k < j < n ensures !Ends(run[j], device, run[k].at, run[k].duration) { assert run[..n][j] == run[j]; }
    }
  }

  /** A device is locked out exactly when its last `SetLockout` was followed by no clear of that device and by no
      tick at or after its start plus duration. Without a new `SetLockout` an ended lockout never returns. */
  lemma {:induction false} LockedOutIffHeld(run: seq<Event>, device: string)
    ensures LockedOut(Run(run).table, device) <==> Held(run, device)
    ensures forall k: nat | k < |run| && HeldSince(run, device, k) ::
              device in Run(run).table && Run(run).table[device] == Lockout(true, run[k].at, run[k].duration)
  {
    if run != [] {
      var n := |run| - 1;
      var before := run[..n];
      LockedOutIffHeld(before, device);
      forall k: nat | k < n
        ensures HeldSince(run, device, k) <==>
                  HeldSince(before, device, k) && !Ends(run[n], device, run[k].at, run[k].duration)
      {
        HeldStep(run, device, k);
      }
      if LockedOut(Run(run).table, device) {
        if run[n].SetLockout? && run[n].id == device {
          assert HeldSince(run, device, n);
        } else {
          var k: nat :| k < n && HeldSince(before, device, k);
          assert HeldSince(run, device, k);
        }
      }
    }
  }

  /** How many signals the whole run lets through, judged by the history alone. */
  ghost function Unheld(run: seq<Event>, signals: seq<TripSignal>): nat {
    if signals == [] then 0
    else
      var n := |signals| - 1;
      Unheld(run, signals[..n]) + if Held(run, signals[n].deviceId) then 0 else 1
  }

  ghost function Delivered(run: seq<Event>): nat {
    if run == [] then 0
    else
      var n := |run| - 1;
      Delivered(run[..n]) + if run[n].Dispatch? then Unheld(run[..n], run[n].signals) else 0
  }

  lemma {:induction false} PassedAreUnheld(run: seq<Event>, signals: seq<TripSignal>)
    ensures |Passed(Run(run).table, signals)| == Unheld(run, signals)
  {
    if signals != [] {
      var n := |signals| - 1;
      PassedAreUnheld(run, signals[..n]);
      LockedOutIffHeld(run, signals[n].deviceId);
    }
  }

  /** The trip counter counts, modulo 2^64, the dispatched signals whose device had no standing lockout. */
  lemma {:induction false} TripCountIsDelivered(run: seq<Event>)
    ensures Run(run).tripCount == Delivered(run) % Bits.U64
  {
    if run != [] {
      var n := |run| - 1;
      TripCountIsDelivered(run[..n]);
      if run[n].Dispatch? { PassedAreUnheld(run[..n], run[n].signals); }
    }
  }

  lemma Snoc(s: seq<TripSignal>)
    requires s != []
    ensures multiset(s) == multiset(s[..|s| - 1]) + multiset{s[|s| - 1]}
  {
    assert s == s[..|s| - 1] + [s[|s| - 1]];
  }

  lemma PassedStep(t: Table, signals: seq<TripSignal>)
    requires signals != []
    ensures var n := |signals| - 1;
            multiset(Passed(t, signals)) ==
              if LockedOut(t, signals[n].deviceId) then multiset(Passed(t, signals[..n]))
              else multiset(Passed(t, signals[..n])) + multiset{signals[n]}
  {
    hide LockedOut;
    var n := |signals| - 1;
    var front := Passed(t, signals[..n]);
    if LockedOut(t, signals[n].deviceId) {
      assert Passed(t, signals) == front + [] == front;
    } else {
      assert Passed(t, signals) == front + [signals[n]];
    }
    hide Passed;
  }

  lemma {:induction false} PassedCount(t: Table, signals: seq<TripSignal>, x: TripSignal)
    ensures multiset(Passed(t, signals))[x] == if LockedOut(t, x.deviceId) then 0 else multiset(signals)[x]
  {
    hide LockedOut;
    if signals != [] {
      var n := |signals| - 1;
      PassedCount(t, signals[..n], x);
      PassedStep(t, signals);
      Snoc(signals);
      hide Passed;
    }
  }
}
