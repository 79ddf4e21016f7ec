/** Kahn's algorithm on graph values: the loop invariants of `TopologicalSort`,
    the step lemmas that keep them, and what its two outcomes mean. */
module Topology {
  import opened LogicModel

  /** How many entries of `s` lie outside `done`; parallel edges count separately. */
  ghost function Outside(s: seq<string>, done: set<string>): (n: nat) {
    if s == [] then 0
    else Outside(s[..|s| - 1], done) + if s[|s| - 1] in done then 0 else 1
  }

  /** The nodes enqueued so far, in order, are `seen`; the first `k` of them are the result, the rest the queue. */
  ghost predicate Enqueued(g: Graph, seen: seq<string>, k: nat, degree: map<string, int>) {
    && k <= |seen|
    && degree.Keys == g.Keys
    && Distinct(seen)
    && (forall id | id in seen :: id in g)
    && (forall id {:trigger degree[id]} {:trigger id in seen} | id in g :: degree[id] == 0 <==> id in seen)
    && forall m, i | 0 <= m < k && i in g[seen[m]].inputs :: i in seen[..m]
  }

  /** Between two turns of the outer loop a degree counts the inputs that are not yet in the result. */
  ghost predicate OuterInvariant(g: Graph, seen: seq<string>, k: nat, degree: map<string, int>) {
    && Enqueued(g, seen, k, degree)
    && forall id {:trigger degree[id]} | id in g :: degree[id] == Outside(g[id].inputs, Elems(seen[..k]))
  }

  /** While node `seen[k]`, taken from the queue, has released its first `j` outputs. */
  ghost predicate InnerInvariant(g: Graph, seen: seq<string>, k: nat, j: nat, degree: map<string, int>) {
    && k < |seen|
    && Enqueued(g, seen, k + 1, degree)
    && j <= |g[seen[k]].outputs|
    && forall id {:trigger degree[id]} | id in g ::
         degree[id] == Outside(g[id].inputs, Elems(seen[..k])) - multiset(g[seen[k]].outputs[..j])[id]
  }

  lemma {:induction false} OutsideZero(s: seq<string>, done: set<string>)
    ensures Outside(s, done) == 0 <==> forall x | x in s :: x in done
  {
    if s != [] {
      var n := |s| - 1;
      OutsideZero(s[..n], done);
      assert s == s[..n] + [s[n]];
    }
  }

  lemma {:induction false} OutsideNothing(s: seq<string>)
    ensures Outside(s, {}) == |s|
  {
    if s != [] { OutsideNothing(s[..|s| - 1]); }
  }

  lemma {:induction false} OutsideAdd(s: seq<string>, done: set<string>, n: string)
    requires n !in done
    ensures Outside(s, done) == Outside(s, done + {n}) + multiset(s)[n]
  {
    if s != [] {
      var m := |s| - 1;
      OutsideAdd(s[..m], done, n);
      assert s == s[..m] + [s[m]];
    }
  }

  lemma StartOuter(g: Graph, queue: seq<string>, degree: map<string, int>)
    requires degree.Keys == g.Keys && Distinct(queue)
    requires forall id | id in g :: degree[id] == |g[id].inputs|
    requires forall id :: id in queue <==> id in g && degree[id] == 0
    ensures OuterInvariant(g, queue, 0, degree)
  {
    assert Elems(queue[..0]) == {};
    forall id | id in g ensures degree[id] == Outside(g[id].inputs, {}) { OutsideNothing(g[id].inputs); }
  }

  lemma EnterInner(g: Graph, seen: seq<string>, k: nat, degree: map<string, int>)
    requires OuterInvariant(g, seen, k, degree) && k < |seen|
    ensures seen[k] in g && InnerInvariant(g, seen, k, 0, degree)
  {
    var n := seen[k];
    assert n in seen;
    OutsideZero(g[n].inputs, Elems(seen[..k]));
  }

  lemma CountSplit(s: seq<string>, j: nat)
    requires j < |s|
    ensures multiset(s[..j + 1]) == multiset(s[..j])[s[j] := multiset(s[..j])[s[j]] + 1]
    ensures multiset(s)[s[j]] > multiset(s[..j])[s[j]]
  {
    assert s[..j + 1] == s[..j] + [s[j]];
    assert s == s[..j + 1] + s[j + 1..];
  }

  /** The node whose outputs are being released still counts in the degree of each output not yet released. */
  lemma DegreePositive(g: Graph, seen: seq<string>, k: nat, j: nat, degree: map<string, int>)
    requires WellFormed(g) && InnerInvariant(g, seen, k, j, degree) && j < |g[seen[k]].outputs|
    ensures var o := g[seen[k]].outputs[j]; o in g && degree[o] > 0
  {
    var n := seen[k];
    var o := g[n].outputs[j];
    assert n in seen && o in g[n].outputs;
    assert MirroredAt(g, n, o);
    OutsideAdd(g[o].inputs, Elems(seen[..k]), n);
    CountSplit(g[n].outputs, j);
  }

  lemma EnqueueOne(g: Graph, seen: seq<string>, k: nat, degree: map<string, int>, o: string)
    requires Enqueued(g, seen, k, degree) && o in g && degree[o] == 1
    ensures Enqueued(g, seen + [o], k, degree[o := 0])
  {
    var seen' := seen + [o];
    assert o !in seen;
    forall m, i | 0 <= m < k && i in g[seen'[m]].inputs ensures i in seen'[..m] {
      assert seen'[m] == seen[m];
      assert seen'[..m] == seen[..m];
    }
  }

  lemma LowerOne(g: Graph, seen: seq<string>, k: nat, degree: map<string, int>, o: string)
    requires Enqueued(g, seen, k, degree) && o in g && degree[o] > 1
    ensures Enqueued(g, seen, k, degree[o := degree[o] - 1])
  {
  }

  /** Releasing one output: it reaches degree zero exactly when it is enqueued. */
  lemma ReleaseOutput(g: Graph, seen: seq<string>, k: nat, j: nat, degree: map<string, int>)
    requires WellFormed(g) && InnerInvariant(g, seen, k, j, degree) && j < |g[seen[k]].outputs|
    ensures var o := g[seen[k]].outputs[j];
            && o in g && o in degree
            && var d := degree[o := degree[o] - 1];
            InnerInvariant(g, if d[o] == 0 then seen + [o] else seen, k, j + 1, d)
  {
    var n := seen[k];
    var o := g[n].outputs[j];
    DegreePositive(g, seen, k, j, degree);
    CountSplit(g[n].outputs, j);
    if degree[o] == 1 {
      EnqueueOne(g, seen, k + 1, degree, o);
      assert (seen + [o])[..k] == seen[..k];
    } else {
      LowerOne(g, seen, k + 1, degree, o);
    }
  }

  lemma LeaveInner(g: Graph, seen: seq<string>, k: nat, degree: map<string, int>)
    requires Mirrored(g) && k < |seen| && seen[k] in g
    requires InnerInvariant(g, seen, k, |g[seen[k]].outputs|, degree)
    ensures OuterInvariant(g, seen, k + 1, degree)
  {
    var n := seen[k];
    var outs := g[n].outputs;
    assert outs[..|outs|] == outs;
    assert Elems(seen[..k + 1]) == Elems(seen[..k]) + {n};
    forall id | id in g ensures degree[id] == Outside(g[id].inputs, Elems(seen[..k + 1])) {
      OutsideAdd(g[id].inputs, Elems(seen[..k]), n);
      assert MirroredAt(g, n, id);
    }
  }

  // ---------------------------------------------------------------- the two outcomes

  lemma {:induction false} DistinctSize<T>(s: seq<T>)
    requires Distinct(s)
    ensures |Elems(s)| == |s|
  {
    if s != [] {
      var n := |s| - 1;
      DistinctSize(s[..n]);
      assert s == s[..n] + [s[n]];
      assert Elems(s) == Elems(s[..n]) + {s[n]};
      assert s[n] !in s[..n];
    }
  }

  lemma SubsetSize<T>(a: set<T>, b: set<T>)
    requires a <= b
    ensures |a| <= |b|
    ensures |a| == |b| ==> a == b
  {
    assert b == a + (b - a);
  }

  /** The number of results never exceeds the number of nodes, and equals it exactly when all are sorted. */
  lemma DoneSize(g: Graph, seen: seq<string>, k: nat, degree: map<string, int>)
    requires OuterInvariant(g, seen, k, degree)
    ensures k <= |seen|
    ensures |seen| <= |g|
    ensures |seen| == |g| <==> Elems(seen) == g.Keys
  {
    DistinctSize(seen);
    SubsetSize(Elems(seen), g.Keys);
    assert |g.Keys| == |g|;
  }

  /** A complete run yields a topological order. */
  lemma SortedIsTopological(g: Graph, seen: seq<string>, degree: map<string, int>)
    requires OuterInvariant(g, seen, |seen|, degree) && |seen| == |g|
    ensures TopologicalOrder(g, seen)
  {
    DoneSize(g, seen, |seen|, degree);
  }

  ghost predicate Waits(g: Graph, rest: set<string>, id: string) {
    id in g && exists i :: i in g[id].inputs && i in rest
  }

  ghost predicate Walk(g: Graph, p: seq<string>) {
    && (forall k | 0 <= k < |p| :: p[k] in g)
    && forall k | 0 <= k < |p| - 1 :: p[k] in g[p[k + 1]].inputs
  }

  /** In a graph where every node of a set has an input in that set, some walk closes:
      prepend such inputs until one repeats. */
  lemma {:induction false} WalkBack(g: Graph, rest: set<string>, p: seq<string>)
    requires forall id {:trigger Waits(g, rest, id)} | id in rest :: Waits(g, rest, id)
    requires p != [] && Distinct(p) && Elems(p) <= rest && Walk(g, p)
    ensures exists c: seq<string> :: Cycle(g, c)
    decreases |rest| - |p|
  {
    assert p[0] in Elems(p);
    assert Waits(g, rest, p[0]);
    var i :| i in g[p[0]].inputs && i in rest;
    assert Waits(g, rest, i);
    if i in p {
      CloseWalk(g, p, i);
    } else {
      ExtendWalk(g, p, i);
      DistinctSize([i] + p);
      SubsetSize(Elems([i] + p), rest);
      WalkBack(g, rest, [i] + p);
    }
  }

  lemma CloseWalk(g: Graph, p: seq<string>, i: string)
    requires p != [] && i in p && Walk(g, p)
    requires i in g[p[0]].inputs
    ensures exists c: seq<string> :: Cycle(g, c)
  {
    var k :| 0 <= k < |p| && p[k] == i;
    var c := [i] + p[..k + 1];
    assert Cycle(g, c);
  }

  lemma ExtendWalk(g: Graph, p: seq<string>, i: string)
    requires p != [] && i !in p && Distinct(p) && Walk(g, p) && i in g && i in g[p[0]].inputs
    ensures Distinct([i] + p) && Walk(g, [i] + p) && Elems([i] + p) == Elems(p) + {i}
  {
    var q := [i] + p;
    forall k | 0 <= k < |q| - 1 ensures q[k] in g[q[k + 1]].inputs { assert q[k + 1] == p[k]; }
  }

  lemma StuckWaits(g: Graph, seen: seq<string>, degree: map<string, int>, id: string)
    requires Closed(g) && OuterInvariant(g, seen, |seen|, degree) && id in g && id !in seen
    ensures Waits(g, g.Keys - Elems(seen), id)
  {
    assert seen[..|seen|] == seen;
    OutsideZero(g[id].inputs, Elems(seen));
  }

  /** An incomplete run leaves nodes that each wait for another of them, so there is a cycle. */
  lemma StuckIsCyclic(g: Graph, seen: seq<string>, degree: map<string, int>)
    requires Closed(g) && OuterInvariant(g, seen, |seen|, degree) && |seen| < |g|
    ensures !Acyclic(g)
  {
    var rest := g.Keys - Elems(seen);
    forall id | id in rest ensures Waits(g, rest, id) { StuckWaits(g, seen, degree, id); }
    DistinctSize(seen);
    assert |g.Keys| == |g|;
    if rest == {} {
      assert g.Keys <= Elems(seen) by { assert forall x | x in g.Keys :: x !in rest; }
      SubsetSize(g.Keys, Elems(seen));
      assert false;
    }
    var id :| id in rest;
    assert Elems([id]) == {id};
    WalkBack(g, rest, [id]);
  }

  ghost function IndexOf(s: seq<string>, x: string): (k: nat)
    requires x in s
    ensures k < |s| && s[k] == x
  {
    if s[0] == x then 0 else 1 + IndexOf(s[1..], x)
  }

  lemma {:induction false} CycleDescends(g: Graph, order: seq<string>, p: seq<string>, k: nat)
    requires TopologicalOrder(g, order) && Cycle(g, p) && k < |p|
    ensures p[0] in order && p[k] in order
    ensures IndexOf(order, p[k]) >= IndexOf(order, p[0]) + k
  {
    assert forall i | 0 <= i < |p| :: p[i] in Elems(order);
    if k > 0 {
      CycleDescends(g, order, p, k - 1);
      var n := IndexOf(order, p[k]);
      assert p[k - 1] in order[..n];
      var m :| 0 <= m < n && order[m] == p[k - 1];
      assert m == IndexOf(order, p[k - 1]);
    }
  }

  /** A graph with a topological order has no cycle. */
  lemma TopologicalIsAcyclic(g: Graph, order: seq<string>)
    requires TopologicalOrder(g, order)
    ensures Acyclic(g)
  {
    forall p: seq<string> ensures !Cycle(g, p) {
      if Cycle(g, p) { CycleDescends(g, order, p, |p| - 1); }
    }
  }

  /** What the length test at the end of the sort decides. */
  lemma KahnOutcome(g: Graph, seen: seq<string>, degree: map<string, int>)
    requires Closed(g) && OuterInvariant(g, seen, |seen|, degree)
    ensures |seen| <= |g|
    ensures |seen| == |g| <==> Acyclic(g)
    ensures |seen| == |g| ==> TopologicalOrder(g, seen)
  {
    DoneSize(g, seen, |seen|, degree);
    if |seen| == |g| {
      SortedIsTopological(g, seen, degree);
      TopologicalIsAcyclic(g, seen);
    } else {
      StuckIsCyclic(g, seen, degree);
    }
  }

  lemma TopologicalIsEvaluationOrder(g: Graph, order: seq<string>)
    requires TopologicalOrder(g, order)
    ensures EvaluationOrder(g, order)
  {
    forall id | id in order ensures id in g { assert id in Elems(order); }
    forall id | id in g ensures id in order { assert id in Elems(order); }
  }
}
