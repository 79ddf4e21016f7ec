/** How `AddNode` and `AddEdge` change the wiring, and that they keep it well formed. */
module Edges {
  import opened LogicModel

  function AddNode(g: Graph, id: string, d: NodeDef): Graph {
    if id in g then g else g[id := d.(inputs := [], outputs := [])]
  }

  function AddEdge(g: Graph, from: string, to: string): Graph {
    if from !in g || to !in g then g
    else
      var g1 := g[from := g[from].(outputs := g[from].outputs + [to])];
      g1[to := g1[to].(inputs := g1[to].inputs + [from])]
  }

  lemma AddNodeKeeps(g: Graph, id: string, d: NodeDef)
    requires WellFormed(g)
    ensures WellFormed(AddNode(g, id, d))
  {
    if id !in g {
      var g' := AddNode(g, id, d);
      forall a, b | a in g' && b in g' ensures MirroredAt(g', a, b) {
        if a != id && b != id { assert MirroredAt(g, a, b); }
        if a == id && b != id { assert a !in g[b].inputs; }
        if b == id && a != id { assert b !in g[a].outputs; }
      }
    }
  }

  /** The edge lists after `AddEdge`, entry by entry; `from == to` changes both lists of one node. */
  lemma AddEdgeAt(g: Graph, from: string, to: string, id: string)
    requires from in g && to in g && id in g
    ensures id in AddEdge(g, from, to)
    ensures AddEdge(g, from, to)[id].outputs == if id == from then g[id].outputs + [to] else g[id].outputs
    ensures AddEdge(g, from, to)[id].inputs == if id == to then g[id].inputs + [from] else g[id].inputs
  {
  }

  lemma AddEdgeKeeps(g: Graph, from: string, to: string)
    requires WellFormed(g)
    ensures WellFormed(AddEdge(g, from, to))
  {
    if from in g && to in g {
      var g' := AddEdge(g, from, to);
      assert g'.Keys == g.Keys;
      forall id | id in g' ensures (forall i | i in g'[id].inputs :: i in g') && (forall o | o in g'[id].outputs :: o in g') {
        AddEdgeAt(g, from, to, id);
      }
      forall a, b | a in g' && b in g' ensures MirroredAt(g', a, b) {
        AddEdgeAt(g, from, to, a);
        AddEdgeAt(g, from, to, b);
        assert MirroredAt(g, a, b);
      }
    }
  }
}
