/** The graph shape shared by src/graph/dijkstra.rs, astar.rs, prim.rs and
    kruskal.rs: a vector of node values and a map from a node id to the list
    of its outgoing edges.  Each of those files declares its own copy of
    `Graph`, `Edge`, `edges` and `add_edge`; the copies are identical except
    that prim's `add_edge` inserts both directions.  Walks along edges, their
    cost, and the potential bound used to reason about shortest paths are
    defined here once. */
module Graphs {
  import opened Base

  datatype Edge = Edge(src: nat, dst: nat, cost: nat)

  datatype Graph<V> = Graph(nodes: seq<V>, edges: map<nat, seq<Edge>>)

  /** `edges(n)`: the stored list of `n`, or the empty slice. */
  function Edges<V>(g: Graph<V>, u: nat): seq<Edge>
  {
    if u in g.edges then g.edges[u] else []
  }

  /** `add_edge` of dijkstra.rs, astar.rs and kruskal.rs: append to `src`'s list. */
  function AddEdge<V>(g: Graph<V>, src: nat, dst: nat, cost: nat): Graph<V>
  {
    Graph(g.nodes, g.edges[src := Edges(g, src) + [Edge(src, dst, cost)]])
  }

  /** `add_edge` of prim.rs: the edge and its reversal. */
  function AddUndirected<V>(g: Graph<V>, src: nat, dst: nat, cost: nat): Graph<V>
  {
    AddEdge(AddEdge(g, src, dst, cost), dst, src, cost)
  }

  /** `add_edge` appends exactly one edge, to `src`'s list, and keeps the nodes. */
  lemma AddEdgeAppends<V>(g: Graph<V>, src: nat, dst: nat, cost: nat, u: nat)
    ensures AddEdge(g, src, dst, cost).nodes == g.nodes
    ensures Edges(AddEdge(g, src, dst, cost), u) ==
              if u == src then Edges(g, u) + [Edge(src, dst, cost)] else Edges(g, u)
  {
  }

  /** prim's `add_edge` appends the edge to `src`'s list and its reversal to
      `dst`'s list (both to the same list for a self-loop). */
  lemma AddUndirectedAppends<V>(g: Graph<V>, src: nat, dst: nat, cost: nat, u: nat)
    ensures Edges(AddUndirected(g, src, dst, cost), u) ==
              Edges(g, u)
              + (if u == src then [Edge(src, dst, cost)] else [])
              + (if u == dst then [Edge(dst, src, cost)] else [])
  {
    AddEdgeAppends(g, src, dst, cost, u);
    AddEdgeAppends(AddEdge(g, src, dst, cost), dst, src, cost, u);
  }

  /** Every stored edge sits in the list of its own `src`, as `add_edge` builds it. */
  ghost predicate WellKeyed<V>(g: Graph<V>)
  {
    forall u, i :: u in g.edges && 0 <= i < |g.edges[u]| ==> g.edges[u][i].src == u
  }

  /** Every edge end and every key is a valid index into `nodes`. */
  ghost predicate ValidIds<V>(g: Graph<V>)
  {
    && (forall u :: u in g.edges ==> u < |g.nodes|)
    && (forall u, i :: u in g.edges && 0 <= i < |g.edges[u]| ==> g.edges[u][i].dst < |g.nodes|)
  }

  /** All edge destinations. */
  ghost function Dsts<V>(g: Graph<V>): set<nat>
  {
    set u, i | u in g.edges && 0 <= i < |g.edges[u]| :: g.edges[u][i].dst
  }

  lemma DstInDsts<V>(g: Graph<V>, u: nat, i: nat)
    requires i < |Edges(g, u)|
    ensures Edges(g, u)[i].dst in Dsts(g)
  {
    assert u in g.edges;
  }

  /** The sum of the costs of a list of edges. */
  function Cost(es: seq<Edge>): nat
  {
    if es == [] then 0 else Cost(es[..|es| - 1]) + es[|es| - 1].cost
  }

  lemma CostAppend(es: seq<Edge>, e: Edge)
    ensures Cost(es + [e]) == Cost(es) + e.cost
  {
    assert (es + [e])[..|es|] == es;
  }

  /** `ns` is a walk that follows `es`: edge i leaves node i (it is in node i's
      list) and enters node i+1. */
  ghost predicate Walk<V>(g: Graph<V>, ns: seq<nat>, es: seq<Edge>)
  {
    && |ns| == |es| + 1
    && forall i :: 0 <= i < |es| ==> es[i] in Edges(g, ns[i]) && es[i].dst == ns[i + 1]
  }

  /** A walk from `s` to `t`. */
  ghost predicate Reaches<V>(g: Graph<V>, s: nat, t: nat, ns: seq<nat>, es: seq<Edge>)
  {
    Walk(g, ns, es) && ns[0] == s && ns[|ns| - 1] == t
  }

  lemma ReachesExtend<V>(g: Graph<V>, s: nat, t: nat, ns: seq<nat>, es: seq<Edge>, i: nat)
    requires Reaches(g, s, t, ns, es) && i < |Edges(g, t)|
    ensures Reaches(g, s, Edges(g, t)[i].dst, ns + [Edges(g, t)[i].dst], es + [Edges(g, t)[i]])
    ensures Cost(es + [Edges(g, t)[i]]) == Cost(es) + Edges(g, t)[i].cost
  {
    CostAppend(es, Edges(g, t)[i]);
    var ns', es' := ns + [Edges(g, t)[i].dst], es + [Edges(g, t)[i]];
    forall j | 0 <= j < |es'| ensures es'[j] in Edges(g, ns'[j]) && es'[j].dst == ns'[j + 1] {
      if j < |es| {
        assert es'[j] == es[j] && ns'[j] == ns[j] && ns'[j + 1] == ns[j + 1];
      }
    }
  }

  lemma ReachesSelf<V>(g: Graph<V>, s: nat)
    ensures Reaches(g, s, s, [s], [])
  {
  }

  /** Prepending an edge to a walk. */
  lemma WalkPrepend<V>(g: Graph<V>, ns: seq<nat>, es: seq<Edge>, u: nat, i: nat)
    requires Walk(g, ns, es) && i < |Edges(g, u)| && Edges(g, u)[i].dst == ns[0]
    ensures Walk(g, [u] + ns, [Edges(g, u)[i]] + es)
  {
    var ns', es' := [u] + ns, [Edges(g, u)[i]] + es;
    forall j | 0 <= j < |es'| ensures es'[j] in Edges(g, ns'[j]) && es'[j].dst == ns'[j + 1] {
      if j > 0 {
        assert es'[j] == es[j - 1] && ns'[j] == ns[j - 1] && ns'[j + 1] == ns[j];
      }
    }
  }

  lemma {:induction false} CostPrepend(e: Edge, es: seq<Edge>)
    ensures Cost([e] + es) == e.cost + Cost(es)
    decreases |es|
  {
    if es != [] {
      var k := |es| - 1;
      assert ([e] + es)[..k + 1] == [e] + es[..k];
      CostPrepend(e, es[..k]);
    }
  }

  /** The cost of a walk is the cost of any prefix plus the cost of the rest. */
  lemma {:induction false} CostSplit(es: seq<Edge>, j: nat)
    requires j <= |es|
    ensures Cost(es) == Cost(es[..j]) + Cost(es[j..])
    decreases |es|
  {
    if j < |es| {
      var k := |es| - 1;
      assert es[..k][..j] == es[..j];
      assert es[j..][..k - j] == es[..k][j..];
      CostSplit(es[..k], j);
    } else {
      assert es[..j] == es && es[j..] == [];
    }
  }

  /** The part of a walk from its node `j` on is a walk. */
  lemma WalkSuffix<V>(g: Graph<V>, ns: seq<nat>, es: seq<Edge>, j: nat)
    requires Walk(g, ns, es) && j <= |es|
    ensures Walk(g, ns[j..], es[j..])
  {
    var ns', es' := ns[j..], es[j..];
    forall k | 0 <= k < |es'| ensures es'[k] in Edges(g, ns'[k]) && es'[k].dst == ns'[k + 1] {
      assert es'[k] == es[j + k] && ns'[k] == ns[j + k] && ns'[k + 1] == ns[j + k + 1];
    }
  }

  /** Every edge out of a node of `m` leads into `m` without exceeding that
      node's value plus the edge cost: the relaxed state at which
      Bellman-Ford style algorithms stop. */
  ghost predicate Closed<V>(g: Graph<V>, m: map<nat, nat>)
  {
    forall u, i :: u in m && 0 <= i < |Edges(g, u)| ==>
      Edges(g, u)[i].dst in m && m[Edges(g, u)[i].dst] <= m[u] + Edges(g, u)[i].cost
  }

  /** A walk without its last edge, and that edge. */
  lemma WalkDropLast<V>(g: Graph<V>, ns: seq<nat>, es: seq<Edge>)
    requires Walk(g, ns, es) && es != []
    ensures Walk(g, ns[..|es|], es[..|es| - 1])
    ensures es[|es| - 1] in Edges(g, ns[|es| - 1]) && es[|es| - 1].dst == ns[|es|]
    ensures Cost(es) == Cost(es[..|es| - 1]) + es[|es| - 1].cost
  {
    var k := |es| - 1;
    var ns', es' := ns[..k + 1], es[..k];
    forall j | 0 <= j < |es'| ensures es'[j] in Edges(g, ns'[j]) && es'[j].dst == ns'[j + 1] {
      assert es'[j] == es[j] && ns'[j] == ns[j] && ns'[j + 1] == ns[j + 1];
    }
  }

  /** An edge out of a node of a closed map. */
  lemma ClosedEdge<V>(g: Graph<V>, m: map<nat, nat>, u: nat, e: Edge)
    requires Closed(g, m) && u in m && e in Edges(g, u)
    ensures e.dst in m && m[e.dst] <= m[u] + e.cost
  {
    var i :| 0 <= i < |Edges(g, u)| && Edges(g, u)[i] == e;
  }

  /** Along a walk that starts inside a closed map, the map's value at the end
      is at most the value at the start plus the cost of the walk. */
  lemma {:induction false} WalkBound<V>(g: Graph<V>, m: map<nat, nat>, ns: seq<nat>, es: seq<Edge>)
    requires Closed(g, m) && Walk(g, ns, es) && ns[0] in m
    ensures ns[|ns| - 1] in m && m[ns[|ns| - 1]] <= m[ns[0]] + Cost(es)
    decreases |es|
  {
    if es != [] {
      var k := |es| - 1;
      WalkDropLast(g, ns, es);
      var ns', es' := ns[..k + 1], es[..k];
      WalkBound(g, m, ns', es');
      ClosedEdge(g, m, ns[k], es[k]);
    }
  }

  /** Edge `k` of the walk raises the map by exactly its cost. */
  ghost predicate TightAt(m: map<nat, nat>, ns: seq<nat>, es: seq<Edge>, k: nat)
    requires |ns| == |es| + 1 && k < |es|
  {
    ns[k] in m && ns[k + 1] in m && m[ns[k + 1]] == m[ns[k]] + es[k].cost
  }

  /** Every edge of the walk raises the map by exactly its cost. */
  ghost predicate Tight(m: map<nat, nat>, ns: seq<nat>, es: seq<Edge>)
    requires |ns| == |es| + 1
  {
    forall k :: 0 <= k < |es| ==> TightAt(m, ns, es, k)
  }

  /** A tight walk stays tight when one more tight edge is added. */
  lemma TightExtend(m: map<nat, nat>, ns: seq<nat>, es: seq<Edge>)
    requires |ns| == |es| + 1 && es != []
    requires Tight(m, ns[..|es|], es[..|es| - 1]) && TightAt(m, ns, es, |es| - 1)
    ensures Tight(m, ns, es)
  {
    var k := |es| - 1;
    var ns', es' := ns[..k + 1], es[..k];
    forall j | 0 <= j < k ensures TightAt(m, ns, es, j) {
      assert TightAt(m, ns', es', j);
      assert es'[j] == es[j] && ns'[j] == ns[j] && ns'[j + 1] == ns[j + 1];
    }
  }

  /** A walk whose cost is exactly the rise of a closed map along it uses
      only tight edges: each one raises the map by exactly its cost. */
  lemma {:induction false} TightWalk<V>(g: Graph<V>, m: map<nat, nat>, ns: seq<nat>, es: seq<Edge>)
    requires Closed(g, m) && Walk(g, ns, es) && ns[0] in m
    requires ns[|ns| - 1] in m && m[ns[|ns| - 1]] == m[ns[0]] + Cost(es)
    ensures Tight(m, ns, es)
    decreases |es|
  {
    if es != [] {
      var k := |es| - 1;
      WalkDropLast(g, ns, es);
      var ns', es' := ns[..k + 1], es[..k];
      WalkBound(g, m, ns', es');
      ClosedEdge(g, m, ns[k], es[k]);
      TightWalk(g, m, ns', es');
      assert TightAt(m, ns, es, k);
      TightExtend(m, ns, es);
    }
  }
}
