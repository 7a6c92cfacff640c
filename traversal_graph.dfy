/** The graph shape of src/traversal/breadth_first_search.rs and
    depth_first_search.rs: a vector of nodes each holding a value, and a flat
    list of directed `(from, to)` id pairs.  Both files declare the same
    `Graph` and the same `neighbours`; it is defined here once, with walks
    along the edges. */
module TravGraph {
  import opened Base

  datatype Graph = Graph(nodes: seq<nat>, edges: seq<(nat, nat)>)

  /** The `to` of every edge from index `i` on whose `from` is `n`, in
      edge-list order. */
  function NeighboursFrom(es: seq<(nat, nat)>, n: nat, i: nat): seq<nat>
    requires i <= |es|
    decreases |es| - i
  {
    if i == |es| then []
    else (if es[i].0 == n then [es[i].1] else []) + NeighboursFrom(es, n, i + 1)
  }

  /** `neighbours(node_id)`. */
  function Neighbours(g: Graph, n: nat): seq<nat>
  {
    NeighboursFrom(g.edges, n, 0)
  }

  /** The neighbours are exactly the ends of the edges out of `n`. */
  lemma {:induction false} NeighboursFromMembers(es: seq<(nat, nat)>, n: nat, i: nat, y: nat)
    requires i <= |es|
    ensures y in NeighboursFrom(es, n, i) <==> exists k :: i <= k < |es| && es[k] == (n, y)
    decreases |es| - i
  {
    if i < |es| {
      NeighboursFromMembers(es, n, i + 1, y);
      if es[i] == (n, y) {
        assert y in NeighboursFrom(es, n, i);
      }
      if exists k :: i <= k < |es| && es[k] == (n, y) {
        var k :| i <= k < |es| && es[k] == (n, y);
        if k != i {
          assert y in NeighboursFrom(es, n, i + 1);
        }
      }
    }
  }

  lemma NeighboursMembers(g: Graph, n: nat)
    ensures forall y :: y in Neighbours(g, n) <==> (n, y) in g.edges
  {
    forall y ensures y in Neighbours(g, n) <==> (n, y) in g.edges {
      NeighboursFromMembers(g.edges, n, 0, y);
    }
  }

  /** The neighbours keep the order of the edge list: appending an edge
      appends its end to the neighbours of its start and nothing else. */
  lemma {:induction false} NeighboursFromAppend(es: seq<(nat, nat)>, a: nat, b: nat, n: nat, i: nat)
    requires i <= |es|
    ensures NeighboursFrom(es + [(a, b)], n, i) == NeighboursFrom(es, n, i) + (if a == n then [b] else [])
    decreases |es| - i
  {
    if i < |es| {
      var head := if es[i].0 == n then [es[i].1] else [];
      var tail := if a == n then [b] else [];
      assert (es + [(a, b)])[i] == es[i];
      NeighboursFromAppend(es, a, b, n, i + 1);
      assert head + (NeighboursFrom(es, n, i + 1) + tail) == (head + NeighboursFrom(es, n, i + 1)) + tail;
    } else {
      assert (es + [(a, b)])[i] == (a, b);
    }
  }

  lemma NeighboursAppend(g: Graph, a: nat, b: nat, n: nat)
    ensures Neighbours(Graph(g.nodes, g.edges + [(a, b)]), n) == Neighbours(g, n) + (if a == n then [b] else [])
  {
    NeighboursFromAppend(g.edges, a, b, n, 0);
  }

  /** Every edge end: the ids a traversal can reach besides its root. */
  ghost function Dsts(g: Graph): set<nat>
  {
    set i | 0 <= i < |g.edges| :: g.edges[i].1
  }

  lemma NeighboursInDsts(g: Graph, n: nat)
    ensures forall y :: y in Neighbours(g, n) ==> y in Dsts(g)
  {
    NeighboursMembers(g, n);
    forall y | y in Neighbours(g, n) ensures y in Dsts(g) {
      var i :| 0 <= i < |g.edges| && g.edges[i] == (n, y);
    }
  }

  /** Every edge end is a valid index into `nodes`. */
  ghost predicate DstsInRange(g: Graph)
  {
    forall i :: 0 <= i < |g.edges| ==> g.edges[i].1 < |g.nodes|
  }

  lemma NeighboursInRange(g: Graph, n: nat)
    requires DstsInRange(g)
    ensures forall y :: y in Neighbours(g, n) ==> y < |g.nodes|
  {
    NeighboursMembers(g, n);
    forall y | y in Neighbours(g, n) ensures y < |g.nodes| {
      var i :| 0 <= i < |g.edges| && g.edges[i] == (n, y);
    }
  }

  /** `ns` follows edges from `s` to `t`. */
  ghost predicate Path(g: Graph, ns: seq<nat>, s: nat, t: nat)
  {
    && |ns| > 0 && ns[0] == s && ns[|ns| - 1] == t
    && forall i :: 0 <= i < |ns| - 1 ==> (ns[i], ns[i + 1]) in g.edges
  }

  ghost predicate Reachable(g: Graph, s: nat, t: nat)
  {
    exists ns :: Path(g, ns, s, t)
  }

  lemma ReachableSelf(g: Graph, s: nat)
    ensures Reachable(g, s, s)
  {
    assert Path(g, [s], s, s);
  }

  lemma ReachableStep(g: Graph, s: nat, x: nat, y: nat)
    requires Reachable(g, s, x) && y in Neighbours(g, x)
    ensures Reachable(g, s, y)
  {
    NeighboursMembers(g, x);
    var ns :| Path(g, ns, s, x);
    var ns' := ns + [y];
    assert forall i :: 0 <= i < |ns| ==> ns'[i] == ns[i];
    assert Path(g, ns', s, y);
  }

  /** A walk from a neighbour of `s` is a walk from `s`. */
  lemma ReachablePrepend(g: Graph, s: nat, y: nat, t: nat)
    requires (s, y) in g.edges && Reachable(g, y, t)
    ensures Reachable(g, s, t)
  {
    var ns :| Path(g, ns, y, t);
    var ns' := [s] + ns;
    assert forall i :: 0 < i < |ns'| ==> ns'[i] == ns[i - 1];
    assert Path(g, ns', s, t);
  }

  /** A walk of more than one node continues from a neighbour of its start. */
  lemma PathTail(g: Graph, w: seq<nat>, s: nat, t: nat)
    requires Path(g, w, s, t) && |w| > 1
    ensures (s, w[1]) in g.edges && Path(g, w[1..], w[1], t)
  {
    var w' := w[1..];
    forall i | 0 <= i < |w'| - 1 ensures (w'[i], w'[i + 1]) in g.edges {
      assert w'[i] == w[i + 1] && w'[i + 1] == w[i + 2];
    }
  }

  /** A set that holds `s` and every neighbour of its members holds every
      node reachable from `s`. */
  lemma {:induction false} ClosedHoldsReachable(g: Graph, c: set<nat>, ns: seq<nat>, s: nat, t: nat)
    requires s in c && forall x, y :: x in c && y in Neighbours(g, x) ==> y in c
    requires Path(g, ns, s, t)
    ensures t in c
    decreases |ns|
  {
    if |ns| > 1 {
      var m := |ns| - 1;
      var ns' := ns[..m];
      assert Path(g, ns', s, ns[m - 1]) by {
        forall i | 0 <= i < |ns'| - 1 ensures (ns'[i], ns'[i + 1]) in g.edges {
          assert ns'[i] == ns[i] && ns'[i + 1] == ns[i + 1];
        }
      }
      ClosedHoldsReachable(g, c, ns', s, ns[m - 1]);
      NeighboursMembers(g, ns[m - 1]);
      assert (ns[m - 1], ns[m]) in g.edges;
    }
  }
}
