/** `astar` of src/graph/astar.rs: a best-first search from `src` that stops
    at the first popped node whose value is `target`.  Entries carry the cost
    of the walk found so far (`rcost`) and that cost plus the heuristic of the
    node (`heur`); each pop takes some entry of least `heur`, ties left open.
    An edge improves its end when the new `rcost` is below the recorded
    one, and the answer's path is read back through the recorded
    predecessors.  The heuristic is a parameter, a total function of the
    graph and a node id. */
module AStar {
  import opened Base
  import opened Graphs
  import Dijkstra

  /** `QueueEntry`: compared by `heur` only. */
  datatype Entry = Entry(rcost: nat, heur: nat, node: nat)

  type Prevs = Dijkstra.Prevs

  type Walks = map<nat, (seq<nat>, seq<Edge>)>

  /** The heuristic never drops by more than the cost of an edge. */
  ghost predicate Consistent<V>(g: Graph<V>, h: (Graph<V>, nat) -> nat)
  {
    forall u, i :: 0 <= i < |Edges(g, u)| ==> h(g, u) <= Edges(g, u)[i].cost + h(g, Edges(g, u)[i].dst)
  }

  /** The heuristic never overestimates: at every node it is at most the
      cost of any walk from there to a node whose value is `target`. */
  ghost predicate Admissible<V>(g: Graph<V>, target: V, h: (Graph<V>, nat) -> nat)
  {
    forall ns: seq<nat>, es: seq<Edge> :: Walk(g, ns, es) && ns[|ns| - 1] < |g.nodes| && g.nodes[ns[|ns| - 1]] == target ==>
      h(g, ns[0]) <= Cost(es)
  }

  /** Some node whose value is `target` can be reached from `src`. */
  ghost predicate TargetReachable<V>(g: Graph<V>, src: nat, target: V)
  {
    exists v: nat, ns: seq<nat>, es: seq<Edge> :: Reaches(g, src, v, ns, es) && v < |g.nodes| && g.nodes[v] == target
  }

  /** What a `Some((cost, path))` answer means: the path starts at `src`, ends
      at a node whose value is `target`, follows edges of total cost at most
      `cost`, and `cost` is the cost of a walk from `src` to that node. */
  ghost predicate Answer<V>(g: Graph<V>, src: nat, target: V, cost: nat, path: seq<nat>)
  {
    && |path| > 0 && path[0] == src
    && path[|path| - 1] < |g.nodes| && g.nodes[path[|path| - 1]] == target
    && (exists es :: Walk(g, path, es) && Cost(es) <= cost)
    && WalkOfCost(g, src, path[|path| - 1], cost)
  }

  /** Some walk from `src` to `t` costs exactly `cost`. */
  ghost predicate WalkOfCost<V>(g: Graph<V>, src: nat, t: nat, cost: nat)
  {
    exists ns, es :: Reaches(g, src, t, ns, es) && Cost(es) == cost
  }

  /** The answer's cost plus the heuristic at its end is at most the cost of
      any walk to a target node plus the heuristic there. */
  ghost predicate Bounded<V>(g: Graph<V>, src: nat, target: V, h: (Graph<V>, nat) -> nat, t: nat, cost: nat)
  {
    forall v: nat, ns: seq<nat>, es: seq<Edge> :: Reaches(g, src, v, ns, es) && v < |g.nodes| && g.nodes[v] == target ==>
      cost + h(g, t) <= Cost(es) + h(g, v)
  }

  /** `cost` is at most the cost of every walk from `src` to a node whose
      value is `target`. */
  ghost predicate Optimal<V>(g: Graph<V>, src: nat, target: V, cost: nat)
  {
    forall v: nat, ns: seq<nat>, es: seq<Edge> :: Reaches(g, src, v, ns, es) && v < |g.nodes| && g.nodes[v] == target ==>
      cost <= Cost(es)
  }

  /** `null_heuristic` of the tests: 0 everywhere. */
  function NullHeuristic<V>(g: Graph<V>, v: nat): nat
  {
    0
  }

  lemma NullHeuristicConsistent<V>(g: Graph<V>)
    ensures Consistent(g, NullHeuristic)
  {
  }

  lemma NullHeuristicAdmissible<V>(g: Graph<V>, target: V)
    ensures Admissible(g, target, NullHeuristic)
  {
  }

  /** A `Bounded` answer under the null heuristic costs at most any walk to a
      target: the search is then a shortest-path search. */
  lemma NullHeuristicOptimal<V>(g: Graph<V>, src: nat, target: V, t: nat, cost: nat)
    requires Bounded(g, src, target, NullHeuristic, t, cost)
    ensures forall v: nat, ns: seq<nat>, es: seq<Edge> :: Reaches(g, src, v, ns, es) && v < |g.nodes| && g.nodes[v] == target ==>
              cost <= Cost(es)
  {
  }

  /** A queue holding an entry of `heur` at most `k` has an entry of least `heur`. */
  lemma {:induction false} MinEntryExists(q: multiset<Entry>, k: nat)
    requires exists e :: e in q && e.heur <= k
    ensures exists e :: e in q && forall f :: f in q ==> e.heur <= f.heur
    decreases k
  {
    if exists f :: f in q && f.heur < k {
      MinEntryExists(q, k - 1);
    } else {
      var e :| e in q && e.heur <= k;
      assert forall f :: f in q ==> e.heur <= f.heur;
    }
  }

  // ---------------------------------------------------------------------
  // The loop invariant, part by part.  `expanded` holds the nodes whose
  // edges were relaxed at their current recorded cost; `stamps` records
  // when each key was last written, which orders predecessors.
  // ---------------------------------------------------------------------

  /** Lazy duplicates: every entry names a key, costs at least the key's
      recorded cost, and carries that cost plus the heuristic. */
  ghost predicate QueueInv<V>(g: Graph<V>, h: (Graph<V>, nat) -> nat, prevs: Prevs, queue: multiset<Entry>)
  {
    forall e :: e in queue ==> e.node in prevs && e.rcost >= prevs[e.node].1 && e.heur == e.rcost + h(g, e.node)
  }

  /** Every key not expanded has an entry at its recorded cost. */
  ghost predicate FreshInv<V>(g: Graph<V>, h: (Graph<V>, nat) -> nat, prevs: Prevs, queue: multiset<Entry>,
                              expanded: set<nat>)
  {
    forall v :: v in prevs && v !in expanded ==> Entry(prevs[v].1, prevs[v].1 + h(g, v), v) in queue
  }

  /** Expanded nodes are keys, are not targets, and their edges are relaxed. */
  ghost predicate ExpandedInv<V>(g: Graph<V>, target: V, prevs: Prevs, expanded: set<nat>)
  {
    && expanded <= prevs.Keys
    && (forall u :: u in expanded ==> u < |g.nodes| && g.nodes[u] != target)
    && (forall u, i :: u in expanded && 0 <= i < |Edges(g, u)| ==>
          Edges(g, u)[i].dst in prevs && prevs[Edges(g, u)[i].dst].1 <= prevs[u].1 + Edges(g, u)[i].cost)
  }

  ghost predicate KeysInv<V>(g: Graph<V>, prevs: Prevs)
  {
    forall v :: v in prevs ==> v < |g.nodes|
  }

  /** A predecessor costs less than its node, or as much and was written
      earlier: so following predecessors ends. */
  ghost predicate StampOrder(src: nat, prevs: Prevs, stamps: map<nat, nat>)
  {
    && (forall v :: v in prevs ==> v in stamps)
    && (forall v :: v in prevs && v != src && prevs[v].0.Some? && prevs[v].0.value in prevs ==>
          || prevs[prevs[v].0.value].1 < prevs[v].1
          || (prevs[prevs[v].0.value].1 == prevs[v].1 && stamps[prevs[v].0.value] < stamps[v]))
  }

  ghost predicate StampsBelow(prevs: Prevs, stamps: map<nat, nat>, clock: nat)
  {
    forall v :: v in prevs && v in stamps ==> stamps[v] < clock
  }

  /** While `src` itself is a target, the only entries are `src`'s at cost 0. */
  ghost predicate SrcTargetInv<V>(g: Graph<V>, src: nat, target: V, queue: multiset<Entry>)
  {
    src < |g.nodes| && (g.nodes[src] == target ==> forall e :: e in queue ==> e.node == src && e.rcost == 0)
  }

  /** The predecessor structure the path reconstruction follows. */
  ghost predicate PredTree<V>(g: Graph<V>, src: nat, prevs: Prevs, via: map<nat, nat>, stamps: map<nat, nat>)
  {
    && src in prevs && prevs[src] == (None, 0)
    && KeysInv(g, prevs)
    && Dijkstra.ViaInv(g, src, prevs, via)
    && StampOrder(src, prevs, stamps)
  }

  /** The parts of the invariant about the queue and the expanded nodes. */
  ghost predicate Frontier<V>(g: Graph<V>, src: nat, target: V, h: (Graph<V>, nat) -> nat, prevs: Prevs,
                                  queue: multiset<Entry>, expanded: set<nat>)
  {
    && src in prevs && prevs[src].1 == 0
    && QueueInv(g, h, prevs, queue)
    && FreshInv(g, h, prevs, queue, expanded)
    && ExpandedInv(g, target, prevs, expanded)
    && SrcTargetInv(g, src, target, queue)
  }

  ghost predicate Inv<V>(g: Graph<V>, src: nat, target: V, h: (Graph<V>, nat) -> nat, prevs: Prevs,
                             queue: multiset<Entry>, expanded: set<nat>, walks: Walks, via: map<nat, nat>,
                             stamps: map<nat, nat>, clock: nat)
  {
    && PredTree(g, src, prevs, via, stamps)
    && StampsBelow(prevs, stamps, clock)
    && Dijkstra.WalksInv(g, src, prevs, walks)
    && Frontier(g, src, target, h, prevs, queue, expanded)
  }

  // ---------------------------------------------------------------------
  // Termination of the search: every improvement either records a new node
  // or lowers a recorded cost.
  // ---------------------------------------------------------------------

  /** The number of ids below `n` not recorded. */
  ghost function Missing(prevs: Prevs, n: nat): nat
  {
    if n == 0 then 0 else Missing(prevs, n - 1) + (if n - 1 in prevs then 0 else 1)
  }

  /** The sum of the recorded costs of the ids below `n`. */
  ghost function Potential(prevs: Prevs, n: nat): nat
  {
    if n == 0 then 0 else Potential(prevs, n - 1) + (if n - 1 in prevs then prevs[n - 1].1 else 0)
  }

  lemma {:induction false} UpdateAbove(prevs: Prevs, v: nat, x: (Option<nat>, nat), n: nat)
    requires n <= v
    ensures Missing(prevs[v := x], n) == Missing(prevs, n)
    ensures Potential(prevs[v := x], n) == Potential(prevs, n)
  {
    if n > 0 {
      UpdateAbove(prevs, v, x, n - 1);
    }
  }

  /** Recording a new id below `n` lowers `Missing`. */
  lemma {:induction false} AddKeyLowersMissing(prevs: Prevs, v: nat, x: (Option<nat>, nat), n: nat)
    requires v < n && v !in prevs
    ensures Missing(prevs[v := x], n) < Missing(prevs, n)
  {
    if v < n - 1 {
      AddKeyLowersMissing(prevs, v, x, n - 1);
    } else {
      UpdateAbove(prevs, v, x, n - 1);
    }
  }

  /** Lowering a recorded cost below `n` keeps `Missing` and lowers `Potential`. */
  lemma {:induction false} LowerCostLowersPotential(prevs: Prevs, v: nat, x: (Option<nat>, nat), n: nat)
    requires v < n && v in prevs && x.1 < prevs[v].1
    ensures Missing(prevs[v := x], n) == Missing(prevs, n)
    ensures Potential(prevs[v := x], n) < Potential(prevs, n)
  {
    if v < n - 1 {
      LowerCostLowersPotential(prevs, v, x, n - 1);
    } else {
      UpdateAbove(prevs, v, x, n - 1);
    }
  }

  /** `(Missing, Potential, queue size)` did not grow, lexicographically. */
  ghost predicate Progress(prevs: Prevs, qn: nat, prevs0: Prevs, qn0: nat, n: nat)
  {
    || Missing(prevs, n) < Missing(prevs0, n)
    || (Missing(prevs, n) == Missing(prevs0, n) && Potential(prevs, n) < Potential(prevs0, n))
    || (Missing(prevs, n) == Missing(prevs0, n) && Potential(prevs, n) == Potential(prevs0, n) && qn <= qn0)
  }

  lemma ImproveProgress(prevs: Prevs, qn: nat, prevs0: Prevs, qn0: nat, n: nat, v: nat, x: (Option<nat>, nat))
    requires Progress(prevs, qn, prevs0, qn0, n)
    requires v < n && (v !in prevs || x.1 < prevs[v].1)
    ensures Progress(prevs[v := x], qn + 1, prevs0, qn0, n)
  {
    if v in prevs {
      LowerCostLowersPotential(prevs, v, x, n);
    } else {
      AddKeyLowersMissing(prevs, v, x, n);
    }
  }

  // ---------------------------------------------------------------------
  // One improvement of `e.dst`, the `i`-th edge of the popped node `u`,
  // to cost `nc` with entry `Entry(nc, hc, e.dst)`; the popped entry `pe`
  // stays in the queue argument until the node is expanded.
  // ---------------------------------------------------------------------

  lemma ImproveQueue<V>(g: Graph<V>, h: (Graph<V>, nat) -> nat, prevs: Prevs, queue: multiset<Entry>, pe: Entry,
                        u: nat, e: Edge, nc: nat, hc: nat)
    requires QueueInv(g, h, prevs, queue + multiset{pe}) && hc == nc + h(g, e.dst)
    requires e.dst !in prevs || nc < prevs[e.dst].1
    ensures QueueInv(g, h, prevs[e.dst := (Some(u), nc)], queue + multiset{Entry(nc, hc, e.dst)} + multiset{pe})
  {
  }

  lemma ImproveFresh<V>(g: Graph<V>, h: (Graph<V>, nat) -> nat, prevs: Prevs, queue: multiset<Entry>, pe: Entry,
                        expanded: set<nat>, u: nat, e: Edge, nc: nat, hc: nat)
    requires FreshInv(g, h, prevs, queue + multiset{pe}, expanded) && hc == nc + h(g, e.dst)
    ensures FreshInv(g, h, prevs[e.dst := (Some(u), nc)], queue + multiset{Entry(nc, hc, e.dst)} + multiset{pe},
                     expanded - {e.dst})
  {
  }

  lemma ImproveExpanded<V>(g: Graph<V>, target: V, prevs: Prevs, expanded: set<nat>, u: nat, e: Edge, nc: nat)
    requires ExpandedInv(g, target, prevs, expanded)
    requires e.dst !in prevs || nc < prevs[e.dst].1
    ensures ExpandedInv(g, target, prevs[e.dst := (Some(u), nc)], expanded - {e.dst})
  {
  }

  lemma ImproveStamps<V>(g: Graph<V>, src: nat, prevs: Prevs, via: map<nat, nat>, stamps: map<nat, nat>, clock: nat,
                         u: nat, c: nat, e: Edge, nc: nat)
    requires StampOrder(src, prevs, stamps) && StampsBelow(prevs, stamps, clock)
    requires Dijkstra.ViaInv(g, src, prevs, via)
    requires u in prevs && c == prevs[u].1 && nc == c + e.cost && e.dst != u
    requires e.dst !in prevs || nc < prevs[e.dst].1
    ensures StampOrder(src, prevs[e.dst := (Some(u), nc)], stamps[e.dst := clock])
    ensures StampsBelow(prevs[e.dst := (Some(u), nc)], stamps[e.dst := clock], clock + 1)
  {
    var p', s' := prevs[e.dst := (Some(u), nc)], stamps[e.dst := clock];
    forall v | v in p' && v != src && p'[v].0.Some? && p'[v].0.value in p'
      ensures || p'[p'[v].0.value].1 < p'[v].1
              || (p'[p'[v].0.value].1 == p'[v].1 && s'[p'[v].0.value] < s'[v])
    {
      if v != e.dst && prevs[v].0.value == e.dst {
        assert prevs[e.dst].1 <= prevs[v].1;
      }
    }
  }

  lemma ImproveSrcTarget<V>(g: Graph<V>, src: nat, target: V, queue: multiset<Entry>, pe: Entry, x: Entry)
    requires SrcTargetInv(g, src, target, queue + multiset{pe})
    requires pe.node < |g.nodes| && g.nodes[pe.node] != target
    ensures SrcTargetInv(g, src, target, queue + multiset{x} + multiset{pe})
  {
    assert pe in queue + multiset{pe};
  }

  lemma DstValid<V>(g: Graph<V>, u: nat, i: nat)
    requires ValidIds(g) && i < |Edges(g, u)|
    ensures Edges(g, u)[i].dst < |g.nodes|
  {
    assert u in g.edges;
  }

  /** The improvement keeps the predecessor tree, the stamps and the walks. */
  lemma ImproveKeepsTree<V>(g: Graph<V>, src: nat, target: V, h: (Graph<V>, nat) -> nat,
                               prevs: Prevs, queue: multiset<Entry>, expanded: set<nat>, walks: Walks,
                               via: map<nat, nat>, stamps: map<nat, nat>, clock: nat, pe: Entry,
                               e: Edge, i: nat, nc: nat, hc: nat)
    requires ValidIds(g)
    requires Inv(g, src, target, h, prevs, queue + multiset{pe}, expanded, walks, via, stamps, clock)
    requires pe.node in prevs && pe.rcost == prevs[pe.node].1 && g.nodes[pe.node] != target
    requires i < |Edges(g, pe.node)| && Edges(g, pe.node)[i] == e && e.dst != src
    requires nc == pe.rcost + e.cost && hc == nc + h(g, e.dst)
    requires e.dst !in prevs || nc < prevs[e.dst].1
    ensures PredTree(g, src, prevs[e.dst := (Some(pe.node), nc)], via[e.dst := i], stamps[e.dst := clock])
    ensures StampsBelow(prevs[e.dst := (Some(pe.node), nc)], stamps[e.dst := clock], clock + 1)
    ensures Dijkstra.WalksInv(g, src, prevs[e.dst := (Some(pe.node), nc)],
                              walks[e.dst := (walks[pe.node].0 + [e.dst], walks[pe.node].1 + [e])])
  {
    var u, c := pe.node, pe.rcost;
    DstValid(g, u, i);
    Dijkstra.ImproveWalks(g, src, prevs, walks, c, u, e, i, nc);
    Dijkstra.ImproveVia(g, src, prevs, via, c, u, e, i, nc);
    ImproveStamps(g, src, prevs, via, stamps, clock, u, c, e, nc);
  }

  /** The improvement keeps the queue and expanded-set invariants. */
  lemma ImproveKeepsFrontier<V>(g: Graph<V>, src: nat, target: V, h: (Graph<V>, nat) -> nat,
                               prevs: Prevs, queue: multiset<Entry>, expanded: set<nat>, walks: Walks,
                               via: map<nat, nat>, stamps: map<nat, nat>, clock: nat, pe: Entry,
                               e: Edge, i: nat, nc: nat, hc: nat)
    requires ValidIds(g)
    requires Inv(g, src, target, h, prevs, queue + multiset{pe}, expanded, walks, via, stamps, clock)
    requires pe.node in prevs && pe.rcost == prevs[pe.node].1 && g.nodes[pe.node] != target
    requires i < |Edges(g, pe.node)| && Edges(g, pe.node)[i] == e && e.dst != src
    requires nc == pe.rcost + e.cost && hc == nc + h(g, e.dst)
    requires e.dst !in prevs || nc < prevs[e.dst].1
    ensures Frontier(g, src, target, h, prevs[e.dst := (Some(pe.node), nc)],
                     queue + multiset{Entry(nc, hc, e.dst)} + multiset{pe}, expanded - {e.dst})
  {
    var u, c := pe.node, pe.rcost;
    DstValid(g, u, i);
    ImproveQueue(g, h, prevs, queue, pe, u, e, nc, hc);
    ImproveFresh(g, h, prevs, queue, pe, expanded, u, e, nc, hc);
    ImproveExpanded(g, target, prevs, expanded, u, e, nc);
    ImproveSrcTarget(g, src, target, queue, pe, Entry(nc, hc, e.dst));
  }

  lemma ImproveKeepsInv<V>(g: Graph<V>, src: nat, target: V, h: (Graph<V>, nat) -> nat,
                               prevs: Prevs, queue: multiset<Entry>, expanded: set<nat>, walks: Walks,
                               via: map<nat, nat>, stamps: map<nat, nat>, clock: nat, pe: Entry,
                               e: Edge, i: nat, nc: nat, hc: nat)
    requires ValidIds(g)
    requires Inv(g, src, target, h, prevs, queue + multiset{pe}, expanded, walks, via, stamps, clock)
    requires pe.node in prevs && pe.rcost == prevs[pe.node].1 && g.nodes[pe.node] != target
    requires i < |Edges(g, pe.node)| && Edges(g, pe.node)[i] == e && e.dst != src
    requires nc == pe.rcost + e.cost && hc == nc + h(g, e.dst)
    requires e.dst !in prevs || nc < prevs[e.dst].1
    ensures e.dst != pe.node && e.dst < |g.nodes|
    ensures Inv(g, src, target, h, prevs[e.dst := (Some(pe.node), nc)],
                queue + multiset{Entry(nc, hc, e.dst)} + multiset{pe}, expanded - {e.dst},
                walks[e.dst := (walks[pe.node].0 + [e.dst], walks[pe.node].1 + [e])], via[e.dst := i],
                stamps[e.dst := clock], clock + 1)
  {
    DstValid(g, pe.node, i);
    ImproveKeepsTree(g, src, target, h, prevs, queue, expanded, walks, via, stamps, clock, pe, e, i, nc, hc);
    ImproveKeepsFrontier(g, src, target, h, prevs, queue, expanded, walks, via, stamps, clock, pe, e, i, nc, hc);
  }

  /** An expanded node improves nothing: its edges were relaxed at a cost no
      greater than any of its entries. */
  lemma ExpandedImprovesNothing<V>(g: Graph<V>, target: V, prevs: Prevs, expanded: set<nat>,
                                       u: nat, c: nat, e: Edge, i: nat)
    requires ExpandedInv(g, target, prevs, expanded) && u in prevs && c >= prevs[u].1
    requires i < |Edges(g, u)| && Edges(g, u)[i] == e
    requires e.dst !in prevs || c + e.cost < prevs[e.dst].1
    ensures u !in expanded
  {
  }

  /** After relaxing `u`'s edges, `u` is expanded and its entry leaves the
      queue; one lemma per changed part of `Inv`. */
  lemma FinishQueue<V>(g: Graph<V>, h: (Graph<V>, nat) -> nat, prevs: Prevs, queue: multiset<Entry>, pe: Entry)
    requires QueueInv(g, h, prevs, queue + multiset{pe})
    ensures QueueInv(g, h, prevs, queue)
  {
    forall f | f in queue ensures f in queue + multiset{pe} {
    }
  }

  lemma FinishFresh<V>(g: Graph<V>, h: (Graph<V>, nat) -> nat, prevs: Prevs, queue: multiset<Entry>, pe: Entry,
                       expanded: set<nat>)
    requires FreshInv(g, h, prevs, queue + multiset{pe}, expanded)
    ensures FreshInv(g, h, prevs, queue, expanded + {pe.node})
  {
    forall v | v in prevs && v !in expanded + {pe.node} ensures Entry(prevs[v].1, prevs[v].1 + h(g, v), v) in queue {
      assert Entry(prevs[v].1, prevs[v].1 + h(g, v), v) in queue + multiset{pe};
    }
  }

  lemma FinishExpanded<V>(g: Graph<V>, target: V, prevs: Prevs, expanded: set<nat>, u: nat, c: nat)
    requires ExpandedInv(g, target, prevs, expanded)
    requires u in prevs && u < |g.nodes| && g.nodes[u] != target && (u in expanded || c == prevs[u].1)
    requires forall i :: 0 <= i < |Edges(g, u)| ==>
               Edges(g, u)[i].dst in prevs && prevs[Edges(g, u)[i].dst].1 <= c + Edges(g, u)[i].cost
    ensures ExpandedInv(g, target, prevs, expanded + {u})
  {
  }

  lemma FinishSrcTarget<V>(g: Graph<V>, src: nat, target: V, queue: multiset<Entry>, pe: Entry)
    requires SrcTargetInv(g, src, target, queue + multiset{pe})
    ensures SrcTargetInv(g, src, target, queue)
  {
    forall f | f in queue ensures f in queue + multiset{pe} {
    }
  }

  lemma FinishPop<V>(g: Graph<V>, src: nat, target: V, h: (Graph<V>, nat) -> nat,
                         prevs: Prevs, queue: multiset<Entry>, expanded: set<nat>, walks: Walks,
                         via: map<nat, nat>, stamps: map<nat, nat>, clock: nat, pe: Entry)
    requires Inv(g, src, target, h, prevs, queue + multiset{pe}, expanded, walks, via, stamps, clock)
    requires pe.node in prevs && g.nodes[pe.node] != target
    requires pe.node in expanded || pe.rcost == prevs[pe.node].1
    requires forall i :: 0 <= i < |Edges(g, pe.node)| ==>
               Edges(g, pe.node)[i].dst in prevs && prevs[Edges(g, pe.node)[i].dst].1 <= pe.rcost + Edges(g, pe.node)[i].cost
    ensures Inv(g, src, target, h, prevs, queue, expanded + {pe.node}, walks, via, stamps, clock)
  {
    FinishQueue(g, h, prevs, queue, pe);
    FinishFresh(g, h, prevs, queue, pe, expanded);
    FinishExpanded(g, target, prevs, expanded, pe.node, pe.rcost);
    FinishSrcTarget(g, src, target, queue, pe);
  }

  /** The loop facts of `Relax` after one improvement. */
  lemma ImproveStep<V>(g: Graph<V>, src: nat, target: V, h: (Graph<V>, nat) -> nat,
                       prevs: Prevs, queue: multiset<Entry>, expanded: set<nat>, walks: Walks,
                       via: map<nat, nat>, stamps: map<nat, nat>, clock: nat, pe: Entry,
                       e: Edge, i: nat, nc: nat, hc: nat, prevs0: Prevs, qn0: nat)
    requires ValidIds(g)
    requires Inv(g, src, target, h, prevs, queue + multiset{pe}, expanded, walks, via, stamps, clock)
    requires Progress(prevs, |queue|, prevs0, qn0, |g.nodes|)
    requires i < |Edges(g, pe.node)| && Edges(g, pe.node)[i] == e && e.dst != src
    requires forall j :: 0 <= j < i ==>
               Edges(g, pe.node)[j].dst in prevs && prevs[Edges(g, pe.node)[j].dst].1 <= pe.rcost + Edges(g, pe.node)[j].cost
    requires pe.node in prevs && g.nodes[pe.node] != target
    requires pe.node in expanded || pe.rcost == prevs[pe.node].1
    requires nc == pe.rcost + e.cost && hc == nc + h(g, e.dst)
    requires e.dst !in prevs || nc < prevs[e.dst].1
    ensures Inv(g, src, target, h, prevs[e.dst := (Some(pe.node), nc)],
                queue + multiset{Entry(nc, hc, e.dst)} + multiset{pe}, expanded - {e.dst},
                walks[e.dst := (walks[pe.node].0 + [e.dst], walks[pe.node].1 + [e])], via[e.dst := i],
                stamps[e.dst := clock], clock + 1)
    ensures Progress(prevs[e.dst := (Some(pe.node), nc)], |queue + multiset{Entry(nc, hc, e.dst)}|, prevs0, qn0,
                     |g.nodes|)
    ensures forall j :: 0 <= j < i + 1 ==>
              && Edges(g, pe.node)[j].dst in prevs[e.dst := (Some(pe.node), nc)]
              && prevs[e.dst := (Some(pe.node), nc)][Edges(g, pe.node)[j].dst].1 <= pe.rcost + Edges(g, pe.node)[j].cost
    ensures pe.node in prevs[e.dst := (Some(pe.node), nc)]
    ensures prevs[e.dst := (Some(pe.node), nc)][pe.node] == prevs[pe.node]
    ensures pe.node in expanded - {e.dst} || pe.rcost == prevs[e.dst := (Some(pe.node), nc)][pe.node].1
  {
    ExpandedImprovesNothing(g, target, prevs, expanded, pe.node, pe.rcost, e, i);
    ImproveKeepsInv(g, src, target, h, prevs, queue, expanded, walks, via, stamps, clock, pe, e, i, nc, hc);
    Dijkstra.ImproveKeepsRelaxed(prevs, Edges(g, pe.node), i, pe.rcost, pe.node, e, nc);
    ImproveProgress(prevs, |queue|, prevs0, qn0, |g.nodes|, e.dst, (Some(pe.node), nc));
  }

  /** The loop facts of `Relax` once the first `i` edges of the popped
      node are relaxed. */
  ghost predicate RelaxInv<V>(g: Graph<V>, src: nat, target: V, h: (Graph<V>, nat) -> nat, pe: Entry, i: nat,
                              prevs: Prevs, queue: multiset<Entry>, expanded: set<nat>, walks: Walks,
                              via: map<nat, nat>, stamps: map<nat, nat>, clock: nat, prevs0: Prevs, qn0: nat)
  {
    && i <= |Edges(g, pe.node)|
    && Inv(g, src, target, h, prevs, queue + multiset{pe}, expanded, walks, via, stamps, clock)
    && Progress(prevs, |queue|, prevs0, qn0, |g.nodes|)
    && (forall j :: 0 <= j < i ==>
          Edges(g, pe.node)[j].dst in prevs && prevs[Edges(g, pe.node)[j].dst].1 <= pe.rcost + Edges(g, pe.node)[j].cost)
    && pe.node in prevs && pe.node in prevs0 && prevs[pe.node] == prevs0[pe.node]
    && (pe.node in expanded || pe.rcost == prevs[pe.node].1)
  }

  /** One turn of the `for edge in graph.edges(e.node_id)` loop: the `i`-th
      edge of the popped node, skipped when it leads back to `src`, improves
      its end when the new `rcost` is below the recorded one. */
  method RelaxEdge<V>(g: Graph<V>, src: nat, target: V, h: (Graph<V>, nat) -> nat, pe: Entry, i: nat,
                      prevs0: Prevs, queue0: multiset<Entry>, ghost expanded0: set<nat>, ghost walks0: Walks,
                      ghost via0: map<nat, nat>, ghost stamps0: map<nat, nat>, ghost clock0: nat,
                      ghost start: Prevs, ghost qn: nat)
    returns (prevs: Prevs, queue: multiset<Entry>, ghost expanded: set<nat>, ghost walks: Walks,
             ghost via: map<nat, nat>, ghost stamps: map<nat, nat>, ghost clock: nat)
    requires ValidIds(g) && i < |Edges(g, pe.node)|
    requires pe.node < |g.nodes| && g.nodes[pe.node] != target
    requires RelaxInv(g, src, target, h, pe, i, prevs0, queue0, expanded0, walks0, via0, stamps0, clock0, start, qn)
    ensures RelaxInv(g, src, target, h, pe, i + 1, prevs, queue, expanded, walks, via, stamps, clock, start, qn)
  {
    prevs, queue, expanded, walks, via, stamps, clock := prevs0, queue0, expanded0, walks0, via0, stamps0, clock0;
    var u, c := pe.node, pe.rcost;
    var edge := Edges(g, u)[i];
    if edge.dst != src {
      var newReal: nat := c + edge.cost;
      if edge.dst !in prevs || newReal < prevs[edge.dst].1 {
        var newHeur: nat := newReal + h(g, edge.dst);
        ImproveStep(g, src, target, h, prevs, queue, expanded, walks, via, stamps, clock, pe,
                    edge, i, newReal, newHeur, start, qn);
        expanded := expanded - {edge.dst};
        walks := walks[edge.dst := (walks[u].0 + [edge.dst], walks[u].1 + [edge])];
        via := via[edge.dst := i];
        stamps := stamps[edge.dst := clock];
        clock := clock + 1;
        prevs := prevs[edge.dst := (Some(u), newReal)];
        queue := queue + multiset{Entry(newReal, newHeur, edge.dst)};
      } else {
        Dijkstra.ExtendRelaxed(prevs, Edges(g, u), i, c);
      }
    } else {
      Dijkstra.ExtendRelaxed(prevs, Edges(g, u), i, c);
    }
  }

  /** The `for edge in graph.edges(e.node_id)` loop for a popped entry `pe`
      whose node is not a target; afterwards the node is expanded. */
  method Relax<V>(g: Graph<V>, src: nat, target: V, h: (Graph<V>, nat) -> nat, pe: Entry,
                  prevs0: Prevs, queue0: multiset<Entry>, ghost expanded0: set<nat>, ghost walks0: Walks,
                  ghost via0: map<nat, nat>, ghost stamps0: map<nat, nat>, ghost clock0: nat)
    returns (prevs: Prevs, queue: multiset<Entry>, ghost expanded: set<nat>, ghost walks: Walks,
             ghost via: map<nat, nat>, ghost stamps: map<nat, nat>, ghost clock: nat)
    requires ValidIds(g)
    requires Inv(g, src, target, h, prevs0, queue0 + multiset{pe}, expanded0, walks0, via0, stamps0, clock0)
    requires pe.node in prevs0 && g.nodes[pe.node] != target
    requires pe.node in expanded0 || pe.rcost == prevs0[pe.node].1
    ensures Inv(g, src, target, h, prevs, queue, expanded + {pe.node}, walks, via, stamps, clock)
    ensures Progress(prevs, |queue|, prevs0, |queue0|, |g.nodes|)
  {
    prevs, queue, expanded, walks, via, stamps, clock := prevs0, queue0, expanded0, walks0, via0, stamps0, clock0;
    var i := 0;
    while i < |Edges(g, pe.node)|
      invariant RelaxInv(g, src, target, h, pe, i, prevs, queue, expanded, walks, via, stamps, clock, prevs0, |queue0|)
    {
      prevs, queue, expanded, walks, via, stamps, clock :=
        RelaxEdge(g, src, target, h, pe, i, prevs, queue, expanded, walks, via, stamps, clock, prevs0, |queue0|);
      i := i + 1;
    }
    FinishPop(g, src, target, h, prevs, queue, expanded, walks, via, stamps, clock, pe);
  }

  /** A least entry is fresh unless its node is expanded. */
  lemma PopFresh<V>(g: Graph<V>, src: nat, target: V, h: (Graph<V>, nat) -> nat, prevs: Prevs,
                        queue: multiset<Entry>, expanded: set<nat>, e: Entry)
    requires Frontier(g, src, target, h, prevs, queue, expanded)
    requires e in queue && forall f :: f in queue ==> e.heur <= f.heur
    ensures e.node in prevs
    ensures e.node in expanded || e.rcost == prevs[e.node].1
  {
    if e.node !in expanded {
      assert Entry(prevs[e.node].1, prevs[e.node].1 + h(g, e.node), e.node) in queue;
    }
  }

  /** One turn of the `while let Some(e) = queue.pop()` loop for a least entry
      `e` whose node is not a target. */
  method Visit<V(==)>(g: Graph<V>, src: nat, target: V, h: (Graph<V>, nat) -> nat, e: Entry,
                      prevs0: Prevs, queue0: multiset<Entry>, ghost expanded0: set<nat>, ghost walks0: Walks,
                      ghost via0: map<nat, nat>, ghost stamps0: map<nat, nat>, ghost clock0: nat)
    returns (prevs: Prevs, queue: multiset<Entry>, ghost expanded: set<nat>, ghost walks: Walks,
             ghost via: map<nat, nat>, ghost stamps: map<nat, nat>, ghost clock: nat)
    requires ValidIds(g)
    requires Inv(g, src, target, h, prevs0, queue0, expanded0, walks0, via0, stamps0, clock0)
    requires e in queue0 && forall f :: f in queue0 ==> e.heur <= f.heur
    requires e.node < |g.nodes| && g.nodes[e.node] != target
    ensures Inv(g, src, target, h, prevs, queue, expanded, walks, via, stamps, clock)
    ensures Progress(prevs, |queue| + 1, prevs0, |queue0|, |g.nodes|)
  {
    PopFresh(g, src, target, h, prevs0, queue0, expanded0, e);
    queue := queue0 - multiset{e};
    assert queue + multiset{e} == queue0;
    prevs, queue, expanded, walks, via, stamps, clock :=
      Relax(g, src, target, h, e, prevs0, queue, expanded0, walks0, via0, stamps0, clock0);
    expanded := expanded + {e.node};
  }

  // ---------------------------------------------------------------------
  // What the invariant gives when the search stops.
  // ---------------------------------------------------------------------

  /** Along a walk to a target node, the first node not expanded is recorded
      at most at the cost of the walk so far (walking from node `k` on). */
  lemma {:induction false} OpenFrom<V>(g: Graph<V>, target: V, prevs: Prevs, expanded: set<nat>,
                                           ns: seq<nat>, es: seq<Edge>, k: nat)
    requires ExpandedInv(g, target, prevs, expanded) && Walk(g, ns, es)
    requires ns[|ns| - 1] < |g.nodes| && g.nodes[ns[|ns| - 1]] == target
    requires k < |ns| && ns[k] in prevs && prevs[ns[k]].1 <= Cost(es[..k])
    ensures exists j :: k <= j < |ns| && ns[j] in prevs && ns[j] !in expanded && prevs[ns[j]].1 <= Cost(es[..j])
    decreases |ns| - k
  {
    if ns[k] in expanded {
      assert k < |es|;
      var u := ns[k];
      assert es[k] in Edges(g, u);
      var i :| 0 <= i < |Edges(g, u)| && Edges(g, u)[i] == es[k];
      assert es[..k + 1] == es[..k] + [es[k]];
      CostAppend(es[..k], es[k]);
      OpenFrom(g, target, prevs, expanded, ns, es, k + 1);
    }
  }

  /** The heuristic of a consistent walk's start is at most the walk's cost
      plus the heuristic of its end. */
  lemma {:induction false} ConsistentAlongWalk<V>(g: Graph<V>, h: (Graph<V>, nat) -> nat, ns: seq<nat>, es: seq<Edge>)
    requires Consistent(g, h) && Walk(g, ns, es)
    ensures h(g, ns[0]) <= Cost(es) + h(g, ns[|ns| - 1])
    decreases |es|
  {
    if es != [] {
      WalkSuffix(g, ns, es, 1);
      ConsistentAlongWalk(g, h, ns[1..], es[1..]);
      assert es[0] in Edges(g, ns[0]);
      var i :| 0 <= i < |Edges(g, ns[0])| && Edges(g, ns[0])[i] == es[0];
      assert es == [es[0]] + es[1..];
      CostPrepend(es[0], es[1..]);
    }
  }

  /** Some walk node carries a fresh entry whose `heur` is at most the walk's
      cost plus the heuristic at the end, when that is consistent, and at
      most the walk's cost, when the heuristic is admissible. */
  lemma OpenEntry<V>(g: Graph<V>, src: nat, target: V, h: (Graph<V>, nat) -> nat, prevs: Prevs,
                         queue: multiset<Entry>, expanded: set<nat>, w: nat, ns: seq<nat>, es: seq<Edge>)
    returns (f: Entry)
    requires src in prevs && prevs[src].1 == 0
    requires FreshInv(g, h, prevs, queue, expanded) && ExpandedInv(g, target, prevs, expanded)
    requires Reaches(g, src, w, ns, es) && w < |g.nodes| && g.nodes[w] == target
    ensures f in queue
    ensures Consistent(g, h) ==> f.heur <= Cost(es) + h(g, w)
    ensures Admissible(g, target, h) ==> f.heur <= Cost(es)
  {
    assert es[..0] == [];
    OpenFrom(g, target, prevs, expanded, ns, es, 0);
    var j :| 0 <= j < |ns| && ns[j] in prevs && ns[j] !in expanded && prevs[ns[j]].1 <= Cost(es[..j]);
    var x := ns[j];
    f := Entry(prevs[x].1, prevs[x].1 + h(g, x), x);
    assert f in queue;
    EntryBound(g, target, h, ns, es, j, prevs[x].1);
  }

  /** A cost `c` of reaching walk node `j` bounds the walk's cost as seen from
      there: `c + h` is at most the walk's cost plus `h` at its end under a
      consistent heuristic, and at most the walk's cost under an admissible
      one. */
  lemma EntryBound<V>(g: Graph<V>, target: V, h: (Graph<V>, nat) -> nat, ns: seq<nat>, es: seq<Edge>, j: nat, c: nat)
    requires Walk(g, ns, es) && j < |ns| && c <= Cost(es[..j])
    requires ns[|ns| - 1] < |g.nodes| && g.nodes[ns[|ns| - 1]] == target
    ensures Consistent(g, h) ==> c + h(g, ns[j]) <= Cost(es) + h(g, ns[|ns| - 1])
    ensures Admissible(g, target, h) ==> c + h(g, ns[j]) <= Cost(es)
  {
    CostSplit(es, j);
    if Consistent(g, h) {
      WalkSuffix(g, ns, es, j);
      ConsistentAlongWalk(g, h, ns[j..], es[j..]);
    }
    if Admissible(g, target, h) {
      AdmissibleFrom(g, target, h, ns, es, j);
    }
  }

  /** Under an admissible heuristic, `h` at a walk's node `j` is at most the
      cost of the rest of the walk to a target node. */
  lemma AdmissibleFrom<V>(g: Graph<V>, target: V, h: (Graph<V>, nat) -> nat, ns: seq<nat>, es: seq<Edge>, j: nat)
    requires Admissible(g, target, h) && Walk(g, ns, es) && j < |ns|
    requires ns[|ns| - 1] < |g.nodes| && g.nodes[ns[|ns| - 1]] == target
    ensures h(g, ns[j]) <= Cost(es[j..])
  {
    WalkSuffix(g, ns, es, j);
    assert ns[j..][|ns[j..]| - 1] == ns[|ns| - 1];
    assert ns[j..][0] == ns[j];
  }

  /** With a target reachable the queue is not empty. */
  lemma ReachableKeepsQueue<V>(g: Graph<V>, src: nat, target: V, h: (Graph<V>, nat) -> nat, prevs: Prevs,
                                   queue: multiset<Entry>, expanded: set<nat>)
    requires Frontier(g, src, target, h, prevs, queue, expanded)
    ensures TargetReachable(g, src, target) ==> |queue| > 0
  {
    if TargetReachable(g, src, target) {
      var w: nat, ns: seq<nat>, es: seq<Edge> :| Reaches(g, src, w, ns, es) && w < |g.nodes| && g.nodes[w] == target;
      var f := OpenEntry(g, src, target, h, prevs, queue, expanded, w, ns, es);
    }
  }

  /** A least entry whose node is a target: its cost is the recorded one, it
      is bounded by every walk to a target under a consistent heuristic, it
      costs at most every walk to a target under an admissible one, and it is
      `src`'s first entry when `src` is a target. */
  lemma PopTarget<V>(g: Graph<V>, src: nat, target: V, h: (Graph<V>, nat) -> nat, prevs: Prevs,
                         queue: multiset<Entry>, expanded: set<nat>, e: Entry)
    requires Frontier(g, src, target, h, prevs, queue, expanded)
    requires e in queue && forall f :: f in queue ==> e.heur <= f.heur
    requires e.node < |g.nodes| && g.nodes[e.node] == target
    ensures e.node in prevs && e.rcost == prevs[e.node].1
    ensures Consistent(g, h) ==> Bounded(g, src, target, h, e.node, e.rcost)
    ensures Admissible(g, target, h) ==> Optimal(g, src, target, e.rcost)
    ensures g.nodes[src] == target ==> e.node == src && e.rcost == 0
  {
    assert Entry(prevs[e.node].1, prevs[e.node].1 + h(g, e.node), e.node) in queue;
    if Admissible(g, target, h) {
      forall v: nat, ns: seq<nat>, es: seq<Edge> | Reaches(g, src, v, ns, es) && v < |g.nodes| && g.nodes[v] == target
        ensures e.rcost <= Cost(es)
      {
        var f := OpenEntry(g, src, target, h, prevs, queue, expanded, v, ns, es);
      }
    }
    if Consistent(g, h) {
      forall v: nat, ns: seq<nat>, es: seq<Edge> | Reaches(g, src, v, ns, es) && v < |g.nodes| && g.nodes[v] == target
        ensures e.rcost + h(g, e.node) <= Cost(es) + h(g, v)
      {
        var f := OpenEntry(g, src, target, h, prevs, queue, expanded, v, ns, es);
      }
    }
  }

  lemma InitInv<V>(g: Graph<V>, src: nat, target: V, h: (Graph<V>, nat) -> nat)
    requires src < |g.nodes|
    ensures Inv(g, src, target, h, map[src := (None, 0)], multiset{Entry(0, h(g, src), src)}, {},
                map[src := ([src], [])], map[], map[src := 0], 1)
  {
    ReachesSelf(g, src);
  }

  /** The search loop of `astar`, up to the `break` at a target.  It returns
      the recorded map and the popped target with its cost, if any. */
  method Search<V(==)>(g: Graph<V>, src: nat, target: V, h: (Graph<V>, nat) -> nat)
    returns (prevs: Prevs, found: Option<(nat, nat)>, ghost walks: Walks, ghost via: map<nat, nat>,
             ghost stamps: map<nat, nat>)
    requires ValidIds(g) && src < |g.nodes|
    ensures PredTree(g, src, prevs, via, stamps) && Dijkstra.WalksInv(g, src, prevs, walks)
    ensures found.None? ==> !TargetReachable(g, src, target)
    ensures found.Some? ==> && found.value.0 in prevs && found.value.0 < |g.nodes|
                            && g.nodes[found.value.0] == target && found.value.1 == prevs[found.value.0].1
    ensures found.Some? && Consistent(g, h) ==> Bounded(g, src, target, h, found.value.0, found.value.1)
    ensures found.Some? && Admissible(g, target, h) ==> Optimal(g, src, target, found.value.1)
    ensures g.nodes[src] == target ==> found == Some((src, 0))
  {
    prevs := map[src := (None, 0)];
    var queue := multiset{Entry(0, h(g, src), src)};
    ghost var expanded: set<nat> := {};
    walks, via, stamps := map[src := ([src], [])], map[], map[src := 0];
    ghost var clock: nat := 1;
    InitInv(g, src, target, h);
    found := None;
    while |queue| > 0
      invariant Inv(g, src, target, h, prevs, queue, expanded, walks, via, stamps, clock)
      invariant found.None?
      decreases Missing(prevs, |g.nodes|), Potential(prevs, |g.nodes|), |queue|
    {
      ghost var any :| any in queue;
      MinEntryExists(queue, any.heur);
      var e :| e in queue && forall f :: f in queue ==> e.heur <= f.heur;
      PopFresh(g, src, target, h, prevs, queue, expanded, e);
      if g.nodes[e.node] == target {
        PopTarget(g, src, target, h, prevs, queue, expanded, e);
        found := Some((e.node, e.rcost));
        break;
      }
      prevs, queue, expanded, walks, via, stamps, clock :=
        Visit(g, src, target, h, e, prevs, queue, expanded, walks, via, stamps, clock);
    }
    if found.None? {
      ReachableKeepsQueue(g, src, target, h, prevs, queue, expanded);
    }
  }

  /** `Vec::reverse`. */
  function Reverse<T>(s: seq<T>): (r: seq<T>)
    ensures |r| == |s| && forall k :: 0 <= k < |s| ==> r[k] == s[|s| - 1 - k]
  {
    if s == [] then [] else Reverse(s[1..]) + [s[0]]
  }

  /** The reconstruction loop of `astar`: from `t` back through the recorded
      predecessors to `src`, then `path.reverse()`.  `prev_node?` never
      returns early, as every key other than `src` has a predecessor. */
  method PathTo<V>(g: Graph<V>, src: nat, prevs: Prevs, ghost via: map<nat, nat>, ghost stamps: map<nat, nat>,
                   t: nat)
    returns (path: seq<nat>)
    requires PredTree(g, src, prevs, via, stamps) && t in prevs
    ensures |path| > 0 && path[0] == src && path[|path| - 1] == t
    ensures exists es :: Walk(g, path, es) && Cost(es) <= prevs[t].1
    ensures t == src ==> path == [src]
  {
    path := [t];
    var cur := t;
    ghost var fwd: seq<nat> := [t];
    ghost var fes: seq<Edge> := [];
    while cur != src
      invariant cur in prevs && |path| == |fwd| > 0 && path[|path| - 1] == cur
      invariant forall k :: 0 <= k < |path| ==> path[k] == fwd[|fwd| - 1 - k]
      invariant fwd[0] == cur && fwd[|fwd| - 1] == t
      invariant Walk(g, fwd, fes) && prevs[cur].1 + Cost(fes) <= prevs[t].1
      invariant t == src ==> path == [t]
      decreases prevs[cur].1, stamps[cur]
    {
      assert prevs[cur].0.Some?;
      var p := prevs[cur].0.value;
      ghost var i := via[cur];
      WalkPrepend(g, fwd, fes, p, i);
      CostPrepend(Edges(g, p)[i], fes);
      fwd, fes := [p] + fwd, [Edges(g, p)[i]] + fes;
      cur := p;
      path := path + [cur];
    }
    path := Reverse(path);
    assert path == fwd;
    if t == src {
      assert path == [t];
    }
  }

  /** `astar`: search, then read the path back from the found target. */
  method AStar<V(==)>(g: Graph<V>, src: nat, target: V, h: (Graph<V>, nat) -> nat)
    returns (r: Option<(nat, seq<nat>)>)
    requires ValidIds(g) && src < |g.nodes|
    ensures r.Some? <==> TargetReachable(g, src, target)
    ensures r.Some? ==> Answer(g, src, target, r.value.0, r.value.1)
    ensures r.Some? && Consistent(g, h) ==>
              Bounded(g, src, target, h, r.value.1[|r.value.1| - 1], r.value.0)
    ensures r.Some? && Admissible(g, target, h) ==> Optimal(g, src, target, r.value.0)
    ensures g.nodes[src] == target ==> r == Some((0, [src]))
  {
    var prevs, found, walks, via, stamps := Search(g, src, target, h);
    if found.None? {
      return None;
    }
    var (t, cost) := found.value;
    var path := PathTo(g, src, prevs, via, stamps, t);
    FoundAnswer(g, src, target, prevs, walks, t, cost, path);
    r := Some((cost, path));
  }

  lemma FoundAnswer<V>(g: Graph<V>, src: nat, target: V, prevs: Prevs, walks: Walks, t: nat, cost: nat,
                       path: seq<nat>)
    requires Dijkstra.WalksInv(g, src, prevs, walks) && t in prevs && cost == prevs[t].1
    requires t < |g.nodes| && g.nodes[t] == target
    requires |path| > 0 && path[0] == src && path[|path| - 1] == t
    requires exists es :: Walk(g, path, es) && Cost(es) <= prevs[t].1
    ensures Answer(g, src, target, cost, path) && TargetReachable(g, src, target)
  {
    assert Reaches(g, src, t, walks[t].0, walks[t].1);
  }
}

/** The `test_dijkstra` test of src/graph/astar.rs: with the null heuristic,
    `astar` on the graph of the Dijkstra tests finds each of the nodes 1 to 4
    at its shortest cost, along the expected path. */
module AStarGraph2 {
  import opened Base
  import opened Graphs
  import opened AStar
  import DijkstraGraph2

  function G(): Graph<nat>
  {
    DijkstraGraph2.G()
  }

  function D(): map<nat, nat>
  {
    DijkstraGraph2.D()
  }

  /** The expected answer paths. */
  function ExpectedPath(t: nat): seq<nat>
  {
    if t == 1 then [0, 2, 1] else if t == 2 then [0, 2] else if t == 3 then [0, 2, 1, 3] else [0, 2, 4]
  }

  /** The only tight edge into each node other than 0 comes from here. */
  function TightPred(v: nat): nat
  {
    if v == 1 then 2 else if v == 2 then 0 else if v == 3 then 1 else 2
  }

  /** A walk of cost `D()[t]` from 0 to each node `t` other than 0. */
  lemma WitnessWalk(t: nat)
    requires 1 <= t <= 4
    ensures exists ns, es :: Reaches(G(), 0, t, ns, es) && Cost(es) == D()[t]
  {
    if t == 1 {
      var es := [Edge(0, 2, 3), Edge(2, 1, 4)];
      assert es[..1] == [Edge(0, 2, 3)] && es[..1][..0] == [];
      assert Reaches(G(), 0, 1, [0, 2, 1], es);
    } else if t == 2 {
      var es := [Edge(0, 2, 3)];
      assert es[..0] == [];
      assert Reaches(G(), 0, 2, [0, 2], es);
    } else if t == 3 {
      DijkstraGraph2.Walk3();
      assert Reaches(G(), 0, 3, [0, 2, 1, 3], [Edge(0, 2, 3), Edge(2, 1, 4), Edge(1, 3, 2)]);
    } else {
      var es := [Edge(0, 2, 3), Edge(2, 4, 2)];
      assert es[..1] == [Edge(0, 2, 3)] && es[..1][..0] == [];
      assert Reaches(G(), 0, 4, [0, 2, 4], es);
    }
  }

  /** Along a walk of tight edges every step enters a node other than 0 from
      its tight predecessor. */
  lemma TightStep(ns: seq<nat>, es: seq<Edge>, k: nat)
    requires Walk(G(), ns, es) && 0 < k < |ns|
    requires ns[k - 1] in D() && ns[k] in D() && D()[ns[k]] == D()[ns[k - 1]] + es[k - 1].cost
    ensures ns[k] != 0 && ns[k - 1] == TightPred(ns[k])
  {
    assert es[k - 1] in Edges(G(), ns[k - 1]);
  }

  /** An answer for target `t` under the null heuristic costs `D()[t]`. */
  lemma AnswerCost(t: nat, cost: nat, path: seq<nat>)
    requires 1 <= t <= 4
    requires Answer(G(), 0, t, cost, path) && Bounded(G(), 0, t, NullHeuristic, path[|path| - 1], cost)
    ensures cost == D()[t] && path[|path| - 1] == t
  {
    var last := path[|path| - 1];
    assert last == t by {
      assert G().nodes[last] == t;
    }
    assert D()[t] <= cost by {
      var ns, es :| Reaches(G(), 0, last, ns, es) && Cost(es) == cost;
      DijkstraGraph2.DClosed();
      WalkBound(G(), D(), ns, es);
    }
    assert cost <= D()[t] by {
      WitnessWalk(t);
      var wn, we :| Reaches(G(), 0, t, wn, we) && Cost(we) == D()[t];
      assert G().nodes[t] == t;
      assert cost + NullHeuristic(G(), last) <= Cost(we) + NullHeuristic(G(), t);
    }
  }

  /** ... and follows tight edges only. */
  lemma AnswerTight(t: nat, cost: nat, path: seq<nat>)
    requires 1 <= t <= 4 && cost == D()[t]
    requires |path| > 0 && path[0] == 0 && path[|path| - 1] == t
    requires exists es :: Walk(G(), path, es) && Cost(es) <= cost
    ensures forall k :: 0 < k < |path| ==> path[k] != 0 && path[k - 1] == TightPred(path[k])
  {
    DijkstraGraph2.DClosed();
    var pes :| Walk(G(), path, pes) && Cost(pes) <= cost;
    WalkBound(G(), D(), path, pes);
    TightWalk(G(), D(), path, pes);
    forall k | 0 < k < |path| ensures path[k] != 0 && path[k - 1] == TightPred(path[k]) {
      assert TightAt(D(), path, pes, k - 1);
      TightStep(path, pes, k);
    }
  }

  /** The tight walk from 0 to `t` is the expected path. */
  lemma TightPathIsExpected(t: nat, path: seq<nat>)
    requires 1 <= t <= 4 && |path| > 0 && path[0] == 0 && path[|path| - 1] == t
    requires forall k :: 0 < k < |path| ==> path[k] != 0 && path[k - 1] == TightPred(path[k])
    ensures path == ExpectedPath(t)
  {
    var n := |path|;
    if t == 1 || t == 3 || t == 4 {
      assert path[n - 2] == TightPred(t);
      if t == 3 {
        assert path[n - 3] == 2 && path[n - 4] == 0;
        assert n == 4;
      } else {
        assert path[n - 3] == 0;
        assert n == 3;
      }
    } else {
      assert path[n - 2] == 0;
      assert n == 2;
    }
  }

  /** What `AStar` promises on the test graph determines its answer. */
  lemma NullAnswer(t: nat, r: Option<(nat, seq<nat>)>)
    requires 1 <= t <= 4
    requires r.Some? <==> TargetReachable(G(), 0, t)
    requires r.Some? ==> Answer(G(), 0, t, r.value.0, r.value.1)
    requires r.Some? && Consistent(G(), NullHeuristic) ==> Bounded(G(), 0, t, NullHeuristic, r.value.1[|r.value.1| - 1], r.value.0)
    ensures r == Some((D()[t], ExpectedPath(t)))
  {
    WitnessWalk(t);
    var ns, es :| Reaches(G(), 0, t, ns, es) && Cost(es) == D()[t];
    assert G().nodes[t] == t;
    NullHeuristicConsistent(G());
    AnswerCost(t, r.value.0, r.value.1);
    AnswerTight(t, r.value.0, r.value.1);
    TightPathIsExpected(t, r.value.1);
  }

  lemma GValid()
    ensures ValidIds(G()) && 0 < |G().nodes|
  {
  }

  /** `astar(&graph, 0, t, null_heuristic)` on the test graph. */
  method NullSearch(t: nat) returns (r: Option<(nat, seq<nat>)>)
    requires 1 <= t <= 4
    ensures r == Some((D()[t], ExpectedPath(t)))
  {
    DijkstraGraph2.BuiltIsG();
    GValid();
    r := AStar.AStar(DijkstraGraph2.Built(), 0, t, NullHeuristic);
    NullAnswer(t, r);
  }

  /** The test itself. */
  method TestDijkstra() returns (r1: Option<(nat, seq<nat>)>, r2: Option<(nat, seq<nat>)>,
                                 r3: Option<(nat, seq<nat>)>, r4: Option<(nat, seq<nat>)>)
    ensures r1 == Some((7, [0, 2, 1])) && r2 == Some((3, [0, 2]))
    ensures r3 == Some((9, [0, 2, 1, 3])) && r4 == Some((5, [0, 2, 4]))
  {
    r1 := NullSearch(1);
    r2 := NullSearch(2);
    r3 := NullSearch(3);
    r4 := NullSearch(4);
  }
}
