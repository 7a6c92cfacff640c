/** `prim` of src/graph/prim.rs: grow a tree from node 0 by repeatedly
    popping the least queued edge (by cost, then by the derived order of
    `Edge`, which is (src, dst, cost)) and keeping it when it leads to a node
    not yet seen.  Edges whose end is seen stay in the queue and are skipped
    when popped.  The queue is a multiset. */
module Prim {
  import opened Base
  import opened Graphs

  /** The order of the queue's `Reverse((e.cost, e))`: `a` pops no later
      than `b`. */
  predicate Before(a: Edge, b: Edge)
  {
    || a.cost < b.cost
    || (a.cost == b.cost && a.src < b.src)
    || (a.cost == b.cost && a.src == b.src && a.dst <= b.dst)
  }

  /** `Before` is a total order on edges: the least entry is unique, so the
      pop order is determined. */
  lemma BeforeIsTotalOrder(a: Edge, b: Edge, c: Edge)
    ensures Before(a, b) || Before(b, a)
    ensures Before(a, b) && Before(b, a) ==> a == b
    ensures Before(a, b) && Before(b, c) ==> Before(a, c)
  {
  }

  /** `e` is a least entry of the queue `q`. */
  predicate Least(e: Edge, q: multiset<Edge>)
  {
    e in q && forall f :: f in q ==> Before(e, f)
  }

  /** A non-empty queue has a least entry. */
  lemma {:induction false} MinEdgeExists(q: multiset<Edge>)
    requires |q| > 0
    ensures exists e :: Least(e, q)
    decreases |q|
  {
    var x :| x in q;
    var r := q - multiset{x};
    assert forall f :: f in q ==> f in r || f == x;
    if |r| == 0 {
      assert Least(x, q);
    } else {
      MinEdgeExists(r);
      var m :| Least(m, r);
      BeforeIsTotalOrder(m, x, x);
      if Before(m, x) {
        assert Least(m, q);
      } else {
        forall f | f in r ensures Before(x, f) {
          BeforeIsTotalOrder(x, m, f);
        }
        assert Least(x, q);
      }
    }
  }

  /** The nodes the kept edges lead to. */
  ghost function Ends(mst: seq<Edge>): set<nat>
  {
    set k | 0 <= k < |mst| :: mst[k].dst
  }

  lemma EndsAppend(mst: seq<Edge>, e: Edge)
    ensures Ends(mst + [e]) == Ends(mst) + {e.dst}
  {
    var s := mst + [e];
    assert s[|mst|].dst == e.dst;
    forall v | v in Ends(mst) ensures v in Ends(s) {
      var k :| 0 <= k < |mst| && mst[k].dst == v;
      assert s[k] == mst[k];
    }
  }

  /** The `k`-th kept edge is an edge of the graph, out of a node seen before
      it was kept: node 0 or the end of an earlier kept edge. */
  ghost predicate Earlier<V>(g: Graph<V>, mst: seq<Edge>, k: nat)
    requires k < |mst|
  {
    exists x :: mst[k] in Edges(g, x) && (x == 0 || x in Ends(mst[..k]))
  }

  /** The facts about the kept edges and the seen set. */
  ghost predicate TreeInv<V>(g: Graph<V>, mst: seq<Edge>, seen: set<nat>)
  {
    && seen == {0} + Ends(mst)
    && (forall k :: 0 <= k < |mst| ==> mst[k].dst != 0)
    && (forall j, k :: 0 <= j < k < |mst| ==> mst[j].dst != mst[k].dst)
    && (forall k :: 0 <= k < |mst| ==> Earlier(g, mst, k))
    && seen <= {0} + Dsts(g)
  }

  /** Every queued edge leaves a seen node, and every edge out of a seen node
      is queued or leads to a seen node. */
  ghost predicate QueueInv<V>(g: Graph<V>, q: multiset<Edge>, seen: set<nat>)
  {
    && (forall e :: e in q ==> exists x :: x in seen && e in Edges(g, x))
    && (forall x, i :: x in seen && 0 <= i < |Edges(g, x)| ==> Edges(g, x)[i] in q || Edges(g, x)[i].dst in seen)
  }

  /** The nodes seen once the edges `mst` are kept. */
  ghost function Seen(mst: seq<Edge>): set<nat>
  {
    {0} + Ends(mst)
  }

  /** Edge `i` of node `x` leaves the node set `s`. */
  ghost predicate Crossing<V>(g: Graph<V>, s: set<nat>, x: nat, i: nat)
  {
    x in s && i < |Edges(g, x)| && Edges(g, x)[i].dst !in s
  }

  /** `e` is an edge leaving `s`. */
  ghost predicate Crosses<V>(g: Graph<V>, s: set<nat>, e: Edge)
  {
    exists x: nat, i: nat :: Crossing(g, s, x, i) && Edges(g, x)[i] == e
  }

  /** `e` pops no later than any edge leaving `s`. */
  ghost predicate Cheapest<V>(g: Graph<V>, s: set<nat>, e: Edge)
  {
    forall x: nat, i: nat :: Crossing(g, s, x, i) ==> Before(e, Edges(g, x)[i])
  }

  /** No edge leaves `s`. */
  ghost predicate Enclosed<V>(g: Graph<V>, s: set<nat>)
  {
    forall x, i :: x in s && 0 <= i < |Edges(g, x)| ==> Edges(g, x)[i].dst in s
  }

  /** Each kept edge pops no later than every edge leaving the nodes seen
      before it was kept. */
  ghost predicate Greedy<V>(g: Graph<V>, mst: seq<Edge>)
  {
    forall k :: 0 <= k < |mst| ==> Cheapest(g, Seen(mst[..k]), mst[k])
  }

  /** The first loop: all edges of node 0. */
  method PushAll(es: seq<Edge>) returns (q: multiset<Edge>)
    ensures forall e :: e in q <==> e in es
  {
    q := multiset{};
    var i := 0;
    while i < |es|
      invariant 0 <= i <= |es|
      invariant forall e :: e in q <==> e in es[..i]
    {
      assert es[..i + 1] == es[..i] + [es[i]];
      q := q + multiset{es[i]};
      i := i + 1;
    }
    assert es[..i] == es;
  }

  lemma InitInv<V>(g: Graph<V>, q: multiset<Edge>)
    requires forall e :: e in q <==> e in Edges(g, 0)
    ensures TreeInv(g, [], {0}) && QueueInv(g, q, {0})
  {
    assert Ends([]) == {};
  }

  /** The inner loop: push the edges of the new node `v` that lead to nodes
      not seen. */
  method PushUnseen<V>(g: Graph<V>, v: nat, q0: multiset<Edge>, seen: set<nat>) returns (q: multiset<Edge>)
    ensures forall i :: 0 <= i < |Edges(g, v)| ==> Edges(g, v)[i] in q || Edges(g, v)[i].dst in seen
    ensures forall e :: e in q ==> e in q0 || e in Edges(g, v)
    ensures forall e :: e in q0 ==> e in q
  {
    q := q0;
    var es := Edges(g, v);
    var i := 0;
    while i < |es|
      invariant 0 <= i <= |es|
      invariant forall j :: 0 <= j < i ==> es[j] in q || es[j].dst in seen
      invariant forall e :: e in q ==> e in q0 || e in es
      invariant forall e :: e in q0 ==> e in q
    {
      if es[i].dst !in seen {
        q := q + multiset{es[i]};
      }
      i := i + 1;
    }
  }

  /** Popping an edge to a seen node changes nothing else. */
  lemma SkipKeepsInv<V>(g: Graph<V>, q: multiset<Edge>, seen: set<nat>, e: Edge)
    requires QueueInv(g, q + multiset{e}, seen) && e.dst in seen
    ensures QueueInv(g, q, seen)
  {
    forall f | f in q ensures f in q + multiset{e} {
    }
  }

  /** Keeping a popped edge to a new node. */
  lemma KeepKeepsTree<V>(g: Graph<V>, mst: seq<Edge>, q: multiset<Edge>, seen: set<nat>, e: Edge)
    requires TreeInv(g, mst, seen) && QueueInv(g, q + multiset{e}, seen) && e.dst !in seen
    ensures TreeInv(g, mst + [e], seen + {e.dst})
    ensures e.dst in {0} + Dsts(g)
  {
    assert e in q + multiset{e};
    var x :| x in seen && e in Edges(g, x);
    var i :| 0 <= i < |Edges(g, x)| && Edges(g, x)[i] == e;
    DstInDsts(g, x, i);
    EndsAppend(mst, e);
    var s := mst + [e];
    assert s[..|mst|] == mst;
    forall k | 0 <= k < |s| ensures Earlier(g, s, k) {
      if k < |mst| {
        assert s[..k] == mst[..k];
        assert Earlier(g, mst, k);
      }
    }
    forall j, k | 0 <= j < k < |s| ensures s[j].dst != s[k].dst {
      if k == |mst| {
        assert s[j].dst in Ends(mst);
      }
    }
  }

  lemma KeepKeepsQueue<V>(g: Graph<V>, q: multiset<Edge>, seen: set<nat>, e: Edge, q': multiset<Edge>)
    requires QueueInv(g, q + multiset{e}, seen)
    requires forall i :: 0 <= i < |Edges(g, e.dst)| ==> Edges(g, e.dst)[i] in q' || Edges(g, e.dst)[i].dst in seen + {e.dst}
    requires forall f :: f in q' ==> f in q || f in Edges(g, e.dst)
    requires forall f :: f in q ==> f in q'
    ensures QueueInv(g, q', seen + {e.dst})
  {
    forall x, i | x in seen + {e.dst} && 0 <= i < |Edges(g, x)|
      ensures Edges(g, x)[i] in q' || Edges(g, x)[i].dst in seen + {e.dst}
    {
      if x != e.dst {
        assert Edges(g, x)[i] in q + multiset{e} || Edges(g, x)[i].dst in seen;
      }
    }
    forall f | f in q' ensures exists x :: x in seen + {e.dst} && f in Edges(g, x) {
      if f in q {
        assert f in q + multiset{e};
      }
    }
  }

  /** Every edge leaving the seen nodes is queued, so a least queued edge
      pops no later than all of them. */
  lemma LeastIsCheapest<V>(g: Graph<V>, q: multiset<Edge>, seen: set<nat>, e: Edge)
    requires QueueInv(g, q, seen) && Least(e, q)
    ensures Cheapest(g, seen, e)
  {
    forall x: nat, i: nat | Crossing(g, seen, x, i) ensures Before(e, Edges(g, x)[i]) {
      assert Edges(g, x)[i] in q;
    }
  }

  /** Keeping an edge that pops no later than every edge leaving the seen
      nodes keeps the run greedy. */
  lemma GreedyAppend<V>(g: Graph<V>, mst: seq<Edge>, e: Edge)
    requires Greedy(g, mst) && Cheapest(g, Seen(mst), e)
    ensures Greedy(g, mst + [e])
  {
    var s := mst + [e];
    assert s[..|mst|] == mst;
    forall k | 0 <= k < |s| ensures Cheapest(g, Seen(s[..k]), s[k]) {
      if k < |mst| {
        assert s[..k] == mst[..k];
      }
    }
  }

  /** Under valid ids the kept edges lead to distinct nodes in `[1, n)`, so
      there are fewer than `n` of them. */
  lemma {:induction false} TreeSize<V>(g: Graph<V>, mst: seq<Edge>, seen: set<nat>)
    requires TreeInv(g, mst, seen) && ValidIds(g)
    ensures |mst| == 0 || |mst| < |g.nodes|
    ensures |g.nodes| == 0 ==> |mst| == 0
  {
    DistinctEndsSize(mst);
    forall v | v in Ends(mst) ensures 1 <= v < |g.nodes| {
      var k :| 0 <= k < |mst| && mst[k].dst == v;
      assert Earlier(g, mst, k);
      var x :| mst[k] in Edges(g, x) && (x == 0 || x in Ends(mst[..k]));
      var i :| 0 <= i < |Edges(g, x)| && Edges(g, x)[i] == mst[k];
      assert x in g.edges;
    }
    RangeSetSize(Ends(mst), 1, |g.nodes|);
  }

  lemma {:induction false} DistinctEndsSize(mst: seq<Edge>)
    requires forall j, k :: 0 <= j < k < |mst| ==> mst[j].dst != mst[k].dst
    ensures |Ends(mst)| == |mst|
    decreases |mst|
  {
    if mst != [] {
      var s := mst[..|mst| - 1];
      var e := mst[|mst| - 1];
      assert mst == s + [e];
      DistinctEndsSize(s);
      EndsAppend(s, e);
      assert e.dst !in Ends(s);
    }
  }

  /** With the queue empty, the seen set is closed under edges, so it holds
      every node reachable from 0. */
  lemma {:induction false} SeenClosed<V>(g: Graph<V>, seen: set<nat>, ns: seq<nat>, es: seq<Edge>)
    requires QueueInv(g, multiset{}, seen) && Walk(g, ns, es) && ns[0] in seen
    ensures ns[|ns| - 1] in seen
    decreases |es|
  {
    if es != [] {
      var k := |es| - 1;
      var ns', es' := ns[..k + 1], es[..k];
      assert Walk(g, ns', es') by {
        forall j | 0 <= j < |es'| ensures es'[j] in Edges(g, ns'[j]) && es'[j].dst == ns'[j + 1] {
          assert es'[j] == es[j] && ns'[j] == ns[j] && ns'[j + 1] == ns[j + 1];
        }
      }
      SeenClosed(g, seen, ns', es');
      assert es[k] in Edges(g, ns[k]);
      var i :| 0 <= i < |Edges(g, ns[k])| && Edges(g, ns[k])[i] == es[k];
    }
  }

  /** The graph built by prim's symmetric `add_edge`: every stored edge has
      its reversal in the list of its end. */
  ghost predicate Symmetric<V>(g: Graph<V>)
  {
    forall u, i :: 0 <= i < |Edges(g, u)| ==> Edge(Edges(g, u)[i].dst, u, Edges(g, u)[i].cost) in Edges(g, Edges(g, u)[i].dst)
  }

  lemma AddUndirectedKeepsSymmetric<V>(g: Graph<V>, src: nat, dst: nat, cost: nat)
    requires Symmetric(g)
    ensures Symmetric(AddUndirected(g, src, dst, cost))
  {
    var g' := AddUndirected(g, src, dst, cost);
    forall u, i | 0 <= i < |Edges(g', u)|
      ensures Edge(Edges(g', u)[i].dst, u, Edges(g', u)[i].cost) in Edges(g', Edges(g', u)[i].dst)
    {
      var e := Edges(g', u)[i];
      AddUndirectedAppends(g, src, dst, cost, u);
      AddUndirectedAppends(g, src, dst, cost, e.dst);
      if i < |Edges(g, u)| {
        assert e == Edges(g, u)[i];
        assert Edge(e.dst, u, e.cost) in Edges(g, e.dst);
      } else {
        assert e == Edge(src, dst, cost) || e == Edge(dst, src, cost);
      }
    }
  }

  /** On a graph whose stored edges sit in the list of their own `src`, each
      kept edge's `src` is node 0 or the end of an earlier kept edge. */
  lemma KeyedEarlier<V>(g: Graph<V>, mst: seq<Edge>, k: nat)
    requires WellKeyed(g) && k < |mst| && Earlier(g, mst, k)
    ensures mst[k].src == 0 || mst[k].src in Ends(mst[..k])
  {
    var x :| mst[k] in Edges(g, x) && (x == 0 || x in Ends(mst[..k]));
    var i :| 0 <= i < |Edges(g, x)| && Edges(g, x)[i] == mst[k];
    assert x in g.edges;
  }

  /** The nodes the loop may still add. */
  ghost function Rest<V>(g: Graph<V>, seen: set<nat>): set<nat>
  {
    ({0} + Dsts(g)) - seen
  }

  /** The first kept edge leaves node 0. */
  lemma FirstFromZero<V>(g: Graph<V>, mst: seq<Edge>)
    requires |mst| > 0 && Earlier(g, mst, 0)
    ensures mst[0] in Edges(g, 0)
  {
    assert Ends(mst[..0]) == {};
  }

  /** One turn of the `while let` loop: pop the least entry; skip it when its
      end is seen; otherwise keep it, stop when as many edges as nodes were
      kept, and push the new node's edges to unseen nodes. */
  method Step<V>(g: Graph<V>, mst: seq<Edge>, q: multiset<Edge>, seen: set<nat>)
      returns (mst': seq<Edge>, q': multiset<Edge>, seen': set<nat>, stop: bool)
    requires TreeInv(g, mst, seen) && QueueInv(g, q, seen) && |q| > 0 && Greedy(g, mst)
    ensures TreeInv(g, mst', seen') && Greedy(g, mst')
    ensures stop ==> |mst'| == |g.nodes| > 0
    ensures !stop ==> QueueInv(g, q', seen')
    ensures !stop ==> (mst' == mst && seen' == seen && |q'| < |q|) || |Rest(g, seen')| < |Rest(g, seen)|
  {
    MinEdgeExists(q);
    var e :| Least(e, q);
    q' := q - multiset{e};
    assert q == q' + multiset{e};
    if e.dst in seen {
      SkipKeepsInv(g, q', seen, e);
      return mst, q', seen, false;
    }
    KeepKeepsTree(g, mst, q', seen, e);
    LeastIsCheapest(g, q, seen, e);
    GreedyAppend(g, mst, e);
    InsertShrinksRest({0} + Dsts(g), seen, e.dst);
    seen' := seen + {e.dst};
    mst' := mst + [e];
    if |mst'| == |g.nodes| {
      return mst', q', seen', true;
    }
    var q'' := PushUnseen(g, e.dst, q', seen');
    KeepKeepsQueue(g, q', seen, e, q'');
    return mst', q'', seen', false;
  }

  lemma TreeFacts<V>(g: Graph<V>, mst: seq<Edge>, seen: set<nat>)
    requires TreeInv(g, mst, seen)
    ensures forall k :: 0 <= k < |mst| ==> mst[k].dst != 0
    ensures forall j, k :: 0 <= j < k < |mst| ==> mst[j].dst != mst[k].dst
    ensures forall k :: 0 <= k < |mst| ==> Earlier(g, mst, k)
  {
  }

  /** Once the queue is empty, the kept edges reach every node reachable
      from 0. */
  lemma Covered<V>(g: Graph<V>, mst: seq<Edge>, seen: set<nat>)
    requires TreeInv(g, mst, seen) && QueueInv(g, multiset{}, seen)
    ensures forall v, ns, es :: Reaches(g, 0, v, ns, es) ==> v == 0 || v in Ends(mst)
    ensures Enclosed(g, Seen(mst))
  {
    forall v, ns, es | Reaches(g, 0, v, ns, es) ensures v == 0 || v in Ends(mst) {
      SeenClosed(g, seen, ns, es);
    }
  }

  /** The `while let` loop of `prim`, from the edges of node 0 until the
      queue is empty or as many edges as nodes were kept. */
  method Drain<V>(g: Graph<V>) returns (mst: seq<Edge>, seen: set<nat>, stop: bool)
    ensures TreeInv(g, mst, seen) && Greedy(g, mst)
    ensures stop ==> |mst| == |g.nodes| > 0
    ensures !stop ==> QueueInv(g, multiset{}, seen)
  {
    mst := [];
    var q := PushAll(Edges(g, 0));
    seen := {0};
    InitInv(g, q);
    stop := false;
    while |q| > 0 && !stop
      invariant TreeInv(g, mst, seen) && Greedy(g, mst)
      invariant stop ==> |mst| == |g.nodes| > 0
      invariant !stop ==> QueueInv(g, q, seen)
      decreases !stop, |Rest(g, seen)|, |q|
    {
      mst, q, seen, stop := Step(g, mst, q, seen);
    }
    if !stop {
      assert q == multiset{};
    }
  }

  /** `prim`.  The loop ends when the queue is empty, and then every node
      reachable from 0 is covered and no edge leaves the seen nodes, or when
      as many edges as nodes were kept, which under valid ids cannot happen.
      Each kept edge is the least edge leaving the nodes seen before it. */
  method Prim<V>(g: Graph<V>) returns (mst: seq<Edge>)
    ensures forall k :: 0 <= k < |mst| ==> mst[k].dst != 0
    ensures forall j, k :: 0 <= j < k < |mst| ==> mst[j].dst != mst[k].dst
    ensures forall k :: 0 <= k < |mst| ==> Earlier(g, mst, k)
    ensures Edges(g, 0) == [] ==> mst == []
    ensures ValidIds(g) ==> |mst| == 0 || |mst| < |g.nodes|
    ensures |mst| == |g.nodes| > 0 || forall v, ns, es :: Reaches(g, 0, v, ns, es) ==> v == 0 || v in Ends(mst)
    ensures Greedy(g, mst)
    ensures |mst| == |g.nodes| > 0 || Enclosed(g, Seen(mst))
  {
    var seen, stop;
    mst, seen, stop := Drain(g);
    if !stop {
      Covered(g, mst, seen);
    }
    TreeFacts(g, mst, seen);
    if mst != [] {
      FirstFromZero(g, mst);
    }
    if ValidIds(g) {
      TreeSize(g, mst, seen);
    }
  }

  /** What `prim`'s contract says of a result, bundled: kept edges lead to
      distinct nodes other than 0, each leaves a node seen before it, each is
      the least edge leaving the nodes seen before it, and at the end no edge
      leaves the seen nodes (or as many edges as nodes were kept). */
  ghost predicate GreedyTree<V>(g: Graph<V>, mst: seq<Edge>)
  {
    && (forall k :: 0 <= k < |mst| ==> mst[k].dst != 0)
    && (forall j, k :: 0 <= j < k < |mst| ==> mst[j].dst != mst[k].dst)
    && (forall k :: 0 <= k < |mst| ==> Earlier(g, mst, k))
    && Greedy(g, mst)
    && (|mst| == |g.nodes| > 0 || Enclosed(g, Seen(mst)))
  }

  /** A reference run: each edge leaves the nodes seen before it and is the
      least such edge, and at the end no edge leaves the seen nodes. */
  ghost predicate GreedyRun<V>(g: Graph<V>, run: seq<Edge>)
  {
    && (forall k :: 0 <= k < |run| ==> Crosses(g, Seen(run[..k]), run[k]) && Cheapest(g, Seen(run[..k]), run[k]))
    && Enclosed(g, Seen(run))
  }

  /** A kept edge leaves the nodes seen before it. */
  lemma TreeCrosses<V>(g: Graph<V>, mst: seq<Edge>, k: nat)
    requires GreedyTree(g, mst) && k < |mst|
    ensures Crosses(g, Seen(mst[..k]), mst[k])
  {
    assert Earlier(g, mst, k);
    var x :| mst[k] in Edges(g, x) && (x == 0 || x in Ends(mst[..k]));
    var i :| 0 <= i < |Edges(g, x)| && Edges(g, x)[i] == mst[k];
    assert mst[k].dst !in Ends(mst[..k]);
    assert Crossing(g, Seen(mst[..k]), x, i);
  }

  /** The least edge leaving a node set is unique. */
  lemma CheapestUnique<V>(g: Graph<V>, s: set<nat>, a: Edge, b: Edge)
    requires Crosses(g, s, a) && Cheapest(g, s, a) && Crosses(g, s, b) && Cheapest(g, s, b)
    ensures a == b
  {
    var x: nat, i: nat :| Crossing(g, s, x, i) && Edges(g, x)[i] == a;
    var y: nat, l: nat :| Crossing(g, s, y, l) && Edges(g, y)[l] == b;
    BeforeIsTotalOrder(a, b, b);
  }

  /** Runs that agree before edge `j` agree on edge `j`: the least edge
      leaving the same seen nodes. */
  lemma NextAgrees<V>(g: Graph<V>, mst: seq<Edge>, run: seq<Edge>, j: nat)
    requires GreedyTree(g, mst) && GreedyRun(g, run) && j < |mst| && j < |run| && mst[..j] == run[..j]
    ensures mst[j] == run[j]
  {
    TreeCrosses(g, mst, j);
    CheapestUnique(g, Seen(run[..j]), mst[j], run[j]);
  }

  /** Two sequences that differ somewhere in their first `m` entries have a
      first difference. */
  lemma {:induction false} FirstDifference(a: seq<Edge>, b: seq<Edge>, m: nat) returns (j: nat)
    requires m <= |a| && m <= |b| && a[..m] != b[..m]
    ensures j < m && a[..j] == b[..j] && a[j] != b[j]
    decreases m
  {
    if a[..m - 1] == b[..m - 1] {
      j := m - 1;
      assert a[..m] == a[..m - 1] + [a[m - 1]] && b[..m] == b[..m - 1] + [b[m - 1]];
    } else {
      j := FirstDifference(a, b, m - 1);
    }
  }

  /** Two greedy runs agree edge by edge. */
  lemma RunsAgree<V>(g: Graph<V>, mst: seq<Edge>, run: seq<Edge>, k: nat)
    requires GreedyTree(g, mst) && GreedyRun(g, run) && k <= |mst| && k <= |run|
    ensures mst[..k] == run[..k]
  {
    if mst[..k] != run[..k] {
      var j := FirstDifference(mst, run, k);
      NextAgrees(g, mst, run, j);
      assert false;
    }
  }

  /** A node set that an edge leaves is not closed. */
  lemma CrossedNotEnclosed<V>(g: Graph<V>, s: set<nat>, e: Edge)
    requires Crosses(g, s, e)
    ensures !Enclosed(g, s)
  {
    var x: nat, i: nat :| Crossing(g, s, x, i) && Edges(g, x)[i] == e;
  }

  /** A result meeting `prim`'s contract is the reference run, when that run
      keeps fewer edges than there are nodes. */
  lemma RunDetermined<V>(g: Graph<V>, mst: seq<Edge>, run: seq<Edge>)
    requires GreedyTree(g, mst) && GreedyRun(g, run) && |run| < |g.nodes|
    ensures mst == run
  {
    if |mst| > |run| {
      RunsAgree(g, mst, run, |run|);
      assert mst[..|run|] == run[..|run|] == run;
      TreeCrosses(g, mst, |run|);
      CrossedNotEnclosed(g, Seen(run), mst[|run|]);
      assert false;
    } else if |mst| < |run| {
      RunsAgree(g, mst, run, |mst|);
      assert mst[..|mst|] == mst;
      CrossedNotEnclosed(g, Seen(mst), run[|mst|]);
      assert false;
    } else {
      RunsAgree(g, mst, run, |mst|);
      assert mst == mst[..|mst|] && run == run[..|run|];
    }
  }

  /** The seen sets of a run, written out: `sets[k]` is the seen set before
      edge `k`. */
  lemma {:induction false} SeenPrefixes(run: seq<Edge>, sets: seq<set<nat>>, k: nat)
    requires |sets| == |run| + 1 && sets[0] == {0}
    requires forall j :: 0 <= j < |run| ==> sets[j + 1] == sets[j] + {run[j].dst}
    requires k <= |run|
    ensures Seen(run[..k]) == sets[k]
    decreases k
  {
    if k == 0 {
      assert Ends(run[..0]) == {};
    } else {
      SeenPrefixes(run, sets, k - 1);
      assert run[..k] == run[..k - 1] + [run[k - 1]];
      EndsAppend(run[..k - 1], run[k - 1]);
    }
  }

  /** A reference run checked set by set. */
  lemma RunBySets<V>(g: Graph<V>, run: seq<Edge>, sets: seq<set<nat>>)
    requires |sets| == |run| + 1 && sets[0] == {0}
    requires forall j :: 0 <= j < |run| ==> sets[j + 1] == sets[j] + {run[j].dst}
    requires forall j :: 0 <= j < |run| ==> Crosses(g, sets[j], run[j]) && Cheapest(g, sets[j], run[j])
    requires Enclosed(g, sets[|run|])
    ensures GreedyRun(g, run)
  {
    forall k | 0 <= k < |run| ensures Crosses(g, Seen(run[..k]), run[k]) && Cheapest(g, Seen(run[..k]), run[k]) {
      SeenPrefixes(run, sets, k);
    }
    SeenPrefixes(run, sets, |run|);
    assert run[..|run|] == run;
  }
}
