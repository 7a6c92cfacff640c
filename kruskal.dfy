/** `kruskal` of src/graph/kruskal.rs: collect every stored edge, sort them
    stably by cost, and keep each edge whose ends the union-find forest has
    in different sets, merging those sets.  The order of `HashMap::values()`
    is unspecified; it is a parameter `keys`, any listing of the keys. */
module Kruskal {
  import opened Base
  import opened Graphs
  import opened UnionFind

  /** `graph.edges.values().flatten()` when the map yields its keys in the
      order `keys`. */
  function Flatten<V>(g: Graph<V>, keys: seq<nat>): seq<Edge>
  {
    if keys == [] then [] else Flatten(g, keys[..|keys| - 1]) + Edges(g, keys[|keys| - 1])
  }

  /** `keys` lists every key of the map exactly once. */
  ghost predicate KeyOrder<V>(g: Graph<V>, keys: seq<nat>)
  {
    && (forall i, j :: 0 <= i < j < |keys| ==> keys[i] != keys[j])
    && (forall u :: u in keys <==> u in g.edges)
  }

  /** The collected edges are exactly the stored edges. */
  lemma {:induction false} FlattenHas<V>(g: Graph<V>, keys: seq<nat>, e: Edge)
    ensures e in Flatten(g, keys) <==> exists j :: 0 <= j < |keys| && e in Edges(g, keys[j])
    decreases |keys|
  {
    if keys != [] {
      var ks := keys[..|keys| - 1];
      FlattenHas(g, ks, e);
      if e in Flatten(g, ks) {
        var j :| 0 <= j < |ks| && e in Edges(g, ks[j]);
        assert keys[j] == ks[j];
      }
      if j :| 0 <= j < |keys| && e in Edges(g, keys[j]) {
        if j < |ks| {
          assert ks[j] == keys[j];
        }
      }
    }
  }

  /** `all_edges.sort_by_key(|e| e.cost)`: a stable insertion sort by cost.
      `Insert` puts `e` behind every element whose cost is at most its own. */
  function Insert(s: seq<Edge>, e: Edge): (r: seq<Edge>)
    ensures multiset(r) == multiset(s) + multiset{e}
  {
    if s == [] || s[|s| - 1].cost <= e.cost then s + [e]
    else
      assert s == s[..|s| - 1] + [s[|s| - 1]];
      Insert(s[..|s| - 1], e) + [s[|s| - 1]]
  }

  function SortByCost(s: seq<Edge>): (r: seq<Edge>)
    ensures multiset(r) == multiset(s)
  {
    if s == [] then []
    else
      assert s == s[..|s| - 1] + [s[|s| - 1]];
      Insert(SortByCost(s[..|s| - 1]), s[|s| - 1])
  }

  ghost predicate CostSorted(s: seq<Edge>)
  {
    forall i, j :: 0 <= i < j < |s| ==> s[i].cost <= s[j].cost
  }

  /** The edges of cost `c`, in order. */
  function WithCost(s: seq<Edge>, c: nat): seq<Edge>
  {
    if s == [] then []
    else WithCost(s[..|s| - 1], c) + (if s[|s| - 1].cost == c then [s[|s| - 1]] else [])
  }

  /** An edge no cheaper than every element can go behind them all. */
  lemma AppendSorted(r: seq<Edge>, x: Edge)
    requires CostSorted(r) && forall y :: y in r ==> y.cost <= x.cost
    ensures CostSorted(r + [x])
  {
    forall i, j | 0 <= i < j < |r + [x]| ensures (r + [x])[i].cost <= (r + [x])[j].cost {
      assert (r + [x])[i] == r[i] && r[i] in r;
    }
  }

  lemma {:induction false} InsertSorted(s: seq<Edge>, e: Edge)
    requires CostSorted(s)
    ensures CostSorted(Insert(s, e))
    ensures forall x :: x in Insert(s, e) <==> x in s || x == e
    decreases |s|
  {
    if s == [] || s[|s| - 1].cost <= e.cost {
      AppendSorted(s, e);
    } else {
      var t := s[..|s| - 1];
      var x := s[|s| - 1];
      assert s == t + [x];
      assert CostSorted(t);
      InsertSorted(t, e);
      var r := Insert(t, e);
      assert forall y :: y in r ==> y.cost <= x.cost by {
        forall y | y in r ensures y.cost <= x.cost {
          if y != e {
            var k :| 0 <= k < |t| && t[k] == y;
          }
        }
      }
      AppendSorted(r, x);
    }
  }

  /** Appending an edge appends it to its cost's list, and to no other. */
  lemma WithCostSnoc(r: seq<Edge>, x: Edge, c: nat)
    ensures WithCost(r + [x], c) == WithCost(r, c) + (if x.cost == c then [x] else [])
  {
    assert (r + [x])[..|r|] == r;
  }

  lemma {:induction false} InsertStable(s: seq<Edge>, e: Edge, c: nat)
    ensures WithCost(Insert(s, e), c) == WithCost(s, c) + (if e.cost == c then [e] else [])
    decreases |s|
  {
    if s == [] || s[|s| - 1].cost <= e.cost {
      WithCostSnoc(s, e, c);
    } else {
      var t := s[..|s| - 1];
      var x := s[|s| - 1];
      assert s == t + [x];
      InsertStable(t, e, c);
      var r := Insert(t, e);
      assert Insert(s, e) == r + [x];
      WithCostSnoc(r, x, c);
      WithCostSnoc(t, x, c);
      assert x.cost != e.cost;
    }
  }

  /** The sort orders by cost. */
  lemma {:induction false} SortSorted(s: seq<Edge>)
    ensures CostSorted(SortByCost(s))
    decreases |s|
  {
    if s != [] {
      SortSorted(s[..|s| - 1]);
      InsertSorted(SortByCost(s[..|s| - 1]), s[|s| - 1]);
    }
  }

  /** The sort is stable: the edges of each cost keep their relative order. */
  lemma {:induction false} SortStable(s: seq<Edge>, c: nat)
    ensures WithCost(SortByCost(s), c) == WithCost(s, c)
    decreases |s|
  {
    if s != [] {
      SortStable(s[..|s| - 1], c);
      InsertStable(SortByCost(s[..|s| - 1]), s[|s| - 1], c);
    }
  }

  /** `a` is a subsequence of `b`. */
  ghost predicate IsSubseq(a: seq<Edge>, b: seq<Edge>)
    decreases |b|
  {
    if a == [] then true
    else if b == [] then false
    else if a[|a| - 1] == b[|b| - 1] then IsSubseq(a[..|a| - 1], b[..|b| - 1]) || IsSubseq(a, b[..|b| - 1])
    else IsSubseq(a, b[..|b| - 1])
  }

  lemma SubseqSkip(a: seq<Edge>, b: seq<Edge>, x: Edge)
    requires IsSubseq(a, b)
    ensures IsSubseq(a, b + [x])
  {
    assert (b + [x])[..|b|] == b;
  }

  lemma SubseqTake(a: seq<Edge>, b: seq<Edge>, x: Edge)
    requires IsSubseq(a, b)
    ensures IsSubseq(a + [x], b + [x])
  {
    assert (b + [x])[..|b|] == b;
    assert (a + [x])[..|a|] == a;
  }

  /** A subsequence keeps the order of its elements: a subsequence of a
      cost-sorted list is cost-sorted, and every element comes from it. */
  lemma {:induction false} SubseqOfSorted(a: seq<Edge>, b: seq<Edge>)
    requires IsSubseq(a, b) && CostSorted(b)
    ensures CostSorted(a)
    ensures forall x :: x in a ==> x in b
    decreases |b|
  {
    if a != [] {
      var b' := b[..|b| - 1];
      assert CostSorted(b');
      if a[|a| - 1] == b[|b| - 1] && IsSubseq(a[..|a| - 1], b') {
        var a' := a[..|a| - 1];
        SubseqOfSorted(a', b');
        assert a == a' + [a[|a| - 1]];
        forall i | 0 <= i < |a'| ensures a'[i].cost <= a[|a| - 1].cost {
          assert a'[i] in b';
          var j :| 0 <= j < |b'| && b'[j] == a'[i];
        }
        assert forall i :: 0 <= i < |a'| ==> a[i] == a'[i];
      } else {
        SubseqOfSorted(a, b');
      }
    }
  }

  /** Undirected adjacency along a kept edge, in either direction. */
  predicate Joins(e: Edge, a: nat, b: nat)
  {
    (e.src == a && e.dst == b) || (e.src == b && e.dst == a)
  }

  ghost predicate Adjacent(es: seq<Edge>, a: nat, b: nat)
  {
    exists k :: 0 <= k < |es| && Joins(es[k], a, b)
  }

  /** `ns` is a path from `x` to `y` over the edges `es`, taken undirected. */
  ghost predicate Connects(es: seq<Edge>, ns: seq<nat>, x: nat, y: nat)
  {
    && |ns| > 0 && ns[0] == x && ns[|ns| - 1] == y
    && forall i :: 0 <= i < |ns| - 1 ==> Adjacent(es, ns[i], ns[i + 1])
  }

  /** `x` and `y` are in one component of the forest `es`. */
  ghost predicate Linked(es: seq<Edge>, x: nat, y: nat)
  {
    exists ns :: Connects(es, ns, x, y)
  }

  lemma LinkedRefl(es: seq<Edge>, x: nat)
    ensures Linked(es, x, x)
  {
    assert Connects(es, [x], x, x);
  }

  lemma LinkedStep(es: seq<Edge>, x: nat, y: nat, z: nat)
    requires Linked(es, x, y) && Adjacent(es, y, z)
    ensures Linked(es, x, z)
  {
    var ns :| Connects(es, ns, x, y);
    var ns' := ns + [z];
    assert forall i :: 0 <= i < |ns| ==> ns'[i] == ns[i];
    assert Connects(es, ns', x, z);
  }

  lemma LinkedTrans(es: seq<Edge>, x: nat, y: nat, z: nat)
    requires Linked(es, x, y) && Linked(es, y, z)
    ensures Linked(es, x, z)
  {
    var ns1 :| Connects(es, ns1, x, y);
    var ns2 :| Connects(es, ns2, y, z);
    var ns := ns1 + ns2[1..];
    forall i | 0 <= i < |ns| - 1 ensures Adjacent(es, ns[i], ns[i + 1]) {
      if i < |ns1| - 1 {
        assert ns[i] == ns1[i] && ns[i + 1] == ns1[i + 1];
      } else {
        var j := i - |ns1| + 1;
        assert ns[i] == ns2[j] && ns[i + 1] == ns2[j + 1];
      }
    }
    assert Connects(es, ns, x, z);
  }

  lemma LinkedSym(es: seq<Edge>, x: nat, y: nat)
    requires Linked(es, x, y)
    ensures Linked(es, y, x)
  {
    var ns :| Connects(es, ns, x, y);
    var n := |ns|;
    var rs := seq(n, i requires 0 <= i < n => ns[n - 1 - i]);
    forall i | 0 <= i < n - 1 ensures Adjacent(es, rs[i], rs[i + 1]) {
      var j := n - 2 - i;
      assert rs[i] == ns[j + 1] && rs[i + 1] == ns[j];
      var k :| 0 <= k < |es| && Joins(es[k], ns[j], ns[j + 1]);
      assert Joins(es[k], rs[i], rs[i + 1]);
    }
    assert Connects(es, rs, y, x);
  }

  lemma LinkedGrow(es: seq<Edge>, e: Edge, x: nat, y: nat)
    requires Linked(es, x, y)
    ensures Linked(es + [e], x, y)
  {
    var ns :| Connects(es, ns, x, y);
    forall i | 0 <= i < |ns| - 1 ensures Adjacent(es + [e], ns[i], ns[i + 1]) {
      var k :| 0 <= k < |es| && Joins(es[k], ns[i], ns[i + 1]);
      assert (es + [e])[k] == es[k];
    }
    assert Connects(es + [e], ns, x, y);
  }

  /** What a path over `es + [e]` amounts to: `x` and `y` were linked, or
      linked to the two ends of `e`. */
  ghost predicate LinkedVia(es: seq<Edge>, e: Edge, x: nat, y: nat)
  {
    || Linked(es, x, y)
    || (Linked(es, x, e.src) && Linked(es, e.dst, y))
    || (Linked(es, x, e.dst) && Linked(es, e.src, y))
  }

  /** One more step along `e` itself. */
  lemma ViaStepOnE(es: seq<Edge>, e: Edge, x: nat, y: nat, z: nat)
    requires LinkedVia(es, e, x, y) && Joins(e, y, z)
    ensures LinkedVia(es, e, x, z)
  {
    LinkedRefl(es, z);
    if Linked(es, x, y) {
    } else if Linked(es, x, e.src) && Linked(es, e.dst, y) {
      if y == e.src {
        LinkedSym(es, e.dst, y);
        LinkedTrans(es, x, e.src, e.dst);
      }
    } else {
      if y == e.dst {
        LinkedSym(es, e.src, y);
        LinkedTrans(es, x, e.dst, e.src);
      }
    }
  }

  /** One more step along an edge of `es`. */
  lemma ViaStepOnEs(es: seq<Edge>, e: Edge, x: nat, y: nat, z: nat)
    requires LinkedVia(es, e, x, y) && Adjacent(es, y, z)
    ensures LinkedVia(es, e, x, z)
  {
    if Linked(es, x, y) {
      LinkedStep(es, x, y, z);
    } else if Linked(es, x, e.src) && Linked(es, e.dst, y) {
      LinkedStep(es, e.dst, y, z);
    } else {
      LinkedStep(es, e.src, y, z);
    }
  }

  lemma {:induction false} PathVia(es: seq<Edge>, e: Edge, ns: seq<nat>, x: nat, y: nat)
    requires Connects(es + [e], ns, x, y)
    ensures LinkedVia(es, e, x, y)
    decreases |ns|
  {
    if |ns| == 1 {
      LinkedRefl(es, x);
    } else {
      var m := |ns| - 1;
      var ns' := ns[..m];
      assert Connects(es + [e], ns', x, ns[m - 1]) by {
        forall i | 0 <= i < |ns'| - 1 ensures Adjacent(es + [e], ns'[i], ns'[i + 1]) {
          assert ns'[i] == ns[i] && ns'[i + 1] == ns[i + 1];
        }
      }
      PathVia(es, e, ns', x, ns[m - 1]);
      assert Adjacent(es + [e], ns[m - 1], ns[m]);
      var k :| 0 <= k < |es| + 1 && Joins((es + [e])[k], ns[m - 1], ns[m]);
      if k < |es| {
        assert Joins(es[k], ns[m - 1], ns[m]);
        ViaStepOnEs(es, e, x, ns[m - 1], y);
      } else {
        ViaStepOnE(es, e, x, ns[m - 1], y);
      }
    }
  }

  /** Adding `e` links exactly the pairs that were linked, or linked to its
      two ends. */
  lemma LinkedAppend(es: seq<Edge>, e: Edge, x: nat, y: nat)
    ensures Linked(es + [e], x, y) <==> LinkedVia(es, e, x, y)
  {
    if Linked(es + [e], x, y) {
      var ns :| Connects(es + [e], ns, x, y);
      PathVia(es, e, ns, x, y);
    }
    if LinkedVia(es, e, x, y) {
      var es' := es + [e];
      assert Joins(es'[|es|], e.src, e.dst) && Joins(es'[|es|], e.dst, e.src);
      if Linked(es, x, y) {
        LinkedGrow(es, e, x, y);
      } else if Linked(es, x, e.src) && Linked(es, e.dst, y) {
        LinkedGrow(es, e, x, e.src);
        LinkedGrow(es, e, e.dst, y);
        LinkedStep(es', x, e.src, e.dst);
        LinkedTrans(es', x, e.dst, y);
      } else {
        LinkedGrow(es, e, x, e.dst);
        LinkedGrow(es, e, e.src, y);
        LinkedStep(es', x, e.dst, e.src);
        LinkedTrans(es', x, e.src, y);
      }
    }
  }

  /** The forest tracks the kept edges: two nodes share a root exactly when
      the kept edges link them. */
  ghost predicate Tracks(parent: seq<nat>, rank: seq<nat>, es: seq<Edge>)
  {
    && WellFormed(parent, rank)
    && forall x, y :: 0 <= x < |parent| && 0 <= y < |parent| ==>
         (Root(parent, rank, x) == Root(parent, rank, y) <==> Linked(es, x, y))
  }

  /** Without edges a path is a single node. */
  lemma NoEdgesNoPath(ns: seq<nat>, x: nat, y: nat)
    requires Connects([], ns, x, y)
    ensures x == y
  {
    assert 0 < |ns| - 1 ==> Adjacent([], ns[0], ns[1]);
  }

  lemma FreshTracks(n: nat)
    ensures Tracks(Identity(n), Zeros(n), [])
  {
    FreshForest(n);
    forall x, y | 0 <= x < n && 0 <= y < n && Linked([], x, y) ensures x == y {
      var ns :| Connects([], ns, x, y);
      NoEdgesNoPath(ns, x, y);
    }
    forall x | 0 <= x < n {
      LinkedRefl([], x);
    }
  }

  /** The fresh forest has `n` roots. */
  lemma FreshRoots(n: nat)
    ensures |Roots(Identity(n))| == n
  {
    FreshForest(n);
    assert Roots(Identity(n)) == Range(n);
  }

  /** A find changes no root, so the forest keeps tracking. */
  lemma SameRootsTrack(parent: seq<nat>, p: seq<nat>, rank: seq<nat>, es: seq<Edge>)
    requires Tracks(parent, rank, es) && WellFormed(p, rank) && |p| == |parent|
    requires forall y :: 0 <= y < |parent| ==> Root(p, rank, y) == Root(parent, rank, y)
    ensures Tracks(p, rank, es)
  {
  }

  /** Merging the sets of the two ends of `e` tracks the forest with `e`. */
  lemma UnionTracks(parent: seq<nat>, rank: seq<nat>, es: seq<Edge>, e: Edge)
    requires Tracks(parent, rank, es) && e.src < |parent| && e.dst < |parent|
    requires Root(parent, rank, e.src) != Root(parent, rank, e.dst)
    ensures Tracks(UnionSeq(parent, rank, e.src, e.dst).0, UnionSeq(parent, rank, e.src, e.dst).1, es + [e])
  {
    UnionMerges(parent, rank, e.src, e.dst);
    var (p, k) := UnionSeq(parent, rank, e.src, e.dst);
    var ra, rb := Root(parent, rank, e.src), Root(parent, rank, e.dst);
    forall x, y | 0 <= x < |p| && 0 <= y < |p|
      ensures Root(p, k, x) == Root(p, k, y) <==> Linked(es + [e], x, y)
    {
      LinkedAppend(es, e, x, y);
      assert Linked(es, x, e.src) <==> Root(parent, rank, x) == ra;
      assert Linked(es, e.dst, y) <==> rb == Root(parent, rank, y);
      assert Linked(es, x, e.dst) <==> Root(parent, rank, x) == rb;
      assert Linked(es, e.src, y) <==> ra == Root(parent, rank, y);
    }
  }

  /** The loop turn's decision: with equal roots nothing changes; otherwise
      the union merges the two sets and `edge` is kept. */
  method Consider(ds: DisjointSet, mst: seq<Edge>, e: Edge) returns (mst': seq<Edge>, joined: bool)
    requires ds.Valid() && Tracks(ds.parent, ds.rank, mst) && e.src < ds.Size() && e.dst < ds.Size()
    modifies ds
    ensures |ds.parent| == |old(ds.parent)| && Tracks(ds.parent, ds.rank, mst')
    ensures joined <==> !Linked(mst, e.src, e.dst)
    ensures mst' == if joined then mst + [e] else mst
    ensures |mst'| + |Roots(ds.parent)| == |mst| + |Roots(old(ds.parent))|
  {
    ghost var p0 := ds.parent;
    var rs := ds.Find(e.src);
    HalvePathCorrect(p0, ds.rank, e.src);
    SameRootsTrack(p0, ds.parent, ds.rank, mst);
    ghost var p1 := ds.parent;
    var rd := ds.Find(e.dst);
    HalvePathCorrect(p1, ds.rank, e.dst);
    SameRootsTrack(p1, ds.parent, ds.rank, mst);
    joined := rs != rd;
    if joined {
      ghost var p2, k2 := ds.parent, ds.rank;
      UnionTracks(p2, k2, mst, e);
      UnionRoots(p2, k2, e.src, e.dst);
      ds.Union(e.src, e.dst);
      mst' := mst + [e];
    } else {
      mst' := mst;
    }
  }

  /** Every stored edge has both ends inside `nodes`: `find` would panic otherwise. */
  ghost predicate EndsInRange<V>(g: Graph<V>)
  {
    forall u, i :: u in g.edges && 0 <= i < |g.edges[u]| ==> g.edges[u][i].src < |g.nodes| && g.edges[u][i].dst < |g.nodes|
  }

  ghost predicate Acyclic(mst: seq<Edge>)
  {
    forall k :: 0 <= k < |mst| ==> !Linked(mst[..k], mst[k].src, mst[k].dst)
  }

  lemma AcyclicAppend(mst: seq<Edge>, e: Edge)
    requires Acyclic(mst) && !Linked(mst, e.src, e.dst)
    ensures Acyclic(mst + [e])
  {
    var s := mst + [e];
    assert s[..|mst|] == mst;
    forall k | 0 <= k < |mst| ensures s[..k] == mst[..k] && s[k] == mst[k] {
    }
  }

  /** A forest over `n > 0` nodes has a root, so fewer than `n` edges. */
  lemma RootExists(parent: seq<nat>, rank: seq<nat>)
    requires WellFormed(parent, rank) && |parent| > 0
    ensures |Roots(parent)| > 0
  {
    assert Root(parent, rank, 0) in Roots(parent);
  }

  lemma RootsBound(parent: seq<nat>)
    ensures |Roots(parent)| <= |parent|
  {
    RangeSetSize(Roots(parent), 0, |parent|);
  }

  lemma CollectedInRange<V>(g: Graph<V>, keys: seq<nat>, e: Edge)
    requires EndsInRange(g) && e in Flatten(g, keys)
    ensures e.src < |g.nodes| && e.dst < |g.nodes|
    ensures exists u :: u in g.edges && e in g.edges[u]
  {
    FlattenHas(g, keys, e);
    var j :| 0 <= j < |keys| && e in Edges(g, keys[j]);
    var i :| 0 <= i < |Edges(g, keys[j])| && Edges(g, keys[j])[i] == e;
    assert keys[j] in g.edges;
  }

  /** The kept edges of cost at most `c`, in order. */
  function Cheap(es: seq<Edge>, c: nat): seq<Edge>
  {
    if es == [] then []
    else Cheap(es[..|es| - 1], c) + (if es[|es| - 1].cost <= c then [es[|es| - 1]] else [])
  }

  /** The cheap edges are kept edges of cost at most `c`. */
  lemma {:induction false} CheapFrom(es: seq<Edge>, c: nat, x: Edge)
    requires x in Cheap(es, c)
    ensures x in es && x.cost <= c
    decreases |es|
  {
    var t := es[..|es| - 1];
    if x in Cheap(t, c) {
      CheapFrom(t, c, x);
      assert forall y :: y in t ==> y in es;
    }
  }

  lemma CheapSnoc(es: seq<Edge>, e: Edge, c: nat)
    ensures Cheap(es + [e], c) == Cheap(es, c) + (if e.cost <= c then [e] else [])
  {
    assert (es + [e])[..|es|] == es;
  }

  /** When no kept edge costs more than `c`, all of them are cheap. */
  lemma {:induction false} CheapAll(es: seq<Edge>, c: nat)
    requires forall k :: 0 <= k < |es| ==> es[k].cost <= c
    ensures Cheap(es, c) == es
    decreases |es|
  {
    if es != [] {
      var t := es[..|es| - 1];
      assert forall k :: 0 <= k < |t| ==> t[k] == es[k];
      CheapAll(t, c);
      assert Cheap(es, c) == Cheap(t, c) + [es[|es| - 1]];
      assert es == t + [es[|es| - 1]];
    }
  }

  /** The cycle condition so far: the ends of each of the first `i` sorted
      edges are linked by kept edges that cost no more than it. */
  ghost predicate CheapInv(mst: seq<Edge>, sorted: seq<Edge>, i: nat)
    requires i <= |sorted|
  {
    forall j :: 0 <= j < i ==> Linked(Cheap(mst, sorted[j].cost), sorted[j].src, sorted[j].dst)
  }

  /** Keeping sorted edge `i` links its own ends at its own cost. */
  lemma KeepCheap(mst: seq<Edge>, sorted: seq<Edge>, i: nat)
    requires i < |sorted| && CheapInv(mst, sorted, i)
    ensures CheapInv(mst + [sorted[i]], sorted, i + 1)
  {
    var e := sorted[i];
    forall j | 0 <= j < i + 1 ensures Linked(Cheap(mst + [e], sorted[j].cost), sorted[j].src, sorted[j].dst) {
      var c := sorted[j].cost;
      CheapSnoc(mst, e, c);
      if j < i {
        if e.cost <= c {
          LinkedGrow(Cheap(mst, c), e, sorted[j].src, sorted[j].dst);
        } else {
          assert Cheap(mst + [e], c) == Cheap(mst, c);
        }
      } else {
        assert j == i && Cheap(mst + [e], c) == Cheap(mst, c) + [e];
        var es := Cheap(mst, c) + [e];
        assert Joins(es[|es| - 1], e.src, e.dst);
        assert Adjacent(es, e.src, e.dst);
        LinkedRefl(es, e.src);
        LinkedStep(es, e.src, e.src, e.dst);
      }
    }
  }

  /** Skipping sorted edge `i`: its ends are linked, and no kept edge costs
      more than it. */
  lemma SkipCheap(mst: seq<Edge>, sorted: seq<Edge>, i: nat)
    requires i < |sorted| && CheapInv(mst, sorted, i) && Linked(mst, sorted[i].src, sorted[i].dst)
    requires forall k :: 0 <= k < |mst| ==> mst[k].cost <= sorted[i].cost
    ensures CheapInv(mst, sorted, i + 1)
  {
    CheapAll(mst, sorted[i].cost);
  }

  /** Nothing kept before sorted edge `i` costs more than it. */
  lemma KeptNoDearer(mst: seq<Edge>, sorted: seq<Edge>, i: nat)
    requires i < |sorted| && CostSorted(sorted) && IsSubseq(mst, sorted[..i])
    ensures forall k :: 0 <= k < |mst| ==> mst[k].cost <= sorted[i].cost
  {
    assert CostSorted(sorted[..i]);
    SubseqOfSorted(mst, sorted[..i]);
    forall k | 0 <= k < |mst| ensures mst[k].cost <= sorted[i].cost {
      assert mst[k] in mst;
      var j :| 0 <= j < i && sorted[..i][j] == mst[k];
    }
  }

  /** What the pass has established after the first `i` sorted edges. */
  ghost predicate PassInv(mst: seq<Edge>, sorted: seq<Edge>, i: nat)
    requires i <= |sorted|
  {
    && IsSubseq(mst, sorted[..i]) && Acyclic(mst)
    && forall j :: 0 <= j < i ==> Linked(mst, sorted[j].src, sorted[j].dst)
  }

  /** Keeping sorted edge `i`, whose ends were not linked. */
  lemma KeepStep(mst: seq<Edge>, sorted: seq<Edge>, i: nat)
    requires i < |sorted| && PassInv(mst, sorted, i) && !Linked(mst, sorted[i].src, sorted[i].dst)
    ensures PassInv(mst + [sorted[i]], sorted, i + 1)
  {
    var e := sorted[i];
    var mst' := mst + [e];
    assert sorted[..i + 1] == sorted[..i] + [e];
    SubseqTake(mst, sorted[..i], e);
    AcyclicAppend(mst, e);
    forall j | 0 <= j < i ensures Linked(mst', sorted[j].src, sorted[j].dst) {
      LinkedGrow(mst, e, sorted[j].src, sorted[j].dst);
    }
    assert Joins(mst'[|mst|], e.src, e.dst);
    LinkedRefl(mst', e.src);
    LinkedStep(mst', e.src, e.src, e.dst);
  }

  /** Skipping sorted edge `i`, whose ends were already linked. */
  lemma SkipStep(mst: seq<Edge>, sorted: seq<Edge>, i: nat)
    requires i < |sorted| && PassInv(mst, sorted, i) && Linked(mst, sorted[i].src, sorted[i].dst)
    ensures PassInv(mst, sorted, i + 1)
  {
    assert sorted[..i + 1] == sorted[..i] + [sorted[i]];
    SubseqSkip(mst, sorted[..i], sorted[i]);
  }

  /** One turn of the pass over sorted edge `i`, kept or skipped. */
  lemma Advance(mst: seq<Edge>, sorted: seq<Edge>, i: nat, keep: bool)
    requires i < |sorted| && CostSorted(sorted) && PassInv(mst, sorted, i) && CheapInv(mst, sorted, i)
    requires keep <==> !Linked(mst, sorted[i].src, sorted[i].dst)
    ensures PassInv(if keep then mst + [sorted[i]] else mst, sorted, i + 1)
    ensures CheapInv(if keep then mst + [sorted[i]] else mst, sorted, i + 1)
  {
    if keep {
      KeepStep(mst, sorted, i);
      KeepCheap(mst, sorted, i);
    } else {
      SkipStep(mst, sorted, i);
      KeptNoDearer(mst, sorted, i);
      SkipCheap(mst, sorted, i);
    }
  }

  /** The facts about the finished pass, in terms of the graph. */
  lemma PassDone<V>(g: Graph<V>, keys: seq<nat>, mst: seq<Edge>)
    requires KeyOrder(g, keys) && EndsInRange(g)
    requires PassInv(mst, SortByCost(Flatten(g, keys)), |SortByCost(Flatten(g, keys))|)
    ensures IsSubseq(mst, SortByCost(Flatten(g, keys))) && CostSorted(mst)
    ensures forall e :: e in mst ==> exists u :: u in g.edges && e in g.edges[u]
    ensures forall u, i :: u in g.edges && 0 <= i < |g.edges[u]| ==> Linked(mst, g.edges[u][i].src, g.edges[u][i].dst)
  {
    var all := Flatten(g, keys);
    var sorted := SortByCost(all);
    assert sorted[..|sorted|] == sorted;
    SortSorted(all);
    SubseqOfSorted(mst, sorted);
    forall e | e in mst ensures exists u :: u in g.edges && e in g.edges[u] {
      assert e in multiset(all);
      CollectedInRange(g, keys, e);
    }
    forall u, i | u in g.edges && 0 <= i < |g.edges[u]|
      ensures Linked(mst, g.edges[u][i].src, g.edges[u][i].dst)
    {
      var e := g.edges[u][i];
      var j :| 0 <= j < |keys| && keys[j] == u;
      FlattenHas(g, keys, e);
      assert e in multiset(sorted);
      var k :| 0 <= k < |sorted| && sorted[k] == e;
    }
  }

  /** The cycle condition of the finished pass, in terms of the graph. */
  lemma CheapDone<V>(g: Graph<V>, keys: seq<nat>, mst: seq<Edge>)
    requires KeyOrder(g, keys)
    requires CheapInv(mst, SortByCost(Flatten(g, keys)), |SortByCost(Flatten(g, keys))|)
    ensures forall u, i :: u in g.edges && 0 <= i < |g.edges[u]| ==>
              Linked(Cheap(mst, g.edges[u][i].cost), g.edges[u][i].src, g.edges[u][i].dst)
  {
    var all := Flatten(g, keys);
    var sorted := SortByCost(all);
    forall u, i | u in g.edges && 0 <= i < |g.edges[u]|
      ensures Linked(Cheap(mst, g.edges[u][i].cost), g.edges[u][i].src, g.edges[u][i].dst)
    {
      var e := g.edges[u][i];
      var j :| 0 <= j < |keys| && keys[j] == u;
      FlattenHas(g, keys, e);
      assert e in multiset(sorted);
      var k :| 0 <= k < |sorted| && sorted[k] == e;
    }
  }

  /** `kruskal`.  The kept edges are a subsequence of the sorted edges, so
      in non-decreasing cost order and stored edges of the graph; none closes
      a cycle; every stored edge ends up with its two ends linked by kept
      edges that cost no more than it (the cycle condition of a minimum
      spanning forest); and there are at most `n - 1` of them. */
  method Kruskal<V>(g: Graph<V>, keys: seq<nat>) returns (mst: seq<Edge>)
    requires KeyOrder(g, keys) && EndsInRange(g)
    ensures IsSubseq(mst, SortByCost(Flatten(g, keys)))
    ensures CostSorted(mst)
    ensures forall e :: e in mst ==> exists u :: u in g.edges && e in g.edges[u]
    ensures Acyclic(mst)
    ensures forall u, i :: u in g.edges && 0 <= i < |g.edges[u]| ==> Linked(mst, g.edges[u][i].src, g.edges[u][i].dst)
    ensures forall u, i :: u in g.edges && 0 <= i < |g.edges[u]| ==>
              Linked(Cheap(mst, g.edges[u][i].cost), g.edges[u][i].src, g.edges[u][i].dst)
    ensures |mst| == 0 || |mst| < |g.nodes|
    ensures |g.nodes| == 0 ==> mst == []
  {
    var ds := new DisjointSet(|g.nodes|);
    FreshTracks(|g.nodes|);
    FreshRoots(|g.nodes|);
    var all := Flatten(g, keys);
    var sorted := SortByCost(all);
    SortSorted(all);
    forall e | e in sorted ensures e.src < |g.nodes| && e.dst < |g.nodes| {
      assert e in multiset(all);
      CollectedInRange(g, keys, e);
    }
    mst := Pass(ds, sorted);
    PassDone(g, keys, mst);
    CheapDone(g, keys, mst);
    RootsBound(ds.parent);
    if |g.nodes| > 0 {
      RootExists(ds.parent, ds.rank);
    }
  }

  /** The `for edge in all_edges` loop of `kruskal`, over a fresh forest. */
  method Pass(ds: DisjointSet, sorted: seq<Edge>) returns (mst: seq<Edge>)
    requires ds.Valid() && Tracks(ds.parent, ds.rank, []) && |Roots(ds.parent)| == |ds.parent|
    requires CostSorted(sorted)
    requires forall e :: e in sorted ==> e.src < |ds.parent| && e.dst < |ds.parent|
    modifies ds
    ensures ds.Valid() && |ds.parent| == old(|ds.parent|)
    ensures PassInv(mst, sorted, |sorted|) && CheapInv(mst, sorted, |sorted|)
    ensures |mst| + |Roots(ds.parent)| == |ds.parent|
  {
    var i := 0;
    mst := [];
    while i < |sorted|
      invariant 0 <= i <= |sorted| && ds.Valid() && |ds.parent| == old(|ds.parent|)
      invariant Tracks(ds.parent, ds.rank, mst) && PassInv(mst, sorted, i) && CheapInv(mst, sorted, i)
      invariant |mst| + |Roots(ds.parent)| == |ds.parent|
    {
      var e := sorted[i];
      ghost var mst0 := mst;
      var joined;
      mst, joined := Consider(ds, mst, e);
      Advance(mst0, sorted, i, joined);
      i := i + 1;
    }
  }

  // ----- What the cycle condition forces -----

  /** No edge of `es` has exactly one end in `S`. */
  ghost predicate Respects(es: seq<Edge>, S: set<nat>)
  {
    forall k :: 0 <= k < |es| ==> (es[k].src in S <==> es[k].dst in S)
  }

  /** A path over edges that respect `S` never leaves `S`. */
  lemma {:induction false} StaysInside(es: seq<Edge>, ns: seq<nat>, x: nat, y: nat, S: set<nat>)
    requires Connects(es, ns, x, y) && Respects(es, S) && x in S
    ensures y in S
    decreases |ns|
  {
    if |ns| > 1 {
      var p := ns[..|ns| - 1];
      assert forall i :: 0 <= i < |p| ==> p[i] == ns[i];
      assert Connects(es, p, x, p[|p| - 1]);
      StaysInside(es, p, x, p[|p| - 1], S);
      assert Adjacent(es, ns[|ns| - 2], y);
    }
  }

  /** The stored edge `g.edges[u][i]` leaves `S`, and every other stored edge
      that costs no more than it has both ends on one side of `S`. */
  ghost predicate LoneCrossing<V>(g: Graph<V>, u: nat, i: nat, S: set<nat>)
  {
    && u in g.edges && i < |g.edges[u]|
    && g.edges[u][i].src in S && g.edges[u][i].dst !in S
    && forall w, j :: w in g.edges && 0 <= j < |g.edges[w]| && g.edges[w][j] != g.edges[u][i]
                      && g.edges[w][j].cost <= g.edges[u][i].cost ==>
                        (g.edges[w][j].src in S <==> g.edges[w][j].dst in S)
  }

  /** The cut rule read off the cycle condition: a stored edge that is the
      only one of its cost or less to leave some node set is kept. */
  lemma Forced<V>(g: Graph<V>, mst: seq<Edge>, u: nat, i: nat, S: set<nat>)
    requires LoneCrossing(g, u, i, S)
    requires forall e :: e in mst ==> exists w :: w in g.edges && e in g.edges[w]
    requires Linked(Cheap(mst, g.edges[u][i].cost), g.edges[u][i].src, g.edges[u][i].dst)
    ensures g.edges[u][i] in mst
  {
    var e := g.edges[u][i];
    if e !in mst {
      var es := Cheap(mst, e.cost);
      forall k | 0 <= k < |es| ensures es[k].src in S <==> es[k].dst in S {
        CheapFrom(mst, e.cost, es[k]);
        var w :| w in g.edges && es[k] in g.edges[w];
        var j :| 0 <= j < |g.edges[w]| && g.edges[w][j] == es[k];
      }
      var ns :| Connects(es, ns, e.src, e.dst);
      StaysInside(es, ns, e.src, e.dst, S);
    }
  }

  /** Taking the edge at `k` out of a list. */
  lemma RemoveAt(a: seq<Edge>, k: nat)
    requires k < |a|
    ensures multiset(a) == multiset(a[..k] + a[k + 1..]) + multiset{a[k]}
    ensures Cost(a) == Cost(a[..k] + a[k + 1..]) + a[k].cost
  {
    RemoveCount(a, k);
    RemoveCost(a, k);
  }

  lemma RemoveCount(a: seq<Edge>, k: nat)
    requires k < |a|
    ensures multiset(a) == multiset(a[..k] + a[k + 1..]) + multiset{a[k]}
  {
    var p, q := a[..k], a[k + 1..];
    assert a == p + ([a[k]] + q);
    assert multiset(a) == multiset(p) + multiset([a[k]] + q);
    assert multiset([a[k]] + q) == multiset{a[k]} + multiset(q);
    assert multiset(p + q) == multiset(p) + multiset(q);
  }

  lemma RemoveCost(a: seq<Edge>, k: nat)
    requires k < |a|
    ensures Cost(a) == Cost(a[..k] + a[k + 1..]) + a[k].cost
  {
    var a' := a[..k] + a[k + 1..];
    var r := a[k..];
    CostSplit(a, k);
    CostSplit(r, 1);
    assert r[..1] == [a[k]] && r[1..] == a[k + 1..];
    CostAppend([], a[k]);
    assert [] + [a[k]] == [a[k]];
    CostSplit(a', k);
    assert a'[..k] == a[..k] && a'[k..] == a[k + 1..];
  }

  /** A list no longer than a duplicate-free list it contains is a
      rearrangement of it. */
  lemma {:induction false} Fill(s: seq<Edge>, t: seq<Edge>)
    requires forall i, j :: 0 <= i < j < |t| ==> t[i] != t[j]
    requires forall x :: x in t ==> x in s
    requires |s| <= |t|
    ensures multiset(s) == multiset(t)
    decreases |t|
  {
    if t == [] {
      assert s == [];
    } else {
      var x := t[|t| - 1];
      var t' := t[..|t| - 1];
      assert x in t;
      var k :| 0 <= k < |s| && s[k] == x;
      var s' := s[..k] + s[k + 1..];
      RemoveAt(s, k);
      assert t == t' + [x];
      forall y | y in t' ensures y in s' {
        var i :| 0 <= i < |t'| && t'[i] == y;
        assert t[i] == y;
        assert y != x;
        assert y in s;
        var m :| 0 <= m < |s| && s[m] == y;
        if m < k {
          assert s'[m] == y;
        } else {
          assert s'[m - 1] == y;
        }
      }
      Fill(s', t');
    }
  }

  /** Rearranging a list of edges keeps its total cost. */
  lemma {:induction false} CostPerm(a: seq<Edge>, b: seq<Edge>)
    requires multiset(a) == multiset(b)
    ensures Cost(a) == Cost(b)
    decreases |b|
  {
    if b == [] {
      assert a == [];
    } else {
      var x := b[|b| - 1];
      var b' := b[..|b| - 1];
      assert b == b' + [x];
      assert x in multiset(a);
      var k :| 0 <= k < |a| && a[k] == x;
      RemoveAt(a, k);
      assert multiset(b) == multiset(b') + multiset{x};
      assert multiset(a[..k] + a[k + 1..]) == multiset(b') by {
        assert multiset(a[..k] + a[k + 1..]) == multiset(a) - multiset{x};
      }
      CostPerm(a[..k] + a[k + 1..], b');
      CostAppend(b', x);
    }
  }
}
