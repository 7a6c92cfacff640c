/** Minimum spanning forests, for the results of `kruskal`
    (src/graph/kruskal.rs) and `prim` (src/graph/prim.rs).

    Both results meet the cycle condition: the two ends of every candidate
    edge are linked by kept edges that cost no more than it.  An acyclic list
    of candidate edges that meets it is a minimum spanning forest of the
    candidates: every spanning forest of them has as many edges and costs no
    less.  The proof counts, for each bound `c`, the edges of cost at most
    `c`.  A forest over `n` nodes with `k` edges has `n - k` components
    (`ForestRoots`, by running the union-find forest over it); the cycle
    condition makes the result's cheap edges link whatever any other
    forest's cheap edges link, so the result has at least as many edges of
    cost at most `c` (`CheapCounts`); and summing these counts over `c`
    gives the costs (`CostByCounts`). */
module MinimumSpanning {
  import opened Graphs
  import opened UnionFind
  import opened Kruskal
  import Prim

  // ----- Moving paths between edge lists -----

  /** `b` links the two ends of every edge of `a`. */
  ghost predicate LinkedIn(a: seq<Edge>, b: seq<Edge>)
  {
    forall k :: 0 <= k < |a| ==> Linked(b, a[k].src, a[k].dst)
  }

  lemma {:induction false} LinkedThrough(a: seq<Edge>, b: seq<Edge>, ns: seq<nat>, x: nat, y: nat)
    requires LinkedIn(a, b) && Connects(a, ns, x, y)
    ensures Linked(b, x, y)
    decreases |ns|
  {
    if |ns| == 1 {
      LinkedRefl(b, x);
    } else {
      var m := |ns| - 1;
      var p := ns[..m];
      assert Connects(a, p, x, ns[m - 1]) by {
        forall i | 0 <= i < |p| - 1 ensures Adjacent(a, p[i], p[i + 1]) {
          assert p[i] == ns[i] && p[i + 1] == ns[i + 1];
        }
      }
      LinkedThrough(a, b, p, x, ns[m - 1]);
      assert Adjacent(a, ns[m - 1], ns[m]);
      var k :| 0 <= k < |a| && Joins(a[k], ns[m - 1], ns[m]);
      if a[k].src != ns[m - 1] {
        LinkedSym(b, a[k].src, a[k].dst);
      }
      LinkedTrans(b, x, ns[m - 1], y);
    }
  }

  /** What `a` links, `b` links too, when `b` links the ends of each edge of `a`. */
  lemma LinkedCarry(a: seq<Edge>, b: seq<Edge>, x: nat, y: nat)
    requires LinkedIn(a, b) && Linked(a, x, y)
    ensures Linked(b, x, y)
  {
    var ns :| Connects(a, ns, x, y);
    LinkedThrough(a, b, ns, x, y);
  }

  /** A list links the two ends of each of its edges. */
  lemma LinksOwn(b: seq<Edge>, e: Edge)
    requires e in b
    ensures Linked(b, e.src, e.dst)
  {
    var k :| 0 <= k < |b| && b[k] == e;
    assert Joins(b[k], e.src, e.dst);
    LinkedRefl(b, e.src);
    LinkedStep(b, e.src, e.src, e.dst);
  }

  /** More edges link more pairs. */
  lemma LinkedSub(a: seq<Edge>, b: seq<Edge>, x: nat, y: nat)
    requires (forall e :: e in a ==> e in b) && Linked(a, x, y)
    ensures Linked(b, x, y)
  {
    forall k | 0 <= k < |a| ensures Linked(b, a[k].src, a[k].dst) {
      LinksOwn(b, a[k]);
    }
    LinkedCarry(a, b, x, y);
  }

  // ----- Cheap edges -----

  /** An edge of `es` that costs at most `c` is one of its cheap edges. */
  lemma {:induction false} CheapHas(es: seq<Edge>, c: nat, x: Edge)
    requires x in es && x.cost <= c
    ensures x in Cheap(es, c)
    decreases |es|
  {
    var t := es[..|es| - 1];
    assert es == t + [es[|es| - 1]];
    if x != es[|es| - 1] {
      assert x in t;
      CheapHas(t, c, x);
    }
  }

  /** The cheap edges of a list are edges of it. */
  lemma CheapIn(es: seq<Edge>, c: nat)
    ensures forall e :: e in Cheap(es, c) ==> e in es
  {
    forall e | e in Cheap(es, c) ensures e in es {
      CheapFrom(es, c, e);
    }
  }

  /** A higher bound keeps every cheap edge. */
  lemma CheapMono(es: seq<Edge>, c: nat, d: nat)
    requires c <= d
    ensures forall e :: e in Cheap(es, c) ==> e in Cheap(es, d)
  {
    forall e | e in Cheap(es, c) ensures e in Cheap(es, d) {
      CheapFrom(es, c, e);
      CheapHas(es, d, e);
    }
  }

  // ----- Forests -----

  /** A prefix of a forest is a forest. */
  lemma AcyclicPrefix(es: seq<Edge>, m: nat)
    requires Acyclic(es) && m <= |es|
    ensures Acyclic(es[..m])
  {
    var t := es[..m];
    forall k | 0 <= k < |t| ensures !Linked(t[..k], t[k].src, t[k].dst) {
      assert t[..k] == es[..k] && t[k] == es[k];
    }
  }

  /** The cheap edges of a forest form a forest. */
  lemma {:induction false} CheapAcyclic(es: seq<Edge>, c: nat)
    requires Acyclic(es)
    ensures Acyclic(Cheap(es, c))
    decreases |es|
  {
    if es != [] {
      var t := es[..|es| - 1];
      var e := es[|es| - 1];
      AcyclicPrefix(es, |t|);
      CheapAcyclic(t, c);
      assert Cheap(es, c) == Cheap(t, c) + (if e.cost <= c then [e] else []);
      if e.cost <= c {
        assert !Linked(t, e.src, e.dst);
        if Linked(Cheap(t, c), e.src, e.dst) {
          CheapIn(t, c);
          LinkedSub(Cheap(t, c), t, e.src, e.dst);
        }
        AcyclicAppend(Cheap(t, c), e);
        assert Cheap(es, c) == Cheap(t, c) + [e];
      } else {
        assert Cheap(es, c) == Cheap(t, c);
      }
    }
  }

  /** Both ends of every edge are below `n`. */
  ghost predicate EndsBelow(es: seq<Edge>, n: nat)
  {
    forall k :: 0 <= k < |es| ==> es[k].src < n && es[k].dst < n
  }

  /** A bound on the ends of a list of edges. */
  function EndBound(es: seq<Edge>): (n: nat)
    ensures EndsBelow(es, n)
  {
    if es == [] then 0
    else
      var t := es[..|es| - 1];
      var m := EndBound(t);
      assert forall k :: 0 <= k < |t| ==> es[k] == t[k];
      var e := es[|es| - 1];
      if e.src >= m || e.dst >= m then (if e.src > e.dst then e.src else e.dst) + 1 + m else m
  }

  /** A bound on the costs of a list of edges. */
  function CostBound(es: seq<Edge>): (m: nat)
    ensures forall k :: 0 <= k < |es| ==> es[k].cost <= m
  {
    if es == [] then 0
    else
      var t := es[..|es| - 1];
      var m := CostBound(t);
      assert forall k :: 0 <= k < |t| ==> es[k] == t[k];
      if es[|es| - 1].cost > m then es[|es| - 1].cost else m
  }

  /** Running the union-find forest over a forest of `n` nodes: it tracks the
      forest, and each edge removes one root, so the forest has
      `n - |es|` components. */
  lemma {:induction false} ForestRoots(es: seq<Edge>, n: nat) returns (parent: seq<nat>, rank: seq<nat>)
    requires Acyclic(es) && EndsBelow(es, n)
    ensures |parent| == n && Tracks(parent, rank, es)
    ensures |Roots(parent)| + |es| == n
    decreases |es|
  {
    if es == [] {
      parent, rank := Identity(n), Zeros(n);
      FreshTracks(n);
      FreshRoots(n);
    } else {
      var t := es[..|es| - 1];
      var e := es[|es| - 1];
      assert es == t + [e];
      AcyclicPrefix(es, |t|);
      var p, k := ForestRoots(t, n);
      assert !Linked(t, e.src, e.dst);
      UnionTracks(p, k, t, e);
      UnionRoots(p, k, e.src, e.dst);
      parent, rank := UnionSeq(p, k, e.src, e.dst).0, UnionSeq(p, k, e.src, e.dst).1;
      var l := Loser(k, Root(p, k, e.src), Root(p, k, e.dst));
      assert l in Roots(p);
    }
  }

  /** No two nodes of `X` share a root. */
  ghost predicate Separate(parent: seq<nat>, rank: seq<nat>, X: set<nat>)
    requires WellFormed(parent, rank) && forall x :: x in X ==> x < |parent|
  {
    forall x, y :: x in X && y in X && Root(parent, rank, x) == Root(parent, rank, y) ==> x == y
  }

  /** Nodes of `X` that share no root, all with roots in `Y`: `Y` is no
      smaller than `X`. */
  lemma {:induction false} InjectBound(parent: seq<nat>, rank: seq<nat>, X: set<nat>, Y: set<nat>)
    requires WellFormed(parent, rank) && (forall x :: x in X ==> x < |parent|) && Separate(parent, rank, X)
    requires forall x :: x in X ==> Root(parent, rank, x) in Y
    ensures |X| <= |Y|
    decreases |X|
  {
    if X != {} {
      var x :| x in X;
      var X', Y' := X - {x}, Y - {Root(parent, rank, x)};
      assert Separate(parent, rank, X');
      InjectBound(parent, rank, X', Y');
    }
  }

  /** The roots of `b` lie in distinct trees of `a` when `b` links whatever
      `a` links. */
  lemma RootsSeparate(pa: seq<nat>, ka: seq<nat>, a: seq<Edge>, pb: seq<nat>, kb: seq<nat>, b: seq<Edge>)
    requires Tracks(pa, ka, a) && Tracks(pb, kb, b) && |pa| == |pb|
    requires forall x, y :: 0 <= x < |pa| && 0 <= y < |pa| && Linked(a, x, y) ==> Linked(b, x, y)
    ensures Separate(pa, ka, Roots(pb))
  {
    forall x, y | x in Roots(pb) && y in Roots(pb) && Root(pa, ka, x) == Root(pa, ka, y) ensures x == y {
      assert Linked(a, x, y);
      assert Root(pb, kb, x) == x && Root(pb, kb, y) == y;
    }
  }

  /** `b` has at most as many roots as `a` when `b` links whatever `a` links. */
  lemma FewerRoots(pa: seq<nat>, ka: seq<nat>, a: seq<Edge>, pb: seq<nat>, kb: seq<nat>, b: seq<Edge>)
    requires Tracks(pa, ka, a) && Tracks(pb, kb, b) && |pa| == |pb|
    requires forall x, y :: 0 <= x < |pa| && 0 <= y < |pa| && Linked(a, x, y) ==> Linked(b, x, y)
    ensures |Roots(pb)| <= |Roots(pa)|
  {
    RootsSeparate(pa, ka, a, pb, kb, b);
    InjectBound(pa, ka, Roots(pb), Roots(pa));
  }

  /** A forest `a` whose edges have their ends linked by a forest `b` has no
      more edges than `b`. */
  lemma RankBound(a: seq<Edge>, b: seq<Edge>, n: nat)
    requires Acyclic(a) && Acyclic(b) && LinkedIn(a, b)
    requires EndsBelow(a, n) && EndsBelow(b, n)
    ensures |a| <= |b|
  {
    var pa, ka := ForestRoots(a, n);
    var pb, kb := ForestRoots(b, n);
    forall x, y | 0 <= x < n && 0 <= y < n && Linked(a, x, y) ensures Linked(b, x, y) {
      LinkedCarry(a, b, x, y);
    }
    FewerRoots(pa, ka, a, pb, kb, b);
  }

  // ----- Costs as sums of counts -----

  /** `|Cheap(es, 0)| + … + |Cheap(es, m - 1)|`. */
  function CountSum(es: seq<Edge>, m: nat): nat
  {
    if m == 0 then 0 else CountSum(es, m - 1) + |Cheap(es, m - 1)|
  }

  /** An extra edge of cost `x` is counted once for each bound in `[x, m)`. */
  lemma {:induction false} CountSumSnoc(es: seq<Edge>, e: Edge, m: nat)
    ensures CountSum(es + [e], m) == CountSum(es, m) + (if e.cost < m then m - e.cost else 0)
    decreases m
  {
    if m > 0 {
      CountSumSnoc(es, e, m - 1);
      CheapSnoc(es, e, m - 1);
    }
  }

  lemma {:induction false} CountSumEmpty(m: nat)
    ensures CountSum([], m) == 0
  {
    if m > 0 {
      CountSumEmpty(m - 1);
    }
  }

  /** With every cost at most `m`, the cost of a list and its counts below
      `m` add up to `m` per edge. */
  lemma {:induction false} CostByCounts(es: seq<Edge>, m: nat)
    requires forall k :: 0 <= k < |es| ==> es[k].cost <= m
    ensures Cost(es) + CountSum(es, m) == m * |es|
    decreases |es|
  {
    if es == [] {
      CountSumEmpty(m);
    } else {
      var t := es[..|es| - 1];
      var e := es[|es| - 1];
      assert es == t + [e];
      assert forall k :: 0 <= k < |t| ==> t[k] == es[k];
      CostByCounts(t, m);
      CountSumSnoc(t, e, m);
      CostAppend(t, e);
      MulSucc(m, |t|);
    }
  }

  lemma MulSucc(m: nat, k: nat)
    ensures m * (k + 1) == m * k + m
  {
  }

  /** Smaller counts at every bound give a smaller sum. */
  lemma {:induction false} CountSumLe(a: seq<Edge>, b: seq<Edge>, m: nat)
    requires forall c :: 0 <= c < m ==> |Cheap(a, c)| <= |Cheap(b, c)|
    ensures CountSum(a, m) <= CountSum(b, m)
    decreases m
  {
    if m > 0 {
      CountSumLe(a, b, m - 1);
    }
  }

  /** Of two lists of equal length, the one with at least as many edges of
      cost at most `c`, for every `c`, costs no more. */
  lemma CostByCountsLe(t: seq<Edge>, f: seq<Edge>)
    requires |t| == |f|
    requires forall c: nat :: |Cheap(f, c)| <= |Cheap(t, c)|
    ensures Cost(t) <= Cost(f)
  {
    var m := CostBound(t) + CostBound(f);
    CountSumLe(f, t, m);
    CostByCounts(t, m);
    CostByCounts(f, m);
  }

  // ----- The cycle condition -----

  /** Every edge of `F` is a candidate. */
  ghost predicate Within(F: seq<Edge>, E: set<Edge>)
  {
    forall e :: e in F ==> e in E
  }

  /** `F` links the two ends of every candidate. */
  ghost predicate Spans(F: seq<Edge>, E: set<Edge>)
  {
    forall e :: e in E ==> Linked(F, e.src, e.dst)
  }

  /** A spanning forest of the candidates `E`. */
  ghost predicate SpanningForest(E: set<Edge>, F: seq<Edge>)
  {
    Within(F, E) && Acyclic(F) && Spans(F, E)
  }

  /** The two ends of every candidate are linked by edges of `T` that cost no
      more than it. */
  ghost predicate CycleCondition(E: set<Edge>, T: seq<Edge>)
  {
    forall e :: e in E ==> Linked(Cheap(T, e.cost), e.src, e.dst)
  }

  /** For every bound `c`, a forest of candidates has no more edges of cost
      at most `c` than a forest that meets the cycle condition. */
  lemma CheapCounts(E: set<Edge>, T: seq<Edge>, F: seq<Edge>, c: nat)
    requires Within(T, E) && Acyclic(T) && CycleCondition(E, T)
    requires Within(F, E) && Acyclic(F)
    ensures |Cheap(F, c)| <= |Cheap(T, c)|
  {
    var a, b := Cheap(F, c), Cheap(T, c);
    CheapAcyclic(F, c);
    CheapAcyclic(T, c);
    CheapIn(F, c);
    CheapIn(T, c);
    forall k | 0 <= k < |a| ensures Linked(b, a[k].src, a[k].dst) {
      var f := a[k];
      CheapFrom(F, c, f);
      CheapMono(T, f.cost, c);
      LinkedSub(Cheap(T, f.cost), b, f.src, f.dst);
    }
    var n := EndBound(T) + EndBound(F);
    forall k | 0 <= k < |a| ensures a[k].src < n && a[k].dst < n {
      var j :| 0 <= j < |F| && F[j] == a[k];
    }
    forall k | 0 <= k < |b| ensures b[k].src < n && b[k].dst < n {
      var j :| 0 <= j < |T| && T[j] == b[k];
    }
    RankBound(a, b, n);
  }

  /** A forest of candidates that meets the cycle condition is a largest
      forest of candidates, and the cheapest among those of its size. */
  lemma CheapestForest(E: set<Edge>, T: seq<Edge>, F: seq<Edge>)
    requires Within(T, E) && Acyclic(T) && CycleCondition(E, T)
    requires Within(F, E) && Acyclic(F)
    ensures |F| <= |T|
    ensures |F| == |T| ==> Cost(T) <= Cost(F)
  {
    var m := CostBound(T) + CostBound(F);
    CheapAll(T, m);
    CheapAll(F, m);
    CheapCounts(E, T, F, m);
    forall c: nat ensures |Cheap(F, c)| <= |Cheap(T, c)| {
      CheapCounts(E, T, F, c);
    }
    if |F| == |T| {
      CostByCountsLe(T, F);
    }
  }

  /** A list meeting the cycle condition links the ends of every candidate. */
  lemma CycleSpans(E: set<Edge>, T: seq<Edge>)
    requires CycleCondition(E, T)
    ensures Spans(T, E)
  {
    forall e | e in E ensures Linked(T, e.src, e.dst) {
      CheapIn(T, e.cost);
      LinkedSub(Cheap(T, e.cost), T, e.src, e.dst);
    }
  }

  /** The cycle condition makes a forest of candidates a minimum spanning
      forest: it spans the candidates, and every spanning forest of them has
      as many edges and costs no less. */
  lemma MinimumForest(E: set<Edge>, T: seq<Edge>, F: seq<Edge>)
    requires Within(T, E) && Acyclic(T) && CycleCondition(E, T)
    requires SpanningForest(E, F)
    ensures SpanningForest(E, T)
    ensures |F| == |T| && Cost(T) <= Cost(F)
  {
    CycleSpans(E, T);
    forall k | 0 <= k < |T| ensures Linked(F, T[k].src, T[k].dst) {
      assert T[k] in E;
    }
    RankBound(T, F, EndBound(T) + EndBound(F));
    CheapestForest(E, T, F);
  }

  // ----- kruskal -----

  /** The stored edges of the graph. */
  ghost function Stored<V>(g: Graph<V>): set<Edge>
  {
    set u, i | u in g.edges && 0 <= i < |g.edges[u]| :: g.edges[u][i]
  }

  /** A result meeting `kruskal`'s contract (stored edges only, no cycle,
      the cycle condition on every stored edge) is a minimum spanning forest
      of the stored edges: every spanning forest of them has as many edges
      and costs no less. */
  lemma KruskalMinimum<V>(g: Graph<V>, mst: seq<Edge>, F: seq<Edge>)
    requires forall e :: e in mst ==> exists u :: u in g.edges && e in g.edges[u]
    requires Acyclic(mst)
    requires forall u, i :: u in g.edges && 0 <= i < |g.edges[u]| ==>
               Linked(Cheap(mst, g.edges[u][i].cost), g.edges[u][i].src, g.edges[u][i].dst)
    requires SpanningForest(Stored(g), F)
    ensures SpanningForest(Stored(g), mst)
    ensures |F| == |mst| && Cost(mst) <= Cost(F)
  {
    KruskalCycle(g, mst);
    MinimumForest(Stored(g), mst, F);
  }

  /** `kruskal`'s contract, read on the set of stored edges. */
  lemma KruskalCycle<V>(g: Graph<V>, mst: seq<Edge>)
    requires forall e :: e in mst ==> exists u :: u in g.edges && e in g.edges[u]
    requires forall u, i :: u in g.edges && 0 <= i < |g.edges[u]| ==>
               Linked(Cheap(mst, g.edges[u][i].cost), g.edges[u][i].src, g.edges[u][i].dst)
    ensures Within(mst, Stored(g)) && CycleCondition(Stored(g), mst)
  {
    forall e | e in mst ensures e in Stored(g) {
      var u :| u in g.edges && e in g.edges[u];
      var i :| 0 <= i < |g.edges[u]| && g.edges[u][i] == e;
    }
  }

  // ----- prim -----

  /** The stored edges with both ends in `s`. */
  ghost function Inside<V>(g: Graph<V>, s: set<nat>): set<Edge>
  {
    set e | e in Stored(g) && e.src in s && e.dst in s
  }

  /** A list holding exactly the elements of a finite set. */
  lemma {:induction false} SeqOfSet(E: set<Edge>) returns (l: seq<Edge>)
    ensures forall e :: e in l <==> e in E
    decreases |E|
  {
    if E == {} {
      l := [];
    } else {
      var e :| e in E;
      var l' := SeqOfSet(E - {e});
      l := l' + [e];
    }
  }

  /** `all` lists the stored edges. */
  ghost predicate Lists<V>(g: Graph<V>, all: seq<Edge>)
  {
    forall e :: e in all <==> e in Stored(g)
  }

  /** The cut invariant after the first `k` kept edges: two seen nodes
      joined by stored edges of cost at most `c`, through any nodes, are
      linked by kept edges of cost at most `c`. */
  ghost predicate CutInv(all: seq<Edge>, mst: seq<Edge>, k: nat)
    requires k <= |mst|
  {
    forall c: nat, x: nat, y: nat ::
      x in Prim.Seen(mst[..k]) && y in Prim.Seen(mst[..k]) && Linked(Cheap(all, c), x, y) ==>
        Linked(Cheap(mst[..k], c), x, y)
  }

  /** Keeping edge `k` adds its end to the seen nodes. */
  lemma SeenStep(mst: seq<Edge>, k: nat)
    requires k < |mst|
    ensures mst[..k + 1] == mst[..k] + [mst[k]]
    ensures Prim.Seen(mst[..k + 1]) == Prim.Seen(mst[..k]) + {mst[k].dst}
  {
    assert mst[..k + 1] == mst[..k] + [mst[k]];
    Prim.EndsAppend(mst[..k], mst[k]);
  }

  /** The seen nodes only grow. */
  lemma SeenGrows(mst: seq<Edge>, j: nat, k: nat)
    requires j <= k <= |mst|
    ensures Prim.Seen(mst[..j]) <= Prim.Seen(mst[..k])
  {
    forall v | v in Prim.Ends(mst[..j]) ensures v in Prim.Ends(mst[..k]) {
      var i :| 0 <= i < j && mst[..j][i].dst == v;
      assert mst[..k][i] == mst[i];
    }
  }

  /** What `prim`'s contract says of its `k`-th kept edge, on a graph built
      by `add_edge`: it is stored, leaves a seen node for an unseen one, and
      pops no later than every edge leaving the seen nodes. */
  lemma KeptFacts<V>(g: Graph<V>, mst: seq<Edge>, k: nat)
    requires WellKeyed(g) && Prim.GreedyTree(g, mst) && k < |mst|
    ensures mst[k] in Stored(g)
    ensures mst[k].src in Prim.Seen(mst[..k]) && mst[k].dst !in Prim.Seen(mst[..k])
    ensures Prim.Cheapest(g, Prim.Seen(mst[..k]), mst[k])
  {
    assert Prim.Earlier(g, mst, k);
    Prim.KeyedEarlier(g, mst, k);
    var x :| mst[k] in Edges(g, x) && (x == 0 || x in Prim.Ends(mst[..k]));
    var i :| 0 <= i < |Edges(g, x)| && Edges(g, x)[i] == mst[k];
    assert x in g.edges;
  }

  /** A path of stored edges of cost at most `c` from a seen node to an
      unseen one leaves the seen nodes along one of them, so the least edge
      leaving the seen nodes costs at most `c`. */
  lemma CrossingCost<V>(g: Graph<V>, all: seq<Edge>, s: set<nat>, f: Edge, c: nat, x: nat, v: nat)
    requires WellKeyed(g) && Prim.Symmetric(g) && Lists(g, all)
    requires Prim.Cheapest(g, s, f)
    requires x in s && v !in s && Linked(Cheap(all, c), x, v)
    ensures f.cost <= c
  {
    var es := Cheap(all, c);
    var ns :| Connects(es, ns, x, v);
    if Respects(es, s) {
      StaysInside(es, ns, x, v, s);
    }
    var j :| 0 <= j < |es| && !(es[j].src in s <==> es[j].dst in s);
    var e := es[j];
    CheapFrom(all, c, e);
    var u, i :| u in g.edges && 0 <= i < |g.edges[u]| && g.edges[u][i] == e;
    if e.src in s {
      assert Prim.Crossing(g, s, u, i);
    } else {
      assert i < |Edges(g, u)|;
      var r := Edge(e.dst, u, e.cost);
      var i2 :| 0 <= i2 < |Edges(g, e.dst)| && Edges(g, e.dst)[i2] == r;
      assert Prim.Crossing(g, s, e.dst, i2);
    }
  }

  /** A seen node joined to the new node by cheap stored edges is linked to
      it by cheap kept edges once edge `k` is kept. */
  lemma ReachNew<V>(g: Graph<V>, all: seq<Edge>, mst: seq<Edge>, k: nat, c: nat, x: nat)
    requires WellKeyed(g) && Prim.Symmetric(g) && Lists(g, all) && Prim.GreedyTree(g, mst)
    requires k < |mst| && CutInv(all, mst, k)
    requires x in Prim.Seen(mst[..k]) && Linked(Cheap(all, c), x, mst[k].dst)
    ensures Linked(Cheap(mst[..k + 1], c), x, mst[k].dst)
  {
    var f, T := mst[k], mst[..k];
    KeptFacts(g, mst, k);
    SeenStep(mst, k);
    CrossingCost(g, all, Prim.Seen(T), f, c, x, f.dst);
    CheapHas(all, c, f);
    var es := Cheap(all, c);
    var j :| 0 <= j < |es| && es[j] == f;
    assert Joins(es[j], f.dst, f.src);
    LinkedStep(es, x, f.dst, f.src);
    var ts := Cheap(T, c);
    assert Linked(ts, x, f.src);
    LinkedGrow(ts, f, x, f.src);
    CheapSnoc(T, f, c);
    assert Joins((ts + [f])[|ts|], f.src, f.dst);
    LinkedStep(ts + [f], x, f.src, f.dst);
  }

  /** One pair of seen nodes after keeping edge `k`. */
  lemma CutPair<V>(g: Graph<V>, all: seq<Edge>, mst: seq<Edge>, k: nat, c: nat, x: nat, y: nat)
    requires WellKeyed(g) && Prim.Symmetric(g) && Lists(g, all) && Prim.GreedyTree(g, mst)
    requires k < |mst| && CutInv(all, mst, k)
    requires x in Prim.Seen(mst[..k + 1]) && y in Prim.Seen(mst[..k + 1]) && Linked(Cheap(all, c), x, y)
    ensures Linked(Cheap(mst[..k + 1], c), x, y)
  {
    var f, T := mst[k], mst[..k];
    var s := Prim.Seen(T);
    SeenStep(mst, k);
    CheapSnoc(T, f, c);
    if x in s && y in s {
      assert Linked(Cheap(T, c), x, y);
      LinkedSub(Cheap(T, c), Cheap(mst[..k + 1], c), x, y);
    } else if x == f.dst && y == f.dst {
      LinkedRefl(Cheap(mst[..k + 1], c), x);
    } else if y == f.dst {
      ReachNew(g, all, mst, k, c, x);
    } else {
      LinkedSym(Cheap(all, c), x, y);
      ReachNew(g, all, mst, k, c, y);
      LinkedSym(Cheap(mst[..k + 1], c), y, x);
    }
  }

  /** The cut invariant holds after every kept edge. */
  lemma {:induction false} CutUpTo<V>(g: Graph<V>, all: seq<Edge>, mst: seq<Edge>, k: nat)
    requires WellKeyed(g) && Prim.Symmetric(g) && Lists(g, all) && Prim.GreedyTree(g, mst)
    requires k <= |mst|
    ensures CutInv(all, mst, k)
    decreases k
  {
    if k == 0 {
      assert Prim.Ends(mst[..0]) == {};
      forall c: nat, x: nat, y: nat | x in Prim.Seen(mst[..0]) && y in Prim.Seen(mst[..0]) && Linked(Cheap(all, c), x, y)
        ensures Linked(Cheap(mst[..0], c), x, y)
      {
        LinkedRefl(Cheap(mst[..0], c), x);
      }
    } else {
      CutUpTo(g, all, mst, k - 1);
      forall c: nat, x: nat, y: nat | x in Prim.Seen(mst[..k]) && y in Prim.Seen(mst[..k]) && Linked(Cheap(all, c), x, y)
        ensures Linked(Cheap(mst[..k], c), x, y)
      {
        CutPair(g, all, mst, k - 1, c, x, y);
      }
    }
  }

  /** The kept edges before edge `k` stay among the nodes seen before it, so
      edge `k`, which leaves them, closes no cycle. */
  lemma KeptOpens<V>(g: Graph<V>, mst: seq<Edge>, k: nat)
    requires WellKeyed(g) && Prim.GreedyTree(g, mst) && k < |mst|
    ensures !Linked(mst[..k], mst[k].src, mst[k].dst)
  {
    var T, s := mst[..k], Prim.Seen(mst[..k]);
    KeptFacts(g, mst, k);
    forall j | 0 <= j < |T| ensures T[j].src in s <==> T[j].dst in s {
      KeptFacts(g, mst, j);
      SeenGrows(mst, j, k);
      assert T[j].dst in Prim.Ends(T);
    }
    if Linked(T, mst[k].src, mst[k].dst) {
      var ns :| Connects(T, ns, mst[k].src, mst[k].dst);
      StaysInside(T, ns, mst[k].src, mst[k].dst, s);
    }
  }

  /** `prim`'s result, on a graph built by its symmetric `add_edge`, is a
      forest of stored edges between seen nodes that meets the cycle
      condition on all of them. */
  lemma PrimCycle<V>(g: Graph<V>, mst: seq<Edge>)
    requires WellKeyed(g) && Prim.Symmetric(g) && Prim.GreedyTree(g, mst)
    ensures Within(mst, Inside(g, Prim.Seen(mst)))
    ensures Acyclic(mst)
    ensures CycleCondition(Inside(g, Prim.Seen(mst)), mst)
  {
    var all := SeqOfSet(Stored(g));
    CutUpTo(g, all, mst, |mst|);
    assert mst[..|mst|] == mst;
    forall e | e in Inside(g, Prim.Seen(mst)) ensures Linked(Cheap(mst, e.cost), e.src, e.dst) {
      CheapHas(all, e.cost, e);
      LinksOwn(Cheap(all, e.cost), e);
    }
    forall k | 0 <= k < |mst| ensures mst[k] in Inside(g, Prim.Seen(mst)) {
      KeptFacts(g, mst, k);
      SeenGrows(mst, k, |mst|);
    }
    forall k | 0 <= k < |mst| ensures !Linked(mst[..k], mst[k].src, mst[k].dst) {
      KeptOpens(g, mst, k);
    }
  }

  /** A result meeting `prim`'s contract, on a graph built by its symmetric
      `add_edge`, is a minimum spanning forest of the stored edges between
      the nodes it reaches: every spanning forest of them has as many edges
      and costs no less. */
  lemma PrimMinimum<V>(g: Graph<V>, mst: seq<Edge>, F: seq<Edge>)
    requires WellKeyed(g) && Prim.Symmetric(g) && Prim.GreedyTree(g, mst)
    requires SpanningForest(Inside(g, Prim.Seen(mst)), F)
    ensures SpanningForest(Inside(g, Prim.Seen(mst)), mst)
    ensures |F| == |mst| && Cost(mst) <= Cost(F)
  {
    PrimCycle(g, mst);
    MinimumForest(Inside(g, Prim.Seen(mst)), mst, F);
  }

  // ----- agreement -----

  /** Node `v` is reachable from node 0. */
  ghost predicate FromZero<V>(g: Graph<V>, v: nat)
  {
    exists ns, es :: Reaches(g, 0, v, ns, es)
  }

  /** Every node is reachable from node 0. */
  ghost predicate Connected<V>(g: Graph<V>)
  {
    forall v :: 0 <= v < |g.nodes| ==> FromZero(g, v)
  }

  /** The minimum spanning forests of `E`: spanning forests that every
      spanning forest of `E` matches in size and does not undercut. */
  ghost predicate MinimumSpanningForest(E: set<Edge>, T: seq<Edge>)
  {
    && SpanningForest(E, T)
    && forall F :: SpanningForest(E, F) ==> |F| == |T| && Cost(T) <= Cost(F)
  }

  /** On a connected graph `prim` reaches both ends of every stored edge. */
  lemma PrimReachesAll<V>(g: Graph<V>, mst: seq<Edge>)
    requires WellKeyed(g) && ValidIds(g) && Connected(g)
    requires |mst| == |g.nodes| > 0 || forall v, ns, es :: Reaches(g, 0, v, ns, es) ==> v == 0 || v in Prim.Ends(mst)
    requires |mst| == |g.nodes| > 0 || Prim.Enclosed(g, Prim.Seen(mst))
    requires |mst| == 0 || |mst| < |g.nodes|
    ensures Inside(g, Prim.Seen(mst)) == Stored(g)
  {
    forall e | e in Stored(g) ensures e in Inside(g, Prim.Seen(mst)) {
      var u, i :| u in g.edges && 0 <= i < |g.edges[u]| && g.edges[u][i] == e;
      assert FromZero(g, u);
      assert u in Prim.Seen(mst);
      assert i < |Edges(g, u)|;
    }
  }

  /** `prim` and `kruskal`, run on one connected graph built by `prim`'s
      symmetric `add_edge`, both return minimum spanning forests of the
      stored edges, so they keep as many edges at the same total cost; the
      edges themselves may differ where costs tie. */
  method SameTotalCost<V>(g: Graph<V>, keys: seq<nat>) returns (pm: seq<Edge>, km: seq<Edge>)
    requires WellKeyed(g) && Prim.Symmetric(g) && ValidIds(g) && Connected(g)
    requires KeyOrder(g, keys)
    ensures MinimumSpanningForest(Stored(g), pm)
    ensures MinimumSpanningForest(Stored(g), km)
    ensures |pm| == |km| && Cost(pm) == Cost(km)
  {
    assert EndsInRange(g);
    pm := Prim.Prim(g);
    km := Kruskal.Kruskal(g, keys);
    PrimReachesAll(g, pm);
    PrimCycle(g, pm);
    KruskalCycle(g, km);
    CycleSpans(Stored(g), pm);
    CycleSpans(Stored(g), km);
    forall F | SpanningForest(Stored(g), F) ensures |F| == |pm| && Cost(pm) <= Cost(F) {
      MinimumForest(Stored(g), pm, F);
    }
    forall F | SpanningForest(Stored(g), F) ensures |F| == |km| && Cost(km) <= Cost(F) {
      MinimumForest(Stored(g), km, F);
    }
  }
}
