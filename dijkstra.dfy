/** `dijkstra` of src/graph/dijkstra.rs: a label-correcting search from `src`
    over a priority queue with lazy duplicate entries.  The queue is a
    multiset; each pop takes some entry of least cost (entries compare by
    cost alone, so ties are left open).  The result `prevs` maps each reached
    node to its predecessor and its recorded cost. */
module Dijkstra {
  import opened Base
  import opened Graphs

  /** `QueueEntry`: ordered by `cost` only. */
  datatype Entry = Entry(cost: nat, node: nat)

  type Prevs = map<nat, (Option<nat>, nat)>

  /** The recorded costs of `prevs`. */
  ghost function Dist(prevs: Prevs): map<nat, nat>
  {
    map v | v in prevs :: prevs[v].1
  }

  /** The predecessor recorded for `v` is a node of the map joined to `v` by
      an edge whose cost is the difference of the two recorded costs. */
  ghost predicate PredEdge<V>(g: Graph<V>, prevs: Prevs, v: nat)
    requires v in prevs
  {
    && prevs[v].0.Some?
    && prevs[v].0.value in prevs
    && exists i :: 0 <= i < |Edges(g, prevs[v].0.value)| &&
         Edges(g, prevs[v].0.value)[i].dst == v &&
         prevs[v].1 == prevs[prevs[v].0.value].1 + Edges(g, prevs[v].0.value)[i].cost
  }

  /** The specification of a shortest-path map from `src`: `src` has no
      predecessor and cost 0; every key is reached by a walk of exactly its
      cost; every walk from `src` ends at a key and costs at least that key's
      cost; and every other key's predecessor is joined to it by a tight edge. */
  ghost predicate ShortestPathMap<V>(g: Graph<V>, src: nat, prevs: Prevs)
  {
    && src in prevs && prevs[src] == (None, 0)
    && (forall v :: v in prevs ==> exists ns, es :: Reaches(g, src, v, ns, es) && Cost(es) == prevs[v].1)
    && (forall v, ns, es :: Reaches(g, src, v, ns, es) ==> v in prevs && prevs[v].1 <= Cost(es))
    && (forall v {:trigger PredEdge(g, prevs, v)} :: v in prevs && v != src ==> PredEdge(g, prevs, v))
  }

  /** A queue holding an entry of cost at most `k` has an entry of least cost. */
  lemma {:induction false} MinEntryExists(q: multiset<Entry>, k: nat)
    requires exists e :: e in q && e.cost <= k
    ensures exists e :: e in q && forall f :: f in q ==> e.cost <= f.cost
    decreases k
  {
    if exists f :: f in q && f.cost < k {
      MinEntryExists(q, k - 1);
    } else {
      var e :| e in q && e.cost <= k;
      assert forall f :: f in q ==> e.cost <= f.cost;
    }
  }

  /** Lazy duplicates: every queued entry names a key and costs at least the
      key's recorded cost and at least the cost `lo` of the last pop. */
  ghost predicate QueueInv(prevs: Prevs, queue: multiset<Entry>, lo: nat)
  {
    forall e :: e in queue ==> e.node in prevs && e.cost >= prevs[e.node].1 && e.cost >= lo
  }

  /** Every key not yet done has an entry at its recorded cost. */
  ghost predicate FreshInv(prevs: Prevs, queue: multiset<Entry>, done: set<nat>)
  {
    forall v :: v in prevs && v !in done ==> Entry(prevs[v].1, v) in queue
  }

  /** Done nodes are keys, cost at most `lo`, and their edges are relaxed. */
  ghost predicate DoneInv<V>(g: Graph<V>, prevs: Prevs, done: set<nat>, lo: nat)
  {
    && done <= prevs.Keys
    && (forall u :: u in done ==> prevs[u].1 <= lo)
    && (forall u, i :: u in done && 0 <= i < |Edges(g, u)| ==>
          Edges(g, u)[i].dst in prevs && prevs[Edges(g, u)[i].dst].1 <= prevs[u].1 + Edges(g, u)[i].cost)
  }

  /** Each key has a witness walk from `src` of exactly its cost. */
  ghost predicate WalksInv<V>(g: Graph<V>, src: nat, prevs: Prevs, walks: map<nat, (seq<nat>, seq<Edge>)>)
  {
    forall v :: v in prevs ==>
      v in walks && Reaches(g, src, v, walks[v].0, walks[v].1) && Cost(walks[v].1) == prevs[v].1
  }

  /** Each key other than `src` has a key as predecessor, joined by the edge
      `via[v]` of the predecessor's list, whose cost it covers. */
  ghost predicate ViaInv<V>(g: Graph<V>, src: nat, prevs: Prevs, via: map<nat, nat>)
  {
    forall v :: v in prevs && v != src ==>
      && prevs[v].0.Some? && prevs[v].0.value in prevs
      && v in via && via[v] < |Edges(g, prevs[v].0.value)|
      && Edges(g, prevs[v].0.value)[via[v]].dst == v
      && prevs[v].1 >= prevs[prevs[v].0.value].1 + Edges(g, prevs[v].0.value)[via[v]].cost
  }

  /** The nodes a search from `src` can record: `src` and the edge ends. */
  ghost function Universe<V>(g: Graph<V>, src: nat): set<nat>
  {
    {src} + Dsts(g)
  }

  /** The loop state the proof tracks beside `prevs` and `queue`: `done`
      holds the nodes whose edges were relaxed at their recorded cost, `lo` the
      cost of the last pop, `walks` a witness walk per key and `via` the index
      of the edge through which each key was last improved. */
  ghost predicate Inv<V>(g: Graph<V>, src: nat, prevs: Prevs, queue: multiset<Entry>,
                         done: set<nat>, lo: nat, walks: map<nat, (seq<nat>, seq<Edge>)>,
                         via: map<nat, nat>)
  {
    && src in prevs && prevs[src] == (None, 0)
    && QueueInv(prevs, queue, lo)
    && FreshInv(prevs, queue, done)
    && DoneInv(g, prevs, done, lo)
    && prevs.Keys <= Universe(g, src)
    && WalksInv(g, src, prevs, walks)
    && ViaInv(g, src, prevs, via)
  }

  /** The parts of `Inv` after one improvement of `e.dst` through the edge
      `e`, number `i` of the popped node `u`, whose entry `Entry(c, u)` stays
      in the queue; one lemma per part. */
  lemma ImproveQueue(prevs: Prevs, queue: multiset<Entry>, c: nat, u: nat, e: Edge, nc: nat)
    requires nc == c + e.cost
    requires QueueInv(prevs, queue + multiset{Entry(c, u)}, c)
    requires e.dst !in prevs || nc < prevs[e.dst].1
    ensures QueueInv(prevs[e.dst := (Some(u), nc)],
                     queue + multiset{Entry(nc, e.dst)} + multiset{Entry(c, u)}, c)
  {
  }

  lemma ImproveFresh(prevs: Prevs, queue: multiset<Entry>, done: set<nat>, c: nat, u: nat, e: Edge, nc: nat)
    requires FreshInv(prevs, queue + multiset{Entry(c, u)}, done)
    ensures FreshInv(prevs[e.dst := (Some(u), nc)],
                     queue + multiset{Entry(nc, e.dst)} + multiset{Entry(c, u)}, done)
  {
  }

  lemma ImproveDone<V>(g: Graph<V>, prevs: Prevs, done: set<nat>, c: nat, u: nat, e: Edge, nc: nat)
    requires nc == c + e.cost
    requires DoneInv(g, prevs, done, c)
    requires e.dst !in prevs || nc < prevs[e.dst].1
    ensures e.dst !in done
    ensures DoneInv(g, prevs[e.dst := (Some(u), nc)], done, c)
  {
  }

  lemma ImproveWalks<V>(g: Graph<V>, src: nat, prevs: Prevs, walks: map<nat, (seq<nat>, seq<Edge>)>,
                        c: nat, u: nat, e: Edge, i: nat, nc: nat)
    requires nc == c + e.cost
    requires WalksInv(g, src, prevs, walks) && u in prevs && c == prevs[u].1
    requires i < |Edges(g, u)| && Edges(g, u)[i] == e
    ensures WalksInv(g, src, prevs[e.dst := (Some(u), nc)],
                     walks[e.dst := (walks[u].0 + [e.dst], walks[u].1 + [e])])
  {
    ReachesExtend(g, src, u, walks[u].0, walks[u].1, i);
  }

  lemma ImproveVia<V>(g: Graph<V>, src: nat, prevs: Prevs, via: map<nat, nat>, c: nat, u: nat, e: Edge, i: nat,
                     nc: nat)
    requires nc == c + e.cost
    requires ViaInv(g, src, prevs, via) && u in prevs && c >= prevs[u].1
    requires i < |Edges(g, u)| && Edges(g, u)[i] == e
    requires e.dst != u && (e.dst !in prevs || nc < prevs[e.dst].1)
    ensures ViaInv(g, src, prevs[e.dst := (Some(u), nc)], via[e.dst := i])
  {
    var p', via' := prevs[e.dst := (Some(u), nc)], via[e.dst := i];
    forall v | v in p' && v != src
      ensures && p'[v].0.Some? && p'[v].0.value in p'
              && v in via' && via'[v] < |Edges(g, p'[v].0.value)|
              && Edges(g, p'[v].0.value)[via'[v]].dst == v
              && p'[v].1 >= p'[p'[v].0.value].1 + Edges(g, p'[v].0.value)[via'[v]].cost
    {
      if v != e.dst {
        assert via'[v] == via[v];
      }
    }
  }

  /** One improvement keeps `Inv`. */
  lemma ImproveKeepsInv<V>(g: Graph<V>, src: nat, u: nat, c: nat, prevs: Prevs, queue: multiset<Entry>,
                           done: set<nat>, walks: map<nat, (seq<nat>, seq<Edge>)>, via: map<nat, nat>,
                           e: Edge, i: nat, nc: nat)
    requires nc == c + e.cost
    requires Inv(g, src, prevs, queue + multiset{Entry(c, u)}, done, c, walks, via)
    requires u in prevs && c == prevs[u].1 && i < |Edges(g, u)| && Edges(g, u)[i] == e
    requires e.dst != src && (e.dst !in prevs || nc < prevs[e.dst].1)
    ensures e.dst != u && e.dst !in done
    ensures Inv(g, src, prevs[e.dst := (Some(u), nc)],
                queue + multiset{Entry(nc, e.dst)} + multiset{Entry(c, u)}, done, c,
                walks[e.dst := (walks[u].0 + [e.dst], walks[u].1 + [e])], via[e.dst := i])
  {
    ImproveQueue(prevs, queue, c, u, e, nc);
    ImproveFresh(prevs, queue, done, c, u, e, nc);
    ImproveDone(g, prevs, done, c, u, e, nc);
    ImproveWalks(g, src, prevs, walks, c, u, e, i, nc);
    ImproveVia(g, src, prevs, via, c, u, e, i, nc);
    DstInDsts(g, u, i);
  }

  /** An improvement of `e.dst` keeps the edges relaxed so far relaxed and
      leaves the popped node `u` alone. */
  lemma ImproveKeepsRelaxed(prevs: Prevs, es: seq<Edge>, i: nat, c: nat, u: nat, e: Edge, nc: nat)
    requires i < |es| && es[i] == e && nc == c + e.cost && e.dst != u && u in prevs
    requires forall j :: 0 <= j < i ==> es[j].dst in prevs && prevs[es[j].dst].1 <= c + es[j].cost
    requires e.dst !in prevs || nc < prevs[e.dst].1
    ensures forall j :: 0 <= j < i + 1 ==>
              es[j].dst in prevs[e.dst := (Some(u), nc)] && prevs[e.dst := (Some(u), nc)][es[j].dst].1 <= c + es[j].cost
    ensures u in prevs[e.dst := (Some(u), nc)] && prevs[e.dst := (Some(u), nc)][u] == prevs[u]
  {
  }

  /** An edge that improves nothing is relaxed already. */
  lemma ExtendRelaxed(prevs: Prevs, es: seq<Edge>, i: nat, c: nat)
    requires i < |es| && es[i].dst in prevs && prevs[es[i].dst].1 <= c + es[i].cost
    requires forall j :: 0 <= j < i ==> es[j].dst in prevs && prevs[es[j].dst].1 <= c + es[j].cost
    ensures forall j :: 0 <= j < i + 1 ==> es[j].dst in prevs && prevs[es[j].dst].1 <= c + es[j].cost
  {
  }

  /** A done node improves nothing: its edges were relaxed at a cost no
      greater than the current pop. */
  lemma DoneImprovesNothing<V>(g: Graph<V>, prevs: Prevs, done: set<nat>, c: nat, u: nat, e: Edge, i: nat)
    requires DoneInv(g, prevs, done, c) && i < |Edges(g, u)| && Edges(g, u)[i] == e
    requires e.dst !in prevs || c + e.cost < prevs[e.dst].1
    ensures u !in done
  {
  }

  /** The first `n` edges of `es` lead to recorded nodes, each recorded at
      no more than `c` plus the edge's cost. */
  ghost predicate Relaxed(prevs: Prevs, es: seq<Edge>, n: nat, c: nat)
    requires n <= |es|
  {
    forall j :: 0 <= j < n ==> es[j].dst in prevs && prevs[es[j].dst].1 <= c + es[j].cost
  }

  /** Every key of `prevs` stays a key of `prevs'`, and its entry is either
      kept or replaced by one of strictly smaller cost. */
  ghost predicate Lowers(prevs: Prevs, prevs': Prevs)
  {
    forall v :: v in prevs ==> v in prevs' && (prevs'[v] == prevs[v] || prevs'[v].1 < prevs[v].1)
  }

  /** Recording `v` at a cost below its recorded one lowers the map. */
  lemma LowersBy(prevs: Prevs, v: nat, p: Option<nat>, nc: nat)
    requires v in prevs ==> nc < prevs[v].1
    ensures Lowers(prevs, prevs[v := (p, nc)])
  {
  }

  /** One turn of the loop over the popped node's edges: the edge `es[i]`
      improves its end when it is not the source and is cheaper than what
      is recorded. */
  method RelaxEdge<V>(g: Graph<V>, src: nat, u: nat, c: nat, ghost done: set<nat>, es: seq<Edge>, i: nat,
                      prevs: Prevs, queue: multiset<Entry>,
                      ghost walks: map<nat, (seq<nat>, seq<Edge>)>, ghost via: map<nat, nat>)
    returns (prevs': Prevs, queue': multiset<Entry>,
             ghost walks': map<nat, (seq<nat>, seq<Edge>)>, ghost via': map<nat, nat>)
    requires es == Edges(g, u) && i < |es| && u in prevs && (u in done || c == prevs[u].1)
    requires Inv(g, src, prevs, queue + multiset{Entry(c, u)}, done, c, walks, via)
    requires Relaxed(prevs, es, i, c)
    ensures Inv(g, src, prevs', queue' + multiset{Entry(c, u)}, done, c, walks', via')
    ensures u in done ==> queue' == queue
    ensures Relaxed(prevs', es, i + 1, c)
    ensures u in prevs' && prevs'[u] == prevs[u]
    ensures Lowers(prevs, prevs')
  {
    prevs', queue', walks', via' := prevs, queue, walks, via;
    var edge := es[i];
    if edge.dst != src {
      var newCost: nat := c + edge.cost;
      if edge.dst !in prevs || newCost < prevs[edge.dst].1 {
        DoneImprovesNothing(g, prevs, done, c, u, edge, i);
        ImproveKeepsInv(g, src, u, c, prevs, queue, done, walks, via, edge, i, newCost);
        ImproveKeepsRelaxed(prevs, es, i, c, u, edge, newCost);
        walks' := walks[edge.dst := (walks[u].0 + [edge.dst], walks[u].1 + [edge])];
        via' := via[edge.dst := i];
        LowersBy(prevs, edge.dst, Some(u), newCost);
        prevs' := prevs[edge.dst := (Some(u), newCost)];
        queue' := queue + multiset{Entry(newCost, edge.dst)};
      } else {
        ExtendRelaxed(prevs, es, i, c);
      }
    } else {
      ExtendRelaxed(prevs, es, i, c);
    }
  }

  /** The `for edge in graph.edges(e.node_id)` loop: relax every edge out of
      the popped node `u` with the popped cost `c`.  The popped entry is kept
      in the queue argument of `Inv` so that `u` keeps its entry until the
      caller marks it done. */
  method Relax<V>(g: Graph<V>, src: nat, u: nat, c: nat, prevs0: Prevs, queue0: multiset<Entry>,
                  ghost done: set<nat>, ghost walks0: map<nat, (seq<nat>, seq<Edge>)>,
                  ghost via0: map<nat, nat>)
    returns (prevs: Prevs, queue: multiset<Entry>,
             ghost walks: map<nat, (seq<nat>, seq<Edge>)>, ghost via: map<nat, nat>)
    requires Inv(g, src, prevs0, queue0 + multiset{Entry(c, u)}, done, c, walks0, via0)
    requires u in done || c == prevs0[u].1
    ensures Inv(g, src, prevs, queue, done + {u}, c, walks, via)
    ensures u in done ==> |queue| == |queue0|
    ensures Relaxed(prevs, Edges(g, u), |Edges(g, u)|, c)
    ensures u in prevs && prevs[u] == prevs0[u]
  {
    prevs, queue, walks, via := prevs0, queue0, walks0, via0;
    var es := Edges(g, u);
    var i := 0;
    while i < |es|
      invariant 0 <= i <= |es|
      invariant Inv(g, src, prevs, queue + multiset{Entry(c, u)}, done, c, walks, via)
      invariant u in done ==> queue == queue0
      invariant Relaxed(prevs, es, i, c)
      invariant u in prevs && prevs[u] == prevs0[u]
    {
      prevs, queue, walks, via := RelaxEdge(g, src, u, c, done, es, i, prevs, queue, walks, via);
      i := i + 1;
    }
    FinishPop(g, src, prevs, queue, done, c, u, walks, via);
  }

  /** Popping a least entry `e`: the remaining entries cost at least `e`, and
      an entry of a node not yet done is that node's fresh entry. */
  lemma PopKeepsInv<V>(g: Graph<V>, src: nat, prevs: Prevs, queue: multiset<Entry>, done: set<nat>,
                       lo: nat, walks: map<nat, (seq<nat>, seq<Edge>)>, via: map<nat, nat>, e: Entry)
    requires Inv(g, src, prevs, queue, done, lo, walks, via)
    requires e in queue && forall f :: f in queue ==> e.cost <= f.cost
    ensures Inv(g, src, prevs, (queue - multiset{e}) + multiset{Entry(e.cost, e.node)}, done, e.cost, walks, via)
    ensures e.node in prevs && (e.node in done || e.cost == prevs[e.node].1)
    ensures e.node in Universe(g, src)
  {
    assert (queue - multiset{e}) + multiset{Entry(e.cost, e.node)} == queue;
    if e.node !in done {
      assert Entry(prevs[e.node].1, e.node) in queue;
    }
  }

  /** After relaxing `u`'s edges, `u` is done and its entry leaves the queue;
      one lemma per changed part of `Inv`. */
  lemma FinishQueue(prevs: Prevs, queue: multiset<Entry>, c: nat, u: nat)
    requires QueueInv(prevs, queue + multiset{Entry(c, u)}, c)
    ensures QueueInv(prevs, queue, c)
  {
    forall f | f in queue ensures f in queue + multiset{Entry(c, u)} {
    }
  }

  lemma FinishFresh(prevs: Prevs, queue: multiset<Entry>, done: set<nat>, c: nat, u: nat)
    requires FreshInv(prevs, queue + multiset{Entry(c, u)}, done)
    ensures FreshInv(prevs, queue, done + {u})
  {
    forall v | v in prevs && v !in done + {u} ensures Entry(prevs[v].1, v) in queue {
      assert Entry(prevs[v].1, v) in queue + multiset{Entry(c, u)};
    }
  }

  lemma FinishDone<V>(g: Graph<V>, prevs: Prevs, done: set<nat>, c: nat, u: nat)
    requires DoneInv(g, prevs, done, c)
    requires u in prevs && (u in done || c == prevs[u].1)
    requires forall i :: 0 <= i < |Edges(g, u)| ==>
               Edges(g, u)[i].dst in prevs && prevs[Edges(g, u)[i].dst].1 <= c + Edges(g, u)[i].cost
    ensures DoneInv(g, prevs, done + {u}, c)
  {
  }

  lemma FinishPop<V>(g: Graph<V>, src: nat, prevs: Prevs, queue: multiset<Entry>, done: set<nat>,
                     c: nat, u: nat, walks: map<nat, (seq<nat>, seq<Edge>)>, via: map<nat, nat>)
    requires Inv(g, src, prevs, queue + multiset{Entry(c, u)}, done, c, walks, via)
    requires u in prevs && (u in done || c == prevs[u].1)
    requires forall i :: 0 <= i < |Edges(g, u)| ==>
               Edges(g, u)[i].dst in prevs && prevs[Edges(g, u)[i].dst].1 <= c + Edges(g, u)[i].cost
    ensures Inv(g, src, prevs, queue, done + {u}, c, walks, via)
  {
    FinishQueue(prevs, queue, c, u);
    FinishFresh(prevs, queue, done, c, u);
    FinishDone(g, prevs, done, c, u);
  }

  /** When the queue runs empty the recorded costs are shortest. */
  lemma EndOfSearch<V>(g: Graph<V>, src: nat, prevs: Prevs, done: set<nat>, lo: nat,
                       walks: map<nat, (seq<nat>, seq<Edge>)>, via: map<nat, nat>)
    requires Inv(g, src, prevs, multiset{}, done, lo, walks, via)
    ensures ShortestPathMap(g, src, prevs) && Closed(g, Dist(prevs))
  {
    EndClosed(g, src, prevs, done, lo);
    EndShortest(g, src, prevs, walks, via);
  }

  /** One turn of the `while let Some(e) = queue.pop()` loop, for a least
      entry `e` of `queue0`: remove it and relax the edges of its node, which
      is then done. */
  method Visit<V>(g: Graph<V>, src: nat, e: Entry, prevs0: Prevs, queue0: multiset<Entry>,
                  ghost done0: set<nat>, ghost lo: nat, ghost walks0: map<nat, (seq<nat>, seq<Edge>)>,
                  ghost via0: map<nat, nat>)
    returns (prevs: Prevs, queue: multiset<Entry>, ghost done: set<nat>,
             ghost walks: map<nat, (seq<nat>, seq<Edge>)>, ghost via: map<nat, nat>)
    requires Inv(g, src, prevs0, queue0, done0, lo, walks0, via0)
    requires e in queue0 && forall f :: f in queue0 ==> e.cost <= f.cost
    ensures Inv(g, src, prevs, queue, done, e.cost, walks, via)
    ensures || |Universe(g, src) - done| < |Universe(g, src) - done0|
            || (done == done0 && |queue| < |queue0|)
  {
    PopKeepsInv(g, src, prevs0, queue0, done0, lo, walks0, via0, e);
    queue := queue0 - multiset{e};
    prevs, queue, walks, via := Relax(g, src, e.node, e.cost, prevs0, queue, done0, walks0, via0);
    if e.node !in done0 {
      InsertShrinksRest(Universe(g, src), done0, e.node);
    } else {
      DoneStays(done0, e.node);
    }
    done := done0 + {e.node};
  }

  /** The state before the first pop. */
  lemma InitInv<V>(g: Graph<V>, src: nat)
    ensures Inv(g, src, map[src := (None, 0)], multiset{Entry(0, src)}, {}, 0,
                map[src := ([src], [])], map[])
  {
    ReachesSelf(g, src);
  }

  lemma DoneStays(done: set<nat>, u: nat)
    requires u in done
    ensures done + {u} == done
  {
  }

  /** With the queue empty every key is done, so the recorded costs are closed. */
  lemma EndClosed<V>(g: Graph<V>, src: nat, prevs: Prevs, done: set<nat>, lo: nat)
    requires FreshInv(prevs, multiset{}, done) && DoneInv(g, prevs, done, lo)
    ensures Closed(g, Dist(prevs))
  {
    assert done == prevs.Keys;
  }

  /** The recorded costs of a closed map bound every walk from `src`, and each
      predecessor edge is tight. */
  lemma EndShortest<V>(g: Graph<V>, src: nat, prevs: Prevs,
                       walks: map<nat, (seq<nat>, seq<Edge>)>, via: map<nat, nat>)
    requires Closed(g, Dist(prevs)) && src in prevs && prevs[src] == (None, 0)
    requires WalksInv(g, src, prevs, walks) && ViaInv(g, src, prevs, via)
    ensures ShortestPathMap(g, src, prevs)
  {
    EndWalks(g, src, prevs, walks);
    EndBound(g, src, prevs);
    EndTight(g, src, prevs, via);
  }

  /** Every recorded cost is the cost of a recorded walk. */
  lemma EndWalks<V>(g: Graph<V>, src: nat, prevs: Prevs, walks: map<nat, (seq<nat>, seq<Edge>)>)
    requires WalksInv(g, src, prevs, walks)
    ensures forall v :: v in prevs ==> exists ns, es :: Reaches(g, src, v, ns, es) && Cost(es) == prevs[v].1
  {
    forall v | v in prevs ensures exists ns, es :: Reaches(g, src, v, ns, es) && Cost(es) == prevs[v].1 {
      assert Reaches(g, src, v, walks[v].0, walks[v].1);
    }
  }

  /** In a closed map every walk from `src` ends at a recorded node and costs
      at least its recorded cost. */
  lemma EndBound<V>(g: Graph<V>, src: nat, prevs: Prevs)
    requires Closed(g, Dist(prevs)) && src in prevs && prevs[src] == (None, 0)
    ensures forall v, ns, es :: Reaches(g, src, v, ns, es) ==> v in prevs && prevs[v].1 <= Cost(es)
  {
    forall v, ns, es | Reaches(g, src, v, ns, es) ensures v in prevs && prevs[v].1 <= Cost(es) {
      WalkBound(g, Dist(prevs), ns, es);
    }
  }

  /** In a closed map each recorded predecessor edge is tight. */
  lemma EndTight<V>(g: Graph<V>, src: nat, prevs: Prevs, via: map<nat, nat>)
    requires Closed(g, Dist(prevs)) && ViaInv(g, src, prevs, via)
    ensures forall v {:trigger PredEdge(g, prevs, v)} :: v in prevs && v != src ==> PredEdge(g, prevs, v)
  {
    var m := Dist(prevs);
    forall v | v in prevs && v != src ensures PredEdge(g, prevs, v) {
      var p := prevs[v].0.value;
      var i := via[v];
      assert Edges(g, p)[i].dst == v;
      assert m[v] <= m[p] + Edges(g, p)[i].cost;
    }
  }

  method Dijkstra<V>(g: Graph<V>, src: nat) returns (prevs: Prevs)
    ensures ShortestPathMap(g, src, prevs)
    ensures Closed(g, Dist(prevs))
  {
    var queue := multiset{Entry(0, src)};
    prevs := map[src := (None, 0)];
    ghost var done: set<nat> := {};
    ghost var lo: nat := 0;
    ghost var walks: map<nat, (seq<nat>, seq<Edge>)> := map[src := ([src], [])];
    ghost var via: map<nat, nat> := map[];
    InitInv(g, src);
    while |queue| > 0
      invariant Inv(g, src, prevs, queue, done, lo, walks, via)
      decreases |Universe(g, src) - done|, |queue|
    {
      ghost var any :| any in queue;
      MinEntryExists(queue, any.cost);
      var e :| e in queue && forall f :: f in queue ==> e.cost <= f.cost;
      prevs, queue, done, walks, via := Visit(g, src, e, prevs, queue, done, lo, walks, via);
      lo := e.cost;
    }
    EndOfSearch(g, src, prevs, done, lo, walks, via);
  }
}

/** The `graph2` test of src/graph/dijkstra.rs: every shortest-path map of
    that graph from node 0, and so the result of `Dijkstra`, is the expected one. */
module DijkstraGraph2 {
  import opened Base
  import opened Graphs
  import opened Dijkstra

  /** The graph built by the test's `add_edge` calls. */
  function Built(): Graph<nat>
  {
    var g := Graph([0, 1, 2, 3, 4], map[]);
    var g := AddEdge(g, 0, 1, 10);
    var g := AddEdge(g, 0, 2, 3);
    var g := AddEdge(g, 1, 3, 2);
    var g := AddEdge(g, 2, 1, 4);
    var g := AddEdge(g, 2, 3, 8);
    var g := AddEdge(g, 2, 4, 2);
    AddEdge(g, 3, 4, 5)
  }

  function G(): Graph<nat>
  {
    Graph([0, 1, 2, 3, 4],
          map[0 := [Edge(0, 1, 10), Edge(0, 2, 3)],
              1 := [Edge(1, 3, 2)],
              2 := [Edge(2, 1, 4), Edge(2, 3, 8), Edge(2, 4, 2)],
              3 := [Edge(3, 4, 5)]])
  }

  lemma BuiltIsG()
    ensures Built() == G()
  {
    var ns: seq<nat> := [0, 1, 2, 3, 4];
    var g: Graph<nat> := Graph(ns, map[]);
    var e01, e02, e13, e21, e23, e24, e34 :=
      Edge(0, 1, 10), Edge(0, 2, 3), Edge(1, 3, 2), Edge(2, 1, 4), Edge(2, 3, 8), Edge(2, 4, 2), Edge(3, 4, 5);
    assert [] + [e01] == [e01] && [e01] + [e02] == [e01, e02];
    assert [] + [e13] == [e13] && [] + [e21] == [e21];
    assert [e21] + [e23] == [e21, e23] && [e21, e23] + [e24] == [e21, e23, e24];
    assert [] + [e34] == [e34];
  }

  /** The expected costs. */
  function D(): map<nat, nat>
  {
    map[0 := 0, 1 := 7, 2 := 3, 3 := 9, 4 := 5]
  }

  function Expected(): Prevs
  {
    map[0 := (None, 0), 1 := (Some(2), 7), 2 := (Some(0), 3), 3 := (Some(1), 9), 4 := (Some(2), 5)]
  }

  lemma DClosed()
    ensures Closed(G(), D())
  {
  }

  /** A recorded cost is at most the cost of any walk to the node. */
  lemma WalkBounds(prevs: Prevs, v: nat, ns: seq<nat>, es: seq<Edge>)
    requires ShortestPathMap(G(), 0, prevs) && Reaches(G(), 0, v, ns, es)
    ensures v in prevs && prevs[v].1 <= Cost(es)
  {
  }

  /** Walks of cost `D()[v]` to the nodes other than 0. */
  lemma WalkTo2(prevs: Prevs)
    requires ShortestPathMap(G(), 0, prevs)
    ensures 2 in prevs && prevs[2].1 <= 3
  {
    Walk2();
    WalkBounds(prevs, 2, [0, 2], [Edge(0, 2, 3)]);
  }

  lemma Walk2()
    ensures Reaches(G(), 0, 2, [0, 2], [Edge(0, 2, 3)])
    ensures Cost([Edge(0, 2, 3)]) == 3
  {
    var es := [Edge(0, 2, 3)];
    assert es[..0] == [];
  }

  lemma WalkTo1(prevs: Prevs)
    requires ShortestPathMap(G(), 0, prevs)
    ensures 1 in prevs && prevs[1].1 <= 7
  {
    Walk1();
    WalkBounds(prevs, 1, [0, 2, 1], [Edge(0, 2, 3), Edge(2, 1, 4)]);
  }

  lemma Walk1()
    ensures Reaches(G(), 0, 1, [0, 2, 1], [Edge(0, 2, 3), Edge(2, 1, 4)])
    ensures Cost([Edge(0, 2, 3), Edge(2, 1, 4)]) == 7
  {
    var es := [Edge(0, 2, 3), Edge(2, 1, 4)];
    assert es[..1] == [Edge(0, 2, 3)] && es[..1][..0] == [];
  }

  lemma WalkTo4(prevs: Prevs)
    requires ShortestPathMap(G(), 0, prevs)
    ensures 4 in prevs && prevs[4].1 <= 5
  {
    Walk4();
    WalkBounds(prevs, 4, [0, 2, 4], [Edge(0, 2, 3), Edge(2, 4, 2)]);
  }

  lemma Walk4()
    ensures Reaches(G(), 0, 4, [0, 2, 4], [Edge(0, 2, 3), Edge(2, 4, 2)])
    ensures Cost([Edge(0, 2, 3), Edge(2, 4, 2)]) == 5
  {
    var es := [Edge(0, 2, 3), Edge(2, 4, 2)];
    assert es[..1] == [Edge(0, 2, 3)] && es[..1][..0] == [];
  }

  lemma WalkTo3(prevs: Prevs)
    requires ShortestPathMap(G(), 0, prevs)
    ensures 3 in prevs && prevs[3].1 <= 9
  {
    Walk3();
    WalkBounds(prevs, 3, [0, 2, 1, 3], [Edge(0, 2, 3), Edge(2, 1, 4), Edge(1, 3, 2)]);
  }

  lemma Walk3()
    ensures Reaches(G(), 0, 3, [0, 2, 1, 3], [Edge(0, 2, 3), Edge(2, 1, 4), Edge(1, 3, 2)])
    ensures Cost([Edge(0, 2, 3), Edge(2, 1, 4), Edge(1, 3, 2)]) == 9
  {
    var es := [Edge(0, 2, 3), Edge(2, 1, 4), Edge(1, 3, 2)];
    assert es[..2] == [Edge(0, 2, 3), Edge(2, 1, 4)];
    assert es[..2][..1] == [Edge(0, 2, 3)] && es[..2][..1][..0] == [];
    assert Cost(es[..2][..1]) == 3;
    assert Cost(es[..2]) == 7;
  }

  /** Every recorded cost is at least the potential `D()`. */
  lemma AtLeastD(prevs: Prevs)
    requires ShortestPathMap(G(), 0, prevs)
    ensures forall v :: v in prevs ==> v in D() && D()[v] <= prevs[v].1
  {
    DClosed();
    forall v | v in prevs ensures v in D() && D()[v] <= prevs[v].1 {
      var ns, es :| Reaches(G(), 0, v, ns, es) && Cost(es) == prevs[v].1;
      WalkBound(G(), D(), ns, es);
    }
  }

  /** Every node is recorded, at most at cost `D()`. */
  lemma AtMostD(prevs: Prevs)
    requires ShortestPathMap(G(), 0, prevs)
    ensures forall v :: v in D() ==> v in prevs && prevs[v].1 <= D()[v]
  {
    WalkTo1(prevs);
    WalkTo2(prevs);
    WalkTo3(prevs);
    WalkTo4(prevs);
    BoundedByD(prevs);
  }

  /** Bounds on each node of `D()` give the bound on all of them. */
  lemma BoundedByD(prevs: Prevs)
    requires 0 in prevs && prevs[0].1 == 0
    requires 1 in prevs && prevs[1].1 <= 7 && 2 in prevs && prevs[2].1 <= 3
    requires 3 in prevs && prevs[3].1 <= 9 && 4 in prevs && prevs[4].1 <= 5
    ensures forall v :: v in D() ==> v in prevs && prevs[v].1 <= D()[v]
  {
  }

  /** A shortest-path map of the test graph records exactly the costs `D()`. */
  lemma CostsAreD(prevs: Prevs)
    requires ShortestPathMap(G(), 0, prevs)
    ensures prevs.Keys == D().Keys
    ensures forall v :: v in prevs ==> prevs[v].1 == D()[v]
  {
    AtLeastD(prevs);
    AtMostD(prevs);
  }

  /** Each predecessor is forced: it is the only tight edge into its node. */
  lemma Graph2Prevs(prevs: Prevs)
    requires ShortestPathMap(G(), 0, prevs)
    ensures prevs == Expected()
  {
    CostsAreD(prevs);
    Assemble(prevs);
  }

  lemma Assemble(prevs: Prevs)
    requires prevs.Keys == D().Keys && forall v :: v in prevs ==> prevs[v].1 == D()[v]
    requires prevs[0] == (None, 0)
    requires forall v :: v in prevs && v != 0 ==> PredEdge(G(), prevs, v)
    ensures prevs == Expected()
  {
    PredOf(prevs, 1);
    PredOf(prevs, 2);
    PredOf(prevs, 3);
    PredOf(prevs, 4);
  }

  lemma PredOf(prevs: Prevs, v: nat)
    requires prevs.Keys == D().Keys && forall v :: v in prevs ==> prevs[v].1 == D()[v]
    requires v in prevs && PredEdge(G(), prevs, v)
    ensures v != 0 ==> prevs[v] == Expected()[v]
  {
    var p := prevs[v].0.value;
    var i :| 0 <= i < |Edges(G(), p)| && Edges(G(), p)[i].dst == v &&
             prevs[v].1 == prevs[p].1 + Edges(G(), p)[i].cost;
  }

  /** The test itself: `dijkstra(&graph, 0)` returns the expected map. */
  method Graph2() returns (r: Prevs)
    ensures r == Expected()
  {
    BuiltIsG();
    r := Dijkstra.Dijkstra(Built(), 0);
    Graph2Prevs(r);
  }
}
