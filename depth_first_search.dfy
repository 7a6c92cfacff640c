/** The two searches of src/traversal/depth_first_search.rs.

    `depth_first_search_it` pops ids from the front of a deque, appends each
    popped id to `path`, stops when the id itself equals the target's number,
    and pushes the neighbours to the front in reverse order, each only the
    first time it is inserted into `visited`.  The root is never inserted.

    `depth_first_search_rec` appends the current id to `path` unless it is
    already there, stops when the current node's value is the target's, and
    otherwise recurses into every neighbour in turn.  It revisits nodes, so
    it can fail to end on a cycle (`CycleRepeats`).  Here the graph carries
    a ghost ranking of the nodes that every edge descends, which excludes
    every cyclic graph, including those on which the source still ends (a
    target met before the cycle closes, or a cycle not reachable from the
    start).  `ItLoop`, `DfsRec` and
    `DfsEach` are the loops and the recursion as functions of their state;
    the methods run the same steps and are tied to them. */
module Dfs {
  import opened Base
  import opened TravGraph

  // ---------------------------------------------------------------------
  // The iterative search

  datatype ItState = ItState(queue: seq<nat>, visited: set<nat>, path: seq<nat>)

  datatype ItOutcome = ItOutcome(path: seq<nat>, found: Option<nat>)

  /** The `for` loop over the reversed neighbours: each id first inserted
      into `visited` is pushed to the front. */
  function PushRev(ns: seq<nat>, q: seq<nat>, v: set<nat>): (seq<nat>, set<nat>)
    decreases |ns|
  {
    if ns == [] then (q, v)
    else
      var x := ns[|ns| - 1];
      if x in v then PushRev(ns[..|ns| - 1], q, v)
      else PushRev(ns[..|ns| - 1], [x] + q, v + {x})
  }

  /** The neighbours are all marked, and each id new to the visited set is
      pushed once in front of the old queue. */
  lemma {:induction false} PushRevFacts(ns: seq<nat>, q: seq<nat>, v: set<nat>)
    ensures v <= PushRev(ns, q, v).1
    ensures forall x :: x in PushRev(ns, q, v).1 <==> x in v || x in ns
    ensures forall x :: multiset(PushRev(ns, q, v).0)[x] ==
              multiset(q)[x] + (if x in PushRev(ns, q, v).1 && x !in v then 1 else 0)
    ensures PushRev(ns, q, v).1 == v ==> PushRev(ns, q, v).0 == q
    decreases |ns|
  {
    if ns != [] {
      var x := ns[|ns| - 1];
      var rest := ns[..|ns| - 1];
      assert ns == rest + [x];
      assert forall y :: y in ns <==> y == x || y in rest;
      if x in v {
        PushRevFacts(rest, q, v);
      } else {
        PushRevFacts(rest, [x] + q, v + {x});
      }
    }
  }

  /** Pushing the reversed list to the front puts the neighbours in list
      order ahead of the queue, so the first-listed neighbour is popped
      next, when the neighbours are distinct and none was visited before. */
  lemma {:induction false} PushRevOrder(ns: seq<nat>, q: seq<nat>, v: set<nat>)
    requires forall i, j :: 0 <= i < j < |ns| ==> ns[i] != ns[j]
    requires forall x :: x in ns ==> x !in v
    ensures PushRev(ns, q, v).0 == ns + q
    decreases |ns|
  {
    if ns != [] {
      var x := ns[|ns| - 1];
      var rest := ns[..|ns| - 1];
      assert ns == rest + [x];
      assert x !in rest by {
        forall i | 0 <= i < |rest| ensures rest[i] != x {
          assert rest[i] == ns[i];
        }
      }
      PushRevOrder(rest, [x] + q, v + {x});
      assert rest + ([x] + q) == ns + q;
    }
  }

  /** The visited set grows inside `u`, or nothing changes. */
  lemma PushRevProgress(ns: seq<nat>, q: seq<nat>, v: set<nat>, u: set<nat>)
    requires forall y :: y in ns ==> y in u
    ensures PushRev(ns, q, v).1 == v || |u - PushRev(ns, q, v).1| < |u - v|
  {
    var r := PushRev(ns, q, v);
    PushRevFacts(ns, q, v);
    if r.1 != v {
      var x :| x in r.1 && x !in v;
      GrowShrinksRest(u, v, r.1, x);
    }
  }

  /** One turn of the loop past an id that is not the target. */
  function ItNext(g: Graph, s: ItState): ItState
    requires s.queue != []
  {
    var id := s.queue[0];
    var (q, v) := PushRev(Neighbours(g, id), s.queue[1..], s.visited);
    ItState(q, v, s.path + [id])
  }

  lemma ItNextProgress(g: Graph, s: ItState)
    requires s.queue != []
    ensures || (ItNext(g, s).visited == s.visited && |ItNext(g, s).queue| < |s.queue|)
            || |Dsts(g) - ItNext(g, s).visited| < |Dsts(g) - s.visited|
  {
    NeighboursInDsts(g, s.queue[0]);
    PushRevFacts(Neighbours(g, s.queue[0]), s.queue[1..], s.visited);
    PushRevProgress(Neighbours(g, s.queue[0]), s.queue[1..], s.visited, Dsts(g));
  }

  /** The `while let` loop. */
  function ItLoop(g: Graph, target: nat, s: ItState): ItOutcome
    decreases |Dsts(g) - s.visited|, |s.queue|
  {
    if s.queue == [] then ItOutcome(s.path, None)
    else if s.queue[0] == target then ItOutcome(s.path + [target], Some(target))
    else
      ItNextProgress(g, s);
      ItLoop(g, target, ItNext(g, s))
  }

  function ItStart(root: nat): ItState
  {
    ItState([root], {}, [])
  }

  /** The root is counted once more than the visited ids, since it is
      queued without being inserted. */
  ghost predicate ItCounted(root: nat, s: ItState)
  {
    forall x :: multiset(s.path + s.queue)[x] == (if x in s.visited then 1 else 0) + (if x == root then 1 else 0)
  }

  /** The root is popped first. */
  ghost predicate RootFirst(root: nat, s: ItState)
  {
    && (s.path == [] ==> s.queue == [root])
    && (s.path != [] ==> s.path[0] == root)
  }

  /** The neighbours of every popped id are visited. */
  ghost predicate ItExpanded(g: Graph, s: ItState)
  {
    forall x, y :: x in s.path && y in Neighbours(g, x) ==> y in s.visited
  }

  ghost predicate ItReach(g: Graph, root: nat, s: ItState)
  {
    forall x :: x in s.visited ==> Reachable(g, root, x)
  }

  ghost predicate ItInv(g: Graph, root: nat, target: nat, s: ItState)
  {
    ItCounted(root, s) && RootFirst(root, s) && target !in s.path && ItExpanded(g, s) && ItReach(g, root, s)
  }

  lemma ItInitInv(g: Graph, root: nat, target: nat)
    ensures ItInv(g, root, target, ItStart(root))
  {
    assert [] + [root] == [root];
  }

  /** A counted state's head of queue is the root or visited, so it is
      reachable. */
  lemma ItHead(g: Graph, root: nat, target: nat, s: ItState)
    requires ItInv(g, root, target, s) && s.queue != []
    ensures Reachable(g, root, s.queue[0])
    ensures multiset(s.path + s.queue) == multiset(s.path) + multiset{s.queue[0]} + multiset(s.queue[1..])
  {
    assert s.queue == [s.queue[0]] + s.queue[1..];
    assert s.path + s.queue == s.path + [s.queue[0]] + s.queue[1..];
    assert multiset(s.path + s.queue)[s.queue[0]] > 0;
    if s.queue[0] == root {
      ReachableSelf(g, root);
    }
  }

  lemma ItStepCounted(root: nat, s: ItState, q: seq<nat>, v: set<nat>)
    requires ItCounted(root, s) && s.queue != [] && s.visited <= v
    requires multiset(s.path + s.queue) == multiset(s.path) + multiset{s.queue[0]} + multiset(s.queue[1..])
    requires forall x :: multiset(q)[x] == multiset(s.queue[1..])[x] + (if x in v && x !in s.visited then 1 else 0)
    ensures ItCounted(root, ItState(q, v, s.path + [s.queue[0]]))
  {
    var s' := ItState(q, v, s.path + [s.queue[0]]);
    assert multiset(s'.path + s'.queue) == multiset(s.path) + multiset{s.queue[0]} + multiset(q);
  }

  lemma ItStepExpanded(g: Graph, s: ItState, id: nat, q: seq<nat>, v: set<nat>)
    requires ItExpanded(g, s) && s.visited <= v && forall y :: y in Neighbours(g, id) ==> y in v
    ensures ItExpanded(g, ItState(q, v, s.path + [id]))
  {
    forall x, y | x in s.path + [id] && y in Neighbours(g, x) ensures y in v {
      if x != id {
        assert x in s.path;
      }
    }
  }

  lemma ItStepReach(g: Graph, root: nat, s: ItState, id: nat, q: seq<nat>, v: set<nat>, p: seq<nat>)
    requires ItReach(g, root, s) && Reachable(g, root, id)
    requires forall y :: y in v ==> y in s.visited || y in Neighbours(g, id)
    ensures ItReach(g, root, ItState(q, v, p))
  {
    forall y | y in v ensures Reachable(g, root, y) {
      if y !in s.visited {
        ReachableStep(g, root, id, y);
      }
    }
  }

  lemma ItStepInv(g: Graph, root: nat, target: nat, s: ItState)
    requires ItInv(g, root, target, s) && s.queue != [] && s.queue[0] != target
    ensures ItInv(g, root, target, ItNext(g, s))
  {
    var id := s.queue[0];
    var (q, v) := PushRev(Neighbours(g, id), s.queue[1..], s.visited);
    assert ItNext(g, s) == ItState(q, v, s.path + [id]);
    PushRevFacts(Neighbours(g, id), s.queue[1..], s.visited);
    ItHead(g, root, target, s);
    ItStepCounted(root, s, q, v);
    ItStepExpanded(g, s, id, q, v);
    ItStepReach(g, root, s, id, q, v, s.path + [id]);
  }

  /** What the iterative search promises: a found id is the target number
      itself and is reachable, and it ends the path; `None` means the target
      is not reachable; the path starts at the root, holds every other id at
      most once and the root at most twice. */
  ghost predicate ItSound(g: Graph, root: nat, target: nat, r: ItOutcome)
  {
    && (r.found.Some? ==> r.found.value == target && |r.path| > 0 && r.path[|r.path| - 1] == target)
    && (r.found.Some? <==> Reachable(g, root, target))
    && |r.path| > 0 && r.path[0] == root
    && (forall x :: x != root ==> multiset(r.path)[x] <= 1)
    && multiset(r.path)[root] <= 2
  }

  lemma ItBounds(root: nat, s: ItState, p: seq<nat>)
    requires ItCounted(root, s) && multiset(p) <= multiset(s.path + s.queue)
    ensures forall x :: x != root ==> multiset(p)[x] <= 1
    ensures multiset(p)[root] <= 2
  {
  }

  lemma ItEmpty(g: Graph, root: nat, target: nat, s: ItState)
    requires ItInv(g, root, target, s) && s.queue == []
    ensures !Reachable(g, root, target)
  {
    assert s.path + s.queue == s.path;
    var c := set x | x in s.path;
    assert multiset(s.path)[root] > 0;
    forall a, b | a in c && b in Neighbours(g, a) ensures b in c {
      assert multiset(s.path)[b] > 0;
    }
    if Reachable(g, root, target) {
      var ns :| Path(g, ns, root, target);
      ClosedHoldsReachable(g, c, ns, root, target);
    }
  }

  lemma {:induction false} ItOutcomeSound(g: Graph, root: nat, target: nat, s: ItState)
    requires ItInv(g, root, target, s)
    ensures ItSound(g, root, target, ItLoop(g, target, s))
    decreases |Dsts(g) - s.visited|, |s.queue|
  {
    if s.queue == [] {
      ItEmpty(g, root, target, s);
      ItBounds(root, s, s.path);
    } else {
      ItHead(g, root, target, s);
      if s.queue[0] == target {
        ItBounds(root, s, s.path + [target]);
      } else {
        ItNextProgress(g, s);
        ItStepInv(g, root, target, s);
        ItOutcomeSound(g, root, target, ItNext(g, s));
      }
    }
  }

  /** The `for` loop over the reversed neighbours, run in place. */
  method PushAllRev(ns: seq<nat>, q: seq<nat>, v: set<nat>) returns (queue: seq<nat>, visited: set<nat>)
    ensures (queue, visited) == PushRev(ns, q, v)
  {
    queue, visited := q, v;
    var i := |ns|;
    assert ns[..i] == ns;
    while i > 0
      invariant 0 <= i <= |ns|
      invariant PushRev(ns[..i], queue, visited) == PushRev(ns, q, v)
    {
      assert ns[..i][..i - 1] == ns[..i - 1];
      i := i - 1;
      if ns[i] !in visited {
        visited := visited + {ns[i]};
        queue := [ns[i]] + queue;
      }
    }
  }

  /** `depth_first_search_it`, with the deque as a sequence. */
  method DepthFirstSearchIt(g: Graph, root: nat, target: nat) returns (path: seq<nat>, found: Option<nat>)
    ensures ItOutcome(path, found) == ItLoop(g, target, ItStart(root))
    ensures |path| > 0 && path[0] == root
    ensures found.Some? ==> found.value == target && path[|path| - 1] == target
    ensures found.Some? <==> Reachable(g, root, target)
    ensures forall x :: x != root ==> multiset(path)[x] <= 1
  {
    ItInitInv(g, root, target);
    ItOutcomeSound(g, root, target, ItStart(root));
    path := [];
    var visited: set<nat> := {};
    var queue: seq<nat> := [root];
    while queue != []
      invariant ItLoop(g, target, ItState(queue, visited, path)) == ItLoop(g, target, ItStart(root))
      decreases |Dsts(g) - visited|, |queue|
    {
      ghost var s := ItState(queue, visited, path);
      var id := queue[0];
      if id == target {
        return path + [id], Some(id);
      }
      ItNextProgress(g, s);
      queue, visited := PushAllRev(Neighbours(g, id), queue[1..], visited);
      path := path + [id];
      assert ItState(queue, visited, path) == ItNext(g, s);
    }
    found := None;
  }

  // ---------------------------------------------------------------------
  // The recursive search

  /** Every edge out of a node descends in `rank`, so the graph has no cycle
      at all, reachable or not. */
  ghost predicate Ranked(g: Graph, rank: seq<nat>)
  {
    && |rank| == |g.nodes| && DstsInRange(g)
    && forall i :: 0 <= i < |g.edges| && g.edges[i].0 < |g.nodes| ==> rank[g.edges[i].1] < rank[g.edges[i].0]
  }

  lemma RankedNeighbours(g: Graph, rank: seq<nat>, n: nat)
    requires Ranked(g, rank) && n < |g.nodes|
    ensures forall y :: y in Neighbours(g, n) ==> y < |g.nodes| && rank[y] < rank[n]
  {
    NeighboursMembers(g, n);
    forall y | y in Neighbours(g, n) ensures y < |g.nodes| && rank[y] < rank[n] {
      var i :| 0 <= i < |g.edges| && g.edges[i] == (n, y);
    }
  }

  /** Under a ranking, every walk of at least one edge descends, so no walk
      returns to its start. */
  lemma {:induction false} RankedAcyclic(g: Graph, rank: seq<nat>, ns: seq<nat>, s: nat, t: nat)
    requires Ranked(g, rank) && s < |g.nodes| && Path(g, ns, s, t) && |ns| > 1
    ensures t < |g.nodes| && rank[t] < rank[s] && t != s
    decreases |ns|
  {
    var m := |ns| - 1;
    assert (ns[m - 1], t) in g.edges;
    var i :| 0 <= i < |g.edges| && g.edges[i] == (ns[m - 1], t);
    if m == 1 {
    } else {
      var ns' := ns[..m];
      assert Path(g, ns', s, ns[m - 1]) by {
        forall k | 0 <= k < |ns'| - 1 ensures (ns'[k], ns'[k + 1]) in g.edges {
          assert ns'[k] == ns[k] && ns'[k + 1] == ns[k + 1];
        }
      }
      RankedAcyclic(g, rank, ns', s, ns[m - 1]);
    }
  }

  /** The push at the top of the call: only when the id is new. */
  function Enter(path: seq<nat>, cur: nat): seq<nat>
  {
    if cur in path then path else path + [cur]
  }

  /** `depth_first_search_rec` from `cur`. */
  function DfsRec(g: Graph, rank: seq<nat>, path: seq<nat>, cur: nat, target: nat): (seq<nat>, Option<nat>)
    requires Ranked(g, rank) && cur < |g.nodes|
    decreases rank[cur], 1, 0
  {
    if g.nodes[cur] == target then (Enter(path, cur), Some(cur))
    else
      RankedNeighbours(g, rank, cur);
      DfsEach(g, rank, Enter(path, cur), Neighbours(g, cur), target, rank[cur])
  }

  /** The `for` loop over the neighbours: recurse into each in turn and stop
      at the first that finds the target. */
  function DfsEach(g: Graph, rank: seq<nat>, path: seq<nat>, ns: seq<nat>, target: nat, bound: nat): (seq<nat>, Option<nat>)
    requires Ranked(g, rank) && forall y :: y in ns ==> y < |g.nodes| && rank[y] < bound
    decreases bound, 0, |ns|
  {
    if ns == [] then (path, None)
    else
      assert ns[0] in ns && forall y :: y in ns[1..] ==> y in ns;
      var r := DfsRec(g, rank, path, ns[0], target);
      if r.1.Some? then r else DfsEach(g, rank, r.0, ns[1..], target, bound)
  }

  ghost predicate NoDup(s: seq<nat>)
  {
    forall i, j :: 0 <= i < j < |s| ==> s[i] != s[j]
  }

  /** What a recursive call promises about the path it is given and the one
      it returns: the old path is kept as a prefix, no id is added twice, and
      every id it adds other than the found one does not hold the target. */
  ghost predicate Extends(g: Graph, target: nat, path: seq<nat>, r: (seq<nat>, Option<nat>))
  {
    && |path| <= |r.0| && r.0[..|path|] == path
    && (NoDup(path) ==> NoDup(r.0))
    && (forall k :: |path| <= k < |r.0| ==> r.0[k] < |g.nodes|)
    && (forall k :: |path| <= k < |r.0| && r.1 != Some(r.0[k]) ==> g.nodes[r.0[k]] != target)
  }

  lemma EnterExtends(g: Graph, path: seq<nat>, cur: nat)
    requires cur < |g.nodes|
    ensures |path| <= |Enter(path, cur)| && Enter(path, cur)[..|path|] == path
    ensures NoDup(path) ==> NoDup(Enter(path, cur))
    ensures forall k :: |path| <= k < |Enter(path, cur)| ==> Enter(path, cur)[k] == cur
    ensures cur in Enter(path, cur)
  {
    assert (path + [cur])[..|path|] == path;
  }

  lemma ExtendsTrans(g: Graph, target: nat, a: seq<nat>, b: seq<nat>, r: (seq<nat>, Option<nat>))
    requires |a| <= |b| && b[..|a|] == a && (NoDup(a) ==> NoDup(b))
    requires forall k :: |a| <= k < |b| ==> b[k] < |g.nodes| && g.nodes[b[k]] != target
    requires Extends(g, target, b, r)
    ensures Extends(g, target, a, r)
  {
    assert r.0[..|a|] == r.0[..|b|][..|a|];
    forall k | |a| <= k < |r.0| && r.1 != Some(r.0[k]) ensures g.nodes[r.0[k]] != target {
      if k < |b| {
        assert r.0[k] == b[k];
      }
    }
    forall k | |a| <= k < |r.0| ensures r.0[k] < |g.nodes| {
      if k < |b| {
        assert r.0[k] == b[k];
      }
    }
  }

  /** A found id holds the target, is reachable from one of `starts`, and
      is on the returned path. */
  ghost predicate Finds(g: Graph, target: nat, starts: seq<nat>, r: (seq<nat>, Option<nat>))
  {
    r.1.Some? ==>
      && r.1.value < |g.nodes| && g.nodes[r.1.value] == target
      && (exists y :: y in starts && Reachable(g, y, r.1.value))
      && r.1.value in r.0
  }

  /** No search found anything: nothing reachable from `starts` holds the
      target. */
  ghost predicate Exhausts(g: Graph, target: nat, starts: seq<nat>, r: (seq<nat>, Option<nat>))
  {
    r.1.None? ==> forall y, x: nat :: y in starts && x < |g.nodes| && Reachable(g, y, x) ==> g.nodes[x] != target
  }

  /** The recursive search is sound and complete from `cur`: a found id holds
      the target and is reachable; `None` means no node reachable from `cur`
      holds the target; the path only grows, without duplicates, and every
      id it gains before the found one misses the target. */
  lemma {:induction false} DfsRecSound(g: Graph, rank: seq<nat>, path: seq<nat>, cur: nat, target: nat)
    requires Ranked(g, rank) && cur < |g.nodes|
    ensures Extends(g, target, path, DfsRec(g, rank, path, cur, target))
    ensures Finds(g, target, [cur], DfsRec(g, rank, path, cur, target))
    ensures Exhausts(g, target, [cur], DfsRec(g, rank, path, cur, target))
    decreases rank[cur], 1, 0
  {
    var p := Enter(path, cur);
    EnterExtends(g, path, cur);
    var r := DfsRec(g, rank, path, cur, target);
    if g.nodes[cur] == target {
      ReachableSelf(g, cur);
      assert cur in [cur];
    } else {
      RankedNeighbours(g, rank, cur);
      NeighboursMembers(g, cur);
      var ns := Neighbours(g, cur);
      assert r == DfsEach(g, rank, p, ns, target, rank[cur]);
      DfsEachSound(g, rank, p, ns, target, rank[cur]);
      ExtendsTrans(g, target, path, p, r);
      if r.1.Some? {
        var y :| y in ns && Reachable(g, y, r.1.value);
        ReachablePrepend(g, cur, y, r.1.value);
        assert cur in [cur];
      } else {
        ExhaustsBelow(g, target, cur);
      }
    }
  }

  /** When `cur` misses the target and so does everything reachable from its
      neighbours, everything reachable from `cur` misses it. */
  lemma ExhaustsBelow(g: Graph, target: nat, cur: nat)
    requires cur < |g.nodes| && g.nodes[cur] != target
    requires forall y, x: nat :: y in Neighbours(g, cur) && x < |g.nodes| && Reachable(g, y, x) ==> g.nodes[x] != target
    ensures forall z, x: nat :: z in [cur] && x < |g.nodes| && Reachable(g, z, x) ==> g.nodes[x] != target
  {
    NeighboursMembers(g, cur);
    forall z, x: nat | z in [cur] && x < |g.nodes| && Reachable(g, z, x) ensures g.nodes[x] != target {
      var w :| Path(g, w, cur, x);
      if |w| > 1 {
        PathTail(g, w, cur, x);
        assert w[1] in Neighbours(g, cur);
      }
    }
  }

  /** The loop over the neighbours `ns`: sound and complete in the same way. */
  lemma {:induction false} DfsEachSound(g: Graph, rank: seq<nat>, path: seq<nat>, ns: seq<nat>, target: nat, bound: nat)
    requires Ranked(g, rank) && forall y :: y in ns ==> y < |g.nodes| && rank[y] < bound
    ensures Extends(g, target, path, DfsEach(g, rank, path, ns, target, bound))
    ensures Finds(g, target, ns, DfsEach(g, rank, path, ns, target, bound))
    ensures Exhausts(g, target, ns, DfsEach(g, rank, path, ns, target, bound))
    decreases bound, 0, |ns|
  {
    if ns != [] {
      assert ns[0] in ns && forall y :: y in ns[1..] ==> y in ns;
      var r := DfsRec(g, rank, path, ns[0], target);
      DfsRecSound(g, rank, path, ns[0], target);
      if r.1.Some? {
        assert DfsEach(g, rank, path, ns, target, bound) == r;
      } else {
        var r' := DfsEach(g, rank, r.0, ns[1..], target, bound);
        assert DfsEach(g, rank, path, ns, target, bound) == r';
        DfsEachSound(g, rank, r.0, ns[1..], target, bound);
        ExtendsTrans(g, target, path, r.0, r');
        if r'.1.Some? {
          var y :| y in ns[1..] && Reachable(g, y, r'.1.value);
        } else {
          forall y, x: nat | y in ns && x < |g.nodes| && Reachable(g, y, x) ensures g.nodes[x] != target {
            if y == ns[0] {
              assert y in [ns[0]];
            } else {
              assert y in ns[1..];
            }
          }
        }
      }
    }
  }

  /** `depth_first_search_rec`, with `path` passed in and handed back. */
  method DepthFirstSearchRec(g: Graph, ghost rank: seq<nat>, path: seq<nat>, cur: nat, target: nat)
      returns (path': seq<nat>, found: Option<nat>)
    requires Ranked(g, rank) && cur < |g.nodes|
    ensures (path', found) == DfsRec(g, rank, path, cur, target)
    decreases rank[cur]
  {
    path' := if cur in path then path else path + [cur];
    if g.nodes[cur] == target {
      return path', Some(cur);
    }
    var ns := Neighbours(g, cur);
    RankedNeighbours(g, rank, cur);
    ghost var p0 := path';
    for i := 0 to |ns|
      invariant forall y :: y in ns[i..] ==> y in ns
      invariant DfsEach(g, rank, path', ns[i..], target, rank[cur]) == DfsEach(g, rank, p0, ns, target, rank[cur])
    {
      assert ns[i..][0] == ns[i] && ns[i..][1..] == ns[i + 1..];
      var v;
      path', v := DepthFirstSearchRec(g, rank, path', ns[i], target);
      if v.Some? {
        return path', v;
      }
    }
    assert ns[|ns|..] == [];
    found := None;
  }

  /** The two-node cycle has no ranking. */
  lemma CycleUnranked(g: Graph, rank: seq<nat>)
    requires |g.nodes| == 2 && g.edges == [(0, 1), (1, 0)]
    ensures !Ranked(g, rank)
  {
    if |rank| == 2 {
      if rank[1] < rank[0] {
        assert g.edges[1] == (1, 0) && !(rank[g.edges[1].1] < rank[g.edges[1].0]);
      } else {
        assert g.edges[0] == (0, 1) && !(rank[g.edges[0].1] < rank[g.edges[0].0]);
      }
    }
  }

  /** On that cycle, when neither node holds the target, the source's
      recursion enters 0, then its only neighbour 1, then 0 again, then 1
      again with the same path as before: the arguments of the calls repeat,
      so the recursion does not end. */
  lemma CycleRepeats(g: Graph, target: nat)
    requires g.nodes == [8, 9] && target != 8 && target != 9 && g.edges == [(0, 1), (1, 0)]
    ensures g.nodes[0] != target && Neighbours(g, 0) == [1] && Enter([], 0) == [0]
    ensures g.nodes[1] != target && Neighbours(g, 1) == [0] && Enter([0], 1) == [0, 1]
    ensures Enter([0, 1], 0) == [0, 1] && Enter([0, 1], 1) == [0, 1]
  {
    assert NeighboursFrom(g.edges, 0, 1) == [];
    assert NeighboursFrom(g.edges, 1, 1) == [0];
  }

  // ---------------------------------------------------------------------
  // The source's tests, on graphs described by their shape

  /** Unrolling one turn of the iterative loop. */
  lemma ItLoopStep(g: Graph, target: nat, s: ItState, s': ItState)
    requires s.queue != [] && s.queue[0] != target && ItNext(g, s) == s'
    ensures ItLoop(g, target, s) == ItLoop(g, target, s')
  {
  }

  /** The graph of the source's iterative tests: ids 0 to 7 holding their own numbers, with the cycles 1-3-2 and 4-5-7-6. */
  ghost predicate IsCyclic(g: Graph)
  {
    && |g.nodes| == 8 && g.nodes[0] == 0 && g.nodes[1] == 1 && g.nodes[2] == 2
    && g.nodes[3] == 3 && g.nodes[4] == 4 && g.nodes[5] == 5 && g.nodes[6] == 6
    && g.nodes[7] == 7 && |g.edges| == 9 && g.edges[0] == (0, 1) && g.edges[1] == (1, 3)
    && g.edges[2] == (3, 2) && g.edges[3] == (2, 1) && g.edges[4] == (3, 4)
    && g.edges[5] == (4, 5) && g.edges[6] == (5, 7) && g.edges[7] == (7, 6)
    && g.edges[8] == (6, 4)
  }

  lemma CyclicOut0(g: Graph)
    requires IsCyclic(g)
    ensures Neighbours(g, 0) == [1]
  {
    assert NeighboursFrom(g.edges, 0, 8) == [];
    assert NeighboursFrom(g.edges, 0, 7) == [];
    assert NeighboursFrom(g.edges, 0, 6) == [];
    assert NeighboursFrom(g.edges, 0, 5) == [];
    assert NeighboursFrom(g.edges, 0, 4) == [];
    assert NeighboursFrom(g.edges, 0, 3) == [];
    assert NeighboursFrom(g.edges, 0, 2) == [];
    assert NeighboursFrom(g.edges, 0, 1) == [];
    assert NeighboursFrom(g.edges, 0, 0) == [1];
  }

  lemma CyclicStep0(g: Graph)
    requires IsCyclic(g)
    ensures ItNext(g, ItState([0], {}, []))
         == ItState([1], {1}, [0])
  {
    CyclicOut0(g);
    assert [0][1..] == [];
    assert [1][..0] == [];
    assert {} + {1} == {1};
    assert [1] + [] == [1];
    assert [] + [0] == [0];
  }

  lemma CyclicOut1(g: Graph)
    requires IsCyclic(g)
    ensures Neighbours(g, 1) == [3]
  {
    assert NeighboursFrom(g.edges, 1, 8) == [];
    assert NeighboursFrom(g.edges, 1, 7) == [];
    assert NeighboursFrom(g.edges, 1, 6) == [];
    assert NeighboursFrom(g.edges, 1, 5) == [];
    assert NeighboursFrom(g.edges, 1, 4) == [];
    assert NeighboursFrom(g.edges, 1, 3) == [];
    assert NeighboursFrom(g.edges, 1, 2) == [];
    assert NeighboursFrom(g.edges, 1, 1) == [3];
    assert NeighboursFrom(g.edges, 1, 0) == [3];
  }

  lemma CyclicStep1(g: Graph)
    requires IsCyclic(g)
    ensures ItNext(g, ItState([1], {1}, [0]))
         == ItState([3], {1, 3}, [0, 1])
  {
    CyclicOut1(g);
    assert [1][1..] == [];
    assert [3][..0] == [];
    assert {1} + {3} == {1, 3};
    assert [3] + [] == [3];
    assert [0] + [1] == [0, 1];
  }

  lemma CyclicOut3(g: Graph)
    requires IsCyclic(g)
    ensures Neighbours(g, 3) == [2, 4]
  {
    assert NeighboursFrom(g.edges, 3, 8) == [];
    assert NeighboursFrom(g.edges, 3, 7) == [];
    assert NeighboursFrom(g.edges, 3, 6) == [];
    assert NeighboursFrom(g.edges, 3, 5) == [];
    assert NeighboursFrom(g.edges, 3, 4) == [4];
    assert NeighboursFrom(g.edges, 3, 3) == [4];
    assert NeighboursFrom(g.edges, 3, 2) == [2, 4];
    assert NeighboursFrom(g.edges, 3, 1) == [2, 4];
    assert NeighboursFrom(g.edges, 3, 0) == [2, 4];
  }

  lemma CyclicStep2(g: Graph)
    requires IsCyclic(g)
    ensures ItNext(g, ItState([3], {1, 3}, [0, 1]))
         == ItState([2, 4], {1, 2, 3, 4}, [0, 1, 3])
  {
    CyclicOut3(g);
    assert [3][1..] == [];
    assert [2, 4][..1] == [2];
    assert {1, 3} + {4} == {1, 3, 4};
    assert [4] + [] == [4];
    assert [2][..0] == [];
    assert {1, 3, 4} + {2} == {1, 2, 3, 4};
    assert [2] + [4] == [2, 4];
    assert [0, 1] + [3] == [0, 1, 3];
  }

  lemma CyclicOut2(g: Graph)
    requires IsCyclic(g)
    ensures Neighbours(g, 2) == [1]
  {
    assert NeighboursFrom(g.edges, 2, 8) == [];
    assert NeighboursFrom(g.edges, 2, 7) == [];
    assert NeighboursFrom(g.edges, 2, 6) == [];
    assert NeighboursFrom(g.edges, 2, 5) == [];
    assert NeighboursFrom(g.edges, 2, 4) == [];
    assert NeighboursFrom(g.edges, 2, 3) == [1];
    assert NeighboursFrom(g.edges, 2, 2) == [1];
    assert NeighboursFrom(g.edges, 2, 1) == [1];
    assert NeighboursFrom(g.edges, 2, 0) == [1];
  }

  lemma CyclicStep3(g: Graph)
    requires IsCyclic(g)
    ensures ItNext(g, ItState([2, 4], {1, 2, 3, 4}, [0, 1, 3]))
         == ItState([4], {1, 2, 3, 4}, [0, 1, 3, 2])
  {
    CyclicOut2(g);
    assert [2, 4][1..] == [4];
    assert [1][..0] == [];
    assert 1 in {1, 2, 3, 4};
    assert [0, 1, 3] + [2] == [0, 1, 3, 2];
  }

  lemma CyclicOut4(g: Graph)
    requires IsCyclic(g)
    ensures Neighbours(g, 4) == [5]
  {
    assert NeighboursFrom(g.edges, 4, 8) == [];
    assert NeighboursFrom(g.edges, 4, 7) == [];
    assert NeighboursFrom(g.edges, 4, 6) == [];
    assert NeighboursFrom(g.edges, 4, 5) == [5];
    assert NeighboursFrom(g.edges, 4, 4) == [5];
    assert NeighboursFrom(g.edges, 4, 3) == [5];
    assert NeighboursFrom(g.edges, 4, 2) == [5];
    assert NeighboursFrom(g.edges, 4, 1) == [5];
    assert NeighboursFrom(g.edges, 4, 0) == [5];
  }

  lemma CyclicStep4(g: Graph)
    requires IsCyclic(g)
    ensures ItNext(g, ItState([4], {1, 2, 3, 4}, [0, 1, 3, 2]))
         == ItState([5], {1, 2, 3, 4, 5}, [0, 1, 3, 2, 4])
  {
    CyclicOut4(g);
    assert [4][1..] == [];
    assert [5][..0] == [];
    assert {1, 2, 3, 4} + {5} == {1, 2, 3, 4, 5};
    assert [5] + [] == [5];
    assert [0, 1, 3, 2] + [4] == [0, 1, 3, 2, 4];
  }

  lemma CyclicOut5(g: Graph)
    requires IsCyclic(g)
    ensures Neighbours(g, 5) == [7]
  {
    assert NeighboursFrom(g.edges, 5, 8) == [];
    assert NeighboursFrom(g.edges, 5, 7) == [];
    assert NeighboursFrom(g.edges, 5, 6) == [7];
    assert NeighboursFrom(g.edges, 5, 5) == [7];
    assert NeighboursFrom(g.edges, 5, 4) == [7];
    assert NeighboursFrom(g.edges, 5, 3) == [7];
    assert NeighboursFrom(g.edges, 5, 2) == [7];
    assert NeighboursFrom(g.edges, 5, 1) == [7];
    assert NeighboursFrom(g.edges, 5, 0) == [7];
  }

  lemma CyclicStep5(g: Graph)
    requires IsCyclic(g)
    ensures ItNext(g, ItState([5], {1, 2, 3, 4, 5}, [0, 1, 3, 2, 4]))
         == ItState([7], {1, 2, 3, 4, 5, 7}, [0, 1, 3, 2, 4, 5])
  {
    CyclicOut5(g);
    assert [5][1..] == [];
    assert [7][..0] == [];
    assert {1, 2, 3, 4, 5} + {7} == {1, 2, 3, 4, 5, 7};
    assert [7] + [] == [7];
    assert [0, 1, 3, 2, 4] + [5] == [0, 1, 3, 2, 4, 5];
  }

  lemma CyclicOut7(g: Graph)
    requires IsCyclic(g)
    ensures Neighbours(g, 7) == [6]
  {
    assert NeighboursFrom(g.edges, 7, 8) == [];
    assert NeighboursFrom(g.edges, 7, 7) == [6];
    assert NeighboursFrom(g.edges, 7, 6) == [6];
    assert NeighboursFrom(g.edges, 7, 5) == [6];
    assert NeighboursFrom(g.edges, 7, 4) == [6];
    assert NeighboursFrom(g.edges, 7, 3) == [6];
    assert NeighboursFrom(g.edges, 7, 2) == [6];
    assert NeighboursFrom(g.edges, 7, 1) == [6];
    assert NeighboursFrom(g.edges, 7, 0) == [6];
  }

  lemma CyclicStep6(g: Graph)
    requires IsCyclic(g)
    ensures ItNext(g, ItState([7], {1, 2, 3, 4, 5, 7}, [0, 1, 3, 2, 4, 5]))
         == ItState([6], {1, 2, 3, 4, 5, 6, 7}, [0, 1, 3, 2, 4, 5, 7])
  {
    CyclicOut7(g);
    assert [7][1..] == [];
    assert [6][..0] == [];
    assert {1, 2, 3, 4, 5, 7} + {6} == {1, 2, 3, 4, 5, 6, 7};
    assert [6] + [] == [6];
    assert [0, 1, 3, 2, 4, 5] + [7] == [0, 1, 3, 2, 4, 5, 7];
  }

  /** `find_it_success`: the walk enters both cycles once and stops at 6. */
  lemma CyclicTo6(g: Graph)
    requires IsCyclic(g)
    ensures ItLoop(g, 6, ItStart(0)) == ItOutcome([0, 1, 3, 2, 4, 5, 7, 6], Some(6))
  {
    CyclicStep0(g);
    ItLoopStep(g, 6, ItState([0], {}, []), ItState([1], {1}, [0]));
    CyclicStep1(g);
    ItLoopStep(g, 6, ItState([1], {1}, [0]), ItState([3], {1, 3}, [0, 1]));
    CyclicStep2(g);
    ItLoopStep(g, 6, ItState([3], {1, 3}, [0, 1]), ItState([2, 4], {1, 2, 3, 4}, [0, 1, 3]));
    CyclicStep3(g);
    ItLoopStep(g, 6, ItState([2, 4], {1, 2, 3, 4}, [0, 1, 3]), ItState([4], {1, 2, 3, 4}, [0, 1, 3, 2]));
    CyclicStep4(g);
    ItLoopStep(g, 6, ItState([4], {1, 2, 3, 4}, [0, 1, 3, 2]), ItState([5], {1, 2, 3, 4, 5}, [0, 1, 3, 2, 4]));
    CyclicStep5(g);
    ItLoopStep(g, 6, ItState([5], {1, 2, 3, 4, 5}, [0, 1, 3, 2, 4]), ItState([7], {1, 2, 3, 4, 5, 7}, [0, 1, 3, 2, 4, 5]));
    CyclicStep6(g);
    ItLoopStep(g, 6, ItState([7], {1, 2, 3, 4, 5, 7}, [0, 1, 3, 2, 4, 5]), ItState([6], {1, 2, 3, 4, 5, 6, 7}, [0, 1, 3, 2, 4, 5, 7]));
    assert [0, 1, 3, 2, 4, 5, 7] + [6] == [0, 1, 3, 2, 4, 5, 7, 6];
  }

  /** `find_it_success_2`: the same walk stopped at 4. */
  lemma CyclicTo4(g: Graph)
    requires IsCyclic(g)
    ensures ItLoop(g, 4, ItStart(0)) == ItOutcome([0, 1, 3, 2, 4], Some(4))
  {
    CyclicStep0(g);
    ItLoopStep(g, 4, ItState([0], {}, []), ItState([1], {1}, [0]));
    CyclicStep1(g);
    ItLoopStep(g, 4, ItState([1], {1}, [0]), ItState([3], {1, 3}, [0, 1]));
    CyclicStep2(g);
    ItLoopStep(g, 4, ItState([3], {1, 3}, [0, 1]), ItState([2, 4], {1, 2, 3, 4}, [0, 1, 3]));
    CyclicStep3(g);
    ItLoopStep(g, 4, ItState([2, 4], {1, 2, 3, 4}, [0, 1, 3]), ItState([4], {1, 2, 3, 4}, [0, 1, 3, 2]));
    assert [0, 1, 3, 2] + [4] == [0, 1, 3, 2, 4];
  }

  /** The tree of the recursive tests: ids 0 to 6 holding 1 to 7; 0 has the
      children 1 and 2, 1 has 3 and 4, 2 has 5 and 6. */
  ghost predicate IsBinary(g: Graph)
  {
    && |g.nodes| == 7 && g.nodes[0] == 1 && g.nodes[1] == 2 && g.nodes[2] == 3
    && g.nodes[3] == 4 && g.nodes[4] == 5 && g.nodes[5] == 6 && g.nodes[6] == 7
    && |g.edges| == 6 && g.edges[0] == (0, 1) && g.edges[1] == (0, 2) && g.edges[2] == (1, 3)
    && g.edges[3] == (1, 4) && g.edges[4] == (2, 5) && g.edges[5] == (2, 6)
  }

  /** Each node's height in the tree. */
  const BinaryRank: seq<nat> := [2, 1, 1, 0, 0, 0, 0]

  lemma BinaryRanked(g: Graph)
    requires IsBinary(g)
    ensures Ranked(g, BinaryRank)
  {
  }

  lemma BinaryInner(g: Graph)
    requires IsBinary(g)
    ensures Neighbours(g, 0) == [1, 2] && Neighbours(g, 1) == [3, 4] && Neighbours(g, 2) == [5, 6]
  {
    assert NeighboursFrom(g.edges, 0, 5) == [];
    assert NeighboursFrom(g.edges, 0, 4) == [];
    assert NeighboursFrom(g.edges, 0, 3) == [];
    assert NeighboursFrom(g.edges, 0, 2) == [];
    assert NeighboursFrom(g.edges, 0, 1) == [2];
    assert NeighboursFrom(g.edges, 0, 0) == [1, 2];
    assert NeighboursFrom(g.edges, 1, 5) == [];
    assert NeighboursFrom(g.edges, 1, 4) == [];
    assert NeighboursFrom(g.edges, 1, 3) == [4];
    assert NeighboursFrom(g.edges, 1, 2) == [3, 4];
    assert NeighboursFrom(g.edges, 1, 1) == [3, 4];
    assert NeighboursFrom(g.edges, 1, 0) == [3, 4];
    assert NeighboursFrom(g.edges, 2, 5) == [6];
    assert NeighboursFrom(g.edges, 2, 4) == [5, 6];
    assert NeighboursFrom(g.edges, 2, 3) == [5, 6];
    assert NeighboursFrom(g.edges, 2, 2) == [5, 6];
    assert NeighboursFrom(g.edges, 2, 1) == [5, 6];
    assert NeighboursFrom(g.edges, 2, 0) == [5, 6];
  }

  lemma BinaryLeaf(g: Graph, n: nat)
    requires IsBinary(g) && 3 <= n
    ensures Neighbours(g, n) == []
  {
    assert NeighboursFrom(g.edges, n, 5) == [];
    assert NeighboursFrom(g.edges, n, 4) == [];
    assert NeighboursFrom(g.edges, n, 3) == [];
    assert NeighboursFrom(g.edges, n, 2) == [];
    assert NeighboursFrom(g.edges, n, 1) == [];
    assert NeighboursFrom(g.edges, n, 0) == [];
  }

  /** The recursion into a node without neighbours. */
  lemma LeafRec(g: Graph, rank: seq<nat>, path: seq<nat>, n: nat, target: nat)
    requires Ranked(g, rank) && n < |g.nodes| && Neighbours(g, n) == []
    ensures DfsRec(g, rank, path, n, target) == (Enter(path, n), if g.nodes[n] == target then Some(n) else None)
  {
  }

  /** The recursion into a node whose two neighbours have none of their own. */
  lemma PairRec(g: Graph, rank: seq<nat>, path: seq<nat>, n: nat, a: nat, b: nat, target: nat)
    requires Ranked(g, rank) && n < |g.nodes| && g.nodes[n] != target
    requires Neighbours(g, n) == [a, b] && a < |g.nodes| && b < |g.nodes|
    requires Neighbours(g, a) == [] && Neighbours(g, b) == []
    ensures DfsRec(g, rank, path, n, target) ==
      if g.nodes[a] == target then (Enter(Enter(path, n), a), Some(a))
      else (Enter(Enter(Enter(path, n), a), b), if g.nodes[b] == target then Some(b) else None)
  {
    RankedNeighbours(g, rank, n);
    assert a in Neighbours(g, n) && b in Neighbours(g, n);
    var p := Enter(path, n);
    LeafRec(g, rank, p, a, target);
    LeafRec(g, rank, Enter(p, a), b, target);
    assert [a, b][1..] == [b] && [b][1..] == [];
    var r := DfsRec(g, rank, Enter(p, a), b, target);
    assert DfsEach(g, rank, Enter(p, a), [b], target, rank[n]) == r;
    assert DfsRec(g, rank, path, n, target) == DfsEach(g, rank, p, [a, b], target, rank[n]);
  }

  /** Below id 1 the search enters 3 and 4 and finds nothing, unless one
      of the three holds the target. */
  lemma BinaryLeft(g: Graph, t: nat)
    requires IsBinary(g) && t != 2 && t != 4 && t != 5
    ensures Ranked(g, BinaryRank) && DfsRec(g, BinaryRank, [0], 1, t) == ([0, 1, 3, 4], None)
  {
    BinaryRanked(g);
    BinaryInner(g);
    BinaryLeaf(g, 3);
    BinaryLeaf(g, 4);
    assert Enter([0], 1) == [0, 1] && Enter([0, 1], 3) == [0, 1, 3] && Enter([0, 1, 3], 4) == [0, 1, 3, 4];
    PairRec(g, BinaryRank, [0], 1, 3, 4, t);
  }

  /** Below id 2 the search enters 5, and 6 unless 5 holds the target. */
  lemma BinaryRight(g: Graph, t: nat)
    requires IsBinary(g) && t != 3
    ensures Ranked(g, BinaryRank)
    ensures DfsRec(g, BinaryRank, [0, 1, 3, 4], 2, t) ==
      if t == 6 then ([0, 1, 3, 4, 2, 5], Some(5))
      else ([0, 1, 3, 4, 2, 5, 6], if t == 7 then Some(6) else None)
  {
    BinaryRanked(g);
    BinaryInner(g);
    BinaryLeaf(g, 5);
    BinaryLeaf(g, 6);
    assert Enter([0, 1, 3, 4], 2) == [0, 1, 3, 4, 2] && Enter([0, 1, 3, 4, 2], 5) == [0, 1, 3, 4, 2, 5];
    assert Enter([0, 1, 3, 4, 2, 5], 6) == [0, 1, 3, 4, 2, 5, 6];
    PairRec(g, BinaryRank, [0, 1, 3, 4], 2, 5, 6, t);
  }

  /** From the root the search enters the subtree of 1, then that of 2. */
  lemma BinaryRoot(g: Graph, t: nat)
    requires IsBinary(g) && t != 1 && t != 2 && t != 4 && t != 5
    ensures Ranked(g, BinaryRank)
    ensures DfsRec(g, BinaryRank, [], 0, t) == DfsRec(g, BinaryRank, [0, 1, 3, 4], 2, t)
  {
    BinaryLeft(g, t);
    BinaryInner(g);
    assert Enter([], 0) == [0] && BinaryRank[0] == 2;
    assert [1, 2][1..] == [2];
    var r := DfsRec(g, BinaryRank, [0, 1, 3, 4], 2, t);
    assert DfsEach(g, BinaryRank, [0, 1, 3, 4], [2], t, 2) == r by {
      assert [2][1..] == [];
    }
  }

  /** `find_rec_fail`: every node is entered once, in depth-first order,
      and the value 99 is not found. */
  lemma BinaryMisses(g: Graph)
    requires IsBinary(g)
    ensures Ranked(g, BinaryRank)
    ensures DfsRec(g, BinaryRank, [], 0, 99) == ([0, 1, 3, 4, 2, 5, 6], None)
  {
    BinaryRoot(g, 99);
    BinaryRight(g, 99);
  }

  /** `find_rec_success`: the search stops at the value 6, at id 5, before
      entering id 6. */
  lemma BinaryFinds(g: Graph)
    requires IsBinary(g)
    ensures Ranked(g, BinaryRank)
    ensures DfsRec(g, BinaryRank, [], 0, 6) == ([0, 1, 3, 4, 2, 5], Some(5))
  {
    BinaryRoot(g, 6);
    BinaryRight(g, 6);
  }
}
