/** `breadth_first_search` of src/traversal/breadth_first_search.rs: a FIFO
    queue of ids and a visited set marked on enqueue (the root included);
    each dequeued node's value is appended to `path`, and the search stops at
    the first node whose value is the target's.  `BfsLoop` is the loop as a
    function of its state; the method runs the same loop and is tied to it. */
module Bfs {
  import opened Base
  import opened TravGraph

  /** The loop state; `order` (the dequeued ids) is bookkeeping of the model. */
  datatype State = State(queue: seq<nat>, visited: set<nat>, path: seq<nat>, order: seq<nat>)

  datatype Outcome = Outcome(path: seq<nat>, found: Option<nat>, order: seq<nat>)

  /** The `for` loop over the neighbours: `visited.insert` and, when the id
      is new, `push_back`. */
  function Enqueue(ns: seq<nat>, q: seq<nat>, v: set<nat>): (seq<nat>, set<nat>)
    decreases |ns|
  {
    if ns == [] then (q, v)
    else if ns[0] in v then Enqueue(ns[1..], q, v)
    else Enqueue(ns[1..], q + [ns[0]], v + {ns[0]})
  }

  /** The neighbours are all marked, and each id new to the visited set is
      queued once behind the old queue. */
  lemma {:induction false} EnqueueFacts(ns: seq<nat>, q: seq<nat>, v: set<nat>)
    ensures v <= Enqueue(ns, q, v).1
    ensures forall x :: x in Enqueue(ns, q, v).1 <==> x in v || x in ns
    ensures forall x :: multiset(Enqueue(ns, q, v).0)[x] ==
              multiset(q)[x] + (if x in Enqueue(ns, q, v).1 && x !in v then 1 else 0)
    ensures forall x :: x in Enqueue(ns, q, v).0 ==> x in q || x in ns
    ensures Enqueue(ns, q, v).1 == v ==> Enqueue(ns, q, v).0 == q
    decreases |ns|
  {
    if ns != [] {
      assert forall x :: x in ns <==> x == ns[0] || x in ns[1..];
      if ns[0] in v {
        EnqueueFacts(ns[1..], q, v);
      } else {
        EnqueueFacts(ns[1..], q + [ns[0]], v + {ns[0]});
      }
    }
  }

  /** The visited set grows by a new in-range id, or nothing changes. */
  lemma EnqueueProgress(ns: seq<nat>, q: seq<nat>, v: set<nat>, n: nat)
    requires forall y :: y in ns ==> y < n
    ensures Enqueue(ns, q, v).1 == v || |Range(n) - Enqueue(ns, q, v).1| < |Range(n) - v|
  {
    var r := Enqueue(ns, q, v);
    EnqueueFacts(ns, q, v);
    if r.1 != v {
      var x :| x in r.1 && x !in v;
      GrowShrinksRest(Range(n), v, r.1, x);
    }
  }

  /** Every queued id indexes `nodes`. */
  ghost predicate QueueInRange(g: Graph, s: State)
  {
    forall x :: x in s.queue ==> x < |g.nodes|
  }

  /** One turn of the loop past a node that is not the target: dequeue it,
      append its value, enqueue its new neighbours. */
  function Next(g: Graph, s: State): State
    requires s.queue != [] && s.queue[0] < |g.nodes|
  {
    var id := s.queue[0];
    var (q, v) := Enqueue(Neighbours(g, id), s.queue[1..], s.visited);
    State(q, v, s.path + [g.nodes[id]], s.order + [id])
  }

  /** A turn, given the neighbour list of the dequeued node and what the
      `for` loop makes of it. */
  lemma NextIs(g: Graph, s: State, ns: seq<nat>, q: seq<nat>, v: set<nat>)
    requires s.queue != [] && s.queue[0] < |g.nodes| && Neighbours(g, s.queue[0]) == ns
    requires Enqueue(ns, s.queue[1..], s.visited) == (q, v)
    ensures Next(g, s) == State(q, v, s.path + [g.nodes[s.queue[0]]], s.order + [s.queue[0]])
  {
  }

  /** A turn keeps the queue in range, and grows the visited set or
      shortens the queue. */
  lemma NextFacts(g: Graph, s: State)
    requires DstsInRange(g) && QueueInRange(g, s) && s.queue != []
    ensures s.queue[0] < |g.nodes| && QueueInRange(g, Next(g, s))
    ensures || (Next(g, s).visited == s.visited && |Next(g, s).queue| < |s.queue|)
            || |Range(|g.nodes|) - Next(g, s).visited| < |Range(|g.nodes|) - s.visited|
  {
    var id := s.queue[0];
    assert id in s.queue;
    assert forall x :: x in s.queue[1..] ==> x in s.queue;
    NeighboursInRange(g, id);
    EnqueueFacts(Neighbours(g, id), s.queue[1..], s.visited);
    EnqueueProgress(Neighbours(g, id), s.queue[1..], s.visited, |g.nodes|);
  }

  /** The `while let` loop. */
  function BfsLoop(g: Graph, target: nat, s: State): Outcome
    requires DstsInRange(g) && QueueInRange(g, s)
    decreases |Range(|g.nodes|) - s.visited|, |s.queue|
  {
    if s.queue == [] then Outcome(s.path, None, s.order)
    else
      assert s.queue[0] in s.queue;
      if g.nodes[s.queue[0]] == target then
        Outcome(s.path + [target], Some(s.queue[0]), s.order + [s.queue[0]])
      else
        NextFacts(g, s);
        BfsLoop(g, target, Next(g, s))
  }

  function Start(root: nat): State
  {
    State([root], {root}, [], [])
  }

  /** `path` holds the values of the dequeued ids, in dequeue order. */
  ghost predicate Matches(g: Graph, s: State)
  {
    && |s.path| == |s.order|
    && forall k :: 0 <= k < |s.order| ==> s.order[k] < |g.nodes| && s.path[k] == g.nodes[s.order[k]]
  }

  /** Each visited id was dequeued or is queued, exactly once overall. */
  ghost predicate Counted(s: State)
  {
    forall x :: multiset(s.order + s.queue)[x] == if x in s.visited then 1 else 0
  }

  /** No dequeued id holds the target value. */
  ghost predicate Misses(g: Graph, target: nat, s: State)
  {
    forall k :: 0 <= k < |s.order| && s.order[k] < |g.nodes| ==> g.nodes[s.order[k]] != target
  }

  /** The neighbours of every dequeued id are visited. */
  ghost predicate Expanded(g: Graph, s: State)
  {
    forall x, y :: x in s.order && y in Neighbours(g, x) ==> y in s.visited
  }

  /** Every visited id is reachable from the root. */
  ghost predicate ReachAll(g: Graph, root: nat, s: State)
  {
    forall x :: x in s.visited ==> Reachable(g, root, x)
  }

  /** The search from `root`: the invariant the loop keeps. */
  ghost predicate Inv(g: Graph, root: nat, target: nat, s: State)
  {
    && QueueInRange(g, s) && Matches(g, s) && Counted(s) && root in s.visited
    && Misses(g, target, s) && Expanded(g, s) && ReachAll(g, root, s)
  }

  lemma InitInv(g: Graph, root: nat, target: nat)
    requires root < |g.nodes|
    ensures Inv(g, root, target, Start(root))
  {
    ReachableSelf(g, root);
    assert [] + [root] == [root];
  }

  /** A counted state's head of queue is visited and not yet dequeued. */
  lemma HeadCounted(s: State)
    requires Counted(s) && s.queue != []
    ensures s.queue[0] in s.visited && s.queue[0] !in s.order
    ensures multiset(s.order + s.queue) == multiset(s.order) + multiset{s.queue[0]} + multiset(s.queue[1..])
  {
    assert s.queue == [s.queue[0]] + s.queue[1..];
    assert s.order + s.queue == s.order + [s.queue[0]] + s.queue[1..];
    assert multiset(s.order + s.queue)[s.queue[0]] == 1;
  }

  lemma StepCounted(s: State, q: seq<nat>, v: set<nat>, p: seq<nat>)
    requires Counted(s) && s.queue != [] && s.visited <= v
    requires forall x :: multiset(q)[x] == multiset(s.queue[1..])[x] + (if x in v && x !in s.visited then 1 else 0)
    ensures Counted(State(q, v, p, s.order + [s.queue[0]]))
  {
    HeadCounted(s);
    var s' := State(q, v, p, s.order + [s.queue[0]]);
    assert multiset(s'.order + s'.queue) == multiset(s.order) + multiset{s.queue[0]} + multiset(q);
  }

  lemma StepMatches(g: Graph, target: nat, s: State, id: nat, q: seq<nat>, v: set<nat>)
    requires Matches(g, s) && Misses(g, target, s) && id < |g.nodes| && g.nodes[id] != target
    ensures Matches(g, State(q, v, s.path + [g.nodes[id]], s.order + [id]))
    ensures Misses(g, target, State(q, v, s.path + [g.nodes[id]], s.order + [id]))
  {
    var s' := State(q, v, s.path + [g.nodes[id]], s.order + [id]);
    forall k | 0 <= k < |s'.order|
      ensures s'.order[k] < |g.nodes| && s'.path[k] == g.nodes[s'.order[k]] && g.nodes[s'.order[k]] != target
    {
      if k < |s.order| {
        assert s'.order[k] == s.order[k] && s'.path[k] == s.path[k];
      }
    }
  }

  lemma StepExpanded(g: Graph, s: State, id: nat, q: seq<nat>, v: set<nat>, p: seq<nat>)
    requires Expanded(g, s) && s.visited <= v && forall y :: y in Neighbours(g, id) ==> y in v
    ensures Expanded(g, State(q, v, p, s.order + [id]))
  {
    forall x, y | x in s.order + [id] && y in Neighbours(g, x) ensures y in v {
      if x != id {
        assert x in s.order;
      }
    }
  }

  lemma StepReach(g: Graph, root: nat, s: State, id: nat, q: seq<nat>, v: set<nat>, p: seq<nat>, o: seq<nat>)
    requires ReachAll(g, root, s) && id in s.visited
    requires forall y :: y in v ==> y in s.visited || y in Neighbours(g, id)
    ensures ReachAll(g, root, State(q, v, p, o))
  {
    forall y | y in v ensures Reachable(g, root, y) {
      if y !in s.visited {
        ReachableStep(g, root, id, y);
      }
    }
  }

  /** Dequeuing a node that is not the target and enqueuing its new
      neighbours keeps the invariant. */
  lemma StepInv(g: Graph, root: nat, target: nat, s: State)
    requires DstsInRange(g) && Inv(g, root, target, s) && s.queue != [] && s.queue[0] < |g.nodes|
    requires g.nodes[s.queue[0]] != target
    ensures Inv(g, root, target, Next(g, s))
  {
    var id := s.queue[0];
    var (q, v) := Enqueue(Neighbours(g, s.queue[0]), s.queue[1..], s.visited);
    var p := s.path + [g.nodes[id]];
    assert Next(g, s) == State(q, v, p, s.order + [id]);
    NextFacts(g, s);
    EnqueueFacts(Neighbours(g, id), s.queue[1..], s.visited);
    HeadCounted(s);
    StepCounted(s, q, v, p);
    StepMatches(g, target, s, id, q, v);
    StepExpanded(g, s, id, q, v, p);
    StepReach(g, root, s, id, q, v, p, s.order + [id]);
  }

  /** Once the queue is empty, the visited set is closed under neighbours,
      so it holds every reachable id, and none of them has the target value. */
  lemma EmptyQueue(g: Graph, root: nat, target: nat, s: State)
    requires Inv(g, root, target, s) && s.queue == []
    ensures forall x: nat :: x < |g.nodes| && Reachable(g, root, x) ==> g.nodes[x] != target
  {
    assert s.order + s.queue == s.order;
    forall a, b | a in s.visited && b in Neighbours(g, a) ensures b in s.visited {
      assert multiset(s.order)[a] == 1;
    }
    forall x: nat | x < |g.nodes| && Reachable(g, root, x) ensures g.nodes[x] != target {
      var ns :| Path(g, ns, root, x);
      ClosedHoldsReachable(g, s.visited, ns, root, x);
      assert multiset(s.order)[x] == 1;
      var k :| 0 <= k < |s.order| && s.order[k] == x;
    }
  }

  /** At most one of each id, as counted by `Counted`. */
  lemma CountedOrder(s: State)
    requires Counted(s)
    ensures forall x :: multiset(s.order)[x] <= 1
  {
    forall x ensures multiset(s.order)[x] <= 1 {
      assert multiset(s.order + s.queue)[x] == multiset(s.order)[x] + multiset(s.queue)[x];
    }
  }

  /** Dequeuing the target: the outcome's facts. */
  lemma FoundHead(g: Graph, root: nat, target: nat, s: State)
    requires Inv(g, root, target, s) && s.queue != [] && s.queue[0] < |g.nodes|
    ensures Reachable(g, root, s.queue[0])
    ensures Matches(g, State([], {}, s.path + [g.nodes[s.queue[0]]], s.order + [s.queue[0]]))
    ensures forall x :: multiset(s.order + [s.queue[0]])[x] <= 1
  {
    var id := s.queue[0];
    HeadCounted(s);
    CountedOrder(State(s.queue[1..], s.visited, s.path, s.order + [id])) by {
      assert s.order + [id] + s.queue[1..] == s.order + s.queue;
    }
    var s' := State([], {}, s.path + [g.nodes[id]], s.order + [id]);
    forall k | 0 <= k < |s'.order| ensures s'.order[k] < |g.nodes| && s'.path[k] == g.nodes[s'.order[k]] {
      if k < |s.order| {
        assert s'.order[k] == s.order[k] && s'.path[k] == s.path[k];
      }
    }
  }

  /** What the search promises of its outcome: a found id holds the target
      value, is reachable, and its value ends the path; `None` means no
      reachable node holds the target value; the path lists the values of
      the dequeued ids, each dequeued at most once. */
  ghost predicate Sound(g: Graph, root: nat, target: nat, r: Outcome)
  {
    && (r.found.Some? ==>
          && r.found.value < |g.nodes| && g.nodes[r.found.value] == target
          && Reachable(g, root, r.found.value)
          && |r.path| > 0 && r.path[|r.path| - 1] == target)
    && (r.found.None? ==> forall x: nat :: x < |g.nodes| && Reachable(g, root, x) ==> g.nodes[x] != target)
    && Matches(g, State([], {}, r.path, r.order))
    && forall x :: multiset(r.order)[x] <= 1
  }

  /** From any state that keeps the invariant, the loop's outcome is sound. */
  lemma {:induction false} LoopOutcome(g: Graph, root: nat, target: nat, s: State)
    requires DstsInRange(g) && Inv(g, root, target, s)
    ensures Sound(g, root, target, BfsLoop(g, target, s))
    decreases |Range(|g.nodes|) - s.visited|, |s.queue|
  {
    if s.queue == [] {
      EmptyQueue(g, root, target, s);
      CountedOrder(s);
    } else {
      var id := s.queue[0];
      assert id in s.queue;
      if g.nodes[id] == target {
        FoundHead(g, root, target, s);
      } else {
        NextFacts(g, s);
        StepInv(g, root, target, s);
        LoopOutcome(g, root, target, Next(g, s));
      }
    }
  }

  /** The `for` loop over the neighbours, run in place. */
  method EnqueueAll(ns: seq<nat>, q: seq<nat>, v: set<nat>) returns (queue: seq<nat>, visited: set<nat>)
    ensures (queue, visited) == Enqueue(ns, q, v)
  {
    queue, visited := q, v;
    for i := 0 to |ns|
      invariant Enqueue(ns[i..], queue, visited) == Enqueue(ns, q, v)
    {
      assert ns[i..] == [ns[i]] + ns[i + 1..];
      if ns[i] !in visited {
        visited := visited + {ns[i]};
        queue := queue + [ns[i]];
      }
    }
    assert ns[|ns|..] == [];
  }

  /** `breadth_first_search`, with the queue as a sequence. */
  method BreadthFirstSearch(g: Graph, root: nat, target: nat) returns (path: seq<nat>, found: Option<nat>)
    requires DstsInRange(g) && root < |g.nodes|
    ensures path == BfsLoop(g, target, Start(root)).path && found == BfsLoop(g, target, Start(root)).found
    ensures found.Some? ==> found.value < |g.nodes| && g.nodes[found.value] == target && Reachable(g, root, found.value)
    ensures found.Some? ==> |path| > 0 && path[|path| - 1] == target
    ensures found.None? <==> forall x: nat :: x < |g.nodes| && Reachable(g, root, x) ==> g.nodes[x] != target
  {
    InitInv(g, root, target);
    LoopOutcome(g, root, target, Start(root));
    assert Sound(g, root, target, BfsLoop(g, target, Start(root)));
    path := [];
    var visited: set<nat> := {root};
    var queue: seq<nat> := [root];
    ghost var order: seq<nat> := [];
    while queue != []
      invariant QueueInRange(g, State(queue, visited, path, order))
      invariant BfsLoop(g, target, State(queue, visited, path, order)) == BfsLoop(g, target, Start(root))
      decreases |Range(|g.nodes|) - visited|, |queue|
    {
      ghost var s := State(queue, visited, path, order);
      var id := queue[0];
      assert id in queue;
      if g.nodes[id] == target {
        return path + [g.nodes[id]], Some(id);
      }
      NextFacts(g, s);
      queue, visited := EnqueueAll(Neighbours(g, id), queue[1..], visited);
      path := path + [g.nodes[id]];
      order := order + [id];
      assert State(queue, visited, path, order) == Next(g, s);
    }
    found := None;
  }

  /** Unrolling one turn of the loop. */
  lemma LoopStep(g: Graph, target: nat, s: State, s': State)
    requires DstsInRange(g) && QueueInRange(g, s) && s.queue != [] && s.queue[0] < |g.nodes|
    requires g.nodes[s.queue[0]] != target && Next(g, s) == s'
    ensures QueueInRange(g, s') && BfsLoop(g, target, s) == BfsLoop(g, target, s')
  {
    NextFacts(g, s);
  }

  /** The first graph of the source's tests: a tree rooted at 0. */
  ghost predicate IsTree(g: Graph)
  {
    && |g.nodes| == 8 && g.nodes[0] == 1 && g.nodes[1] == 2 && g.nodes[2] == 3
    && g.nodes[3] == 4 && g.nodes[4] == 5 && g.nodes[5] == 6 && g.nodes[6] == 7
    && g.nodes[7] == 8 && |g.edges| == 7 && g.edges[0] == (0, 1) && g.edges[1] == (0, 2)
    && g.edges[2] == (1, 3) && g.edges[3] == (1, 4) && g.edges[4] == (2, 5)
    && g.edges[5] == (2, 6) && g.edges[6] == (4, 7)
  }

  /** The second graph: two undirected components, and node 7 alone. */
  ghost predicate IsComponents(g: Graph)
  {
    && |g.nodes| == 8 && g.nodes[0] == 1 && g.nodes[1] == 2 && g.nodes[2] == 3
    && g.nodes[3] == 4 && g.nodes[4] == 5 && g.nodes[5] == 6 && g.nodes[6] == 7
    && g.nodes[7] == 8 && |g.edges| == 14 && g.edges[0] == (0, 1) && g.edges[1] == (1, 0)
    && g.edges[2] == (1, 4) && g.edges[3] == (4, 1) && g.edges[4] == (1, 5)
    && g.edges[5] == (5, 1) && g.edges[6] == (2, 3) && g.edges[7] == (3, 2)
    && g.edges[8] == (2, 5) && g.edges[9] == (5, 2) && g.edges[10] == (3, 6)
    && g.edges[11] == (6, 3) && g.edges[12] == (5, 6) && g.edges[13] == (6, 5)
  }

  lemma TreeNeighbours0(g: Graph)
    requires IsTree(g)
    ensures Neighbours(g, 0) == [1, 2]
  {
    assert NeighboursFrom(g.edges, 0, 6) == [];
    assert NeighboursFrom(g.edges, 0, 5) == [];
    assert NeighboursFrom(g.edges, 0, 4) == [];
    assert NeighboursFrom(g.edges, 0, 3) == [];
    assert NeighboursFrom(g.edges, 0, 2) == [];
    assert NeighboursFrom(g.edges, 0, 1) == [2];
    assert NeighboursFrom(g.edges, 0, 0) == [1, 2];
  }

  lemma TreeStep0(g: Graph)
    requires IsTree(g)
    ensures Next(g, State([0], {0}, [], []))
         == State([1, 2], {0, 1, 2}, [1], [0])
  {
    TreeNeighbours0(g);
    assert [0][1..] == [];
    assert Enqueue([1, 2], [], {0}) == ([1, 2], {0, 1, 2}) by {
      assert [] + [1] == [1];
      assert [1, 2][1..] == [2];
      assert {0} + {1} == {0, 1};
      assert [2][1..] == [];
      assert {0, 1} + {2} == {0, 1, 2};
      assert [1] + [2] == [1, 2];
    }
    assert [] + [1] == [1];
    assert [] + [1] == [1];
    assert [] + [0] == [0];
    NextIs(g, State([0], {0}, [], []), [1, 2], [1, 2], {0, 1, 2});
  }

  lemma TreeNeighbours1(g: Graph)
    requires IsTree(g)
    ensures Neighbours(g, 1) == [3, 4]
  {
    assert NeighboursFrom(g.edges, 1, 6) == [];
    assert NeighboursFrom(g.edges, 1, 5) == [];
    assert NeighboursFrom(g.edges, 1, 4) == [];
    assert NeighboursFrom(g.edges, 1, 3) == [4];
    assert NeighboursFrom(g.edges, 1, 2) == [3, 4];
    assert NeighboursFrom(g.edges, 1, 1) == [3, 4];
    assert NeighboursFrom(g.edges, 1, 0) == [3, 4];
  }

  lemma TreeStep1(g: Graph)
    requires IsTree(g)
    ensures Next(g, State([1, 2], {0, 1, 2}, [1], [0]))
         == State([2, 3, 4], {0, 1, 2, 3, 4}, [1, 2], [0, 1])
  {
    TreeNeighbours1(g);
    assert [1, 2][1..] == [2];
    assert Enqueue([3, 4], [2], {0, 1, 2}) == ([2, 3, 4], {0, 1, 2, 3, 4}) by {
      assert [3, 4][1..] == [4];
      assert {0, 1, 2} + {3} == {0, 1, 2, 3};
      assert [2] + [3] == [2, 3];
      assert [4][1..] == [];
      assert {0, 1, 2, 3} + {4} == {0, 1, 2, 3, 4};
      assert [2, 3] + [4] == [2, 3, 4];
    }
    assert [1] + [2] == [1, 2];
    assert [0] + [1] == [0, 1];
    NextIs(g, State([1, 2], {0, 1, 2}, [1], [0]), [3, 4], [2, 3, 4], {0, 1, 2, 3, 4});
  }

  lemma TreeNeighbours2(g: Graph)
    requires IsTree(g)
    ensures Neighbours(g, 2) == [5, 6]
  {
    assert NeighboursFrom(g.edges, 2, 6) == [];
    assert NeighboursFrom(g.edges, 2, 5) == [6];
    assert NeighboursFrom(g.edges, 2, 4) == [5, 6];
    assert NeighboursFrom(g.edges, 2, 3) == [5, 6];
    assert NeighboursFrom(g.edges, 2, 2) == [5, 6];
    assert NeighboursFrom(g.edges, 2, 1) == [5, 6];
    assert NeighboursFrom(g.edges, 2, 0) == [5, 6];
  }

  lemma TreeStep2(g: Graph)
    requires IsTree(g)
    ensures Next(g, State([2, 3, 4], {0, 1, 2, 3, 4}, [1, 2], [0, 1]))
         == State([3, 4, 5, 6], {0, 1, 2, 3, 4, 5, 6}, [1, 2, 3], [0, 1, 2])
  {
    TreeNeighbours2(g);
    assert [2, 3, 4][1..] == [3, 4];
    assert Enqueue([5, 6], [3, 4], {0, 1, 2, 3, 4}) == ([3, 4, 5, 6], {0, 1, 2, 3, 4, 5, 6}) by {
      assert [5, 6][1..] == [6];
      assert {0, 1, 2, 3, 4} + {5} == {0, 1, 2, 3, 4, 5};
      assert [3, 4] + [5] == [3, 4, 5];
      assert [6][1..] == [];
      assert {0, 1, 2, 3, 4, 5} + {6} == {0, 1, 2, 3, 4, 5, 6};
      assert [3, 4, 5] + [6] == [3, 4, 5, 6];
    }
    assert [1, 2] + [3] == [1, 2, 3];
    assert [0, 1] + [2] == [0, 1, 2];
    NextIs(g, State([2, 3, 4], {0, 1, 2, 3, 4}, [1, 2], [0, 1]), [5, 6], [3, 4, 5, 6], {0, 1, 2, 3, 4, 5, 6});
  }

  lemma TreeNeighbours3(g: Graph)
    requires IsTree(g)
    ensures Neighbours(g, 3) == []
  {
    assert NeighboursFrom(g.edges, 3, 6) == [];
    assert NeighboursFrom(g.edges, 3, 5) == [];
    assert NeighboursFrom(g.edges, 3, 4) == [];
    assert NeighboursFrom(g.edges, 3, 3) == [];
    assert NeighboursFrom(g.edges, 3, 2) == [];
    assert NeighboursFrom(g.edges, 3, 1) == [];
    assert NeighboursFrom(g.edges, 3, 0) == [];
  }

  lemma TreeStep3(g: Graph)
    requires IsTree(g)
    ensures Next(g, State([3, 4, 5, 6], {0, 1, 2, 3, 4, 5, 6}, [1, 2, 3], [0, 1, 2]))
         == State([4, 5, 6], {0, 1, 2, 3, 4, 5, 6}, [1, 2, 3, 4], [0, 1, 2, 3])
  {
    TreeNeighbours3(g);
    assert [3, 4, 5, 6][1..] == [4, 5, 6];
    assert Enqueue([], [4, 5, 6], {0, 1, 2, 3, 4, 5, 6}) == ([4, 5, 6], {0, 1, 2, 3, 4, 5, 6}) by {
    }
    assert [1, 2, 3] + [4] == [1, 2, 3, 4];
    assert [0, 1, 2] + [3] == [0, 1, 2, 3];
    NextIs(g, State([3, 4, 5, 6], {0, 1, 2, 3, 4, 5, 6}, [1, 2, 3], [0, 1, 2]), [], [4, 5, 6], {0, 1, 2, 3, 4, 5, 6});
  }

  lemma TreeNeighbours4(g: Graph)
    requires IsTree(g)
    ensures Neighbours(g, 4) == [7]
  {
    assert NeighboursFrom(g.edges, 4, 6) == [7];
    assert NeighboursFrom(g.edges, 4, 5) == [7];
    assert NeighboursFrom(g.edges, 4, 4) == [7];
    assert NeighboursFrom(g.edges, 4, 3) == [7];
    assert NeighboursFrom(g.edges, 4, 2) == [7];
    assert NeighboursFrom(g.edges, 4, 1) == [7];
    assert NeighboursFrom(g.edges, 4, 0) == [7];
  }

  lemma TreeStep4(g: Graph)
    requires IsTree(g)
    ensures Next(g, State([4, 5, 6], {0, 1, 2, 3, 4, 5, 6}, [1, 2, 3, 4], [0, 1, 2, 3]))
         == State([5, 6, 7], {0, 1, 2, 3, 4, 5, 6, 7}, [1, 2, 3, 4, 5], [0, 1, 2, 3, 4])
  {
    TreeNeighbours4(g);
    assert [4, 5, 6][1..] == [5, 6];
    assert Enqueue([7], [5, 6], {0, 1, 2, 3, 4, 5, 6}) == ([5, 6, 7], {0, 1, 2, 3, 4, 5, 6, 7}) by {
      assert [7][1..] == [];
      assert {0, 1, 2, 3, 4, 5, 6} + {7} == {0, 1, 2, 3, 4, 5, 6, 7};
      assert [5, 6] + [7] == [5, 6, 7];
    }
    assert [1, 2, 3, 4] + [5] == [1, 2, 3, 4, 5];
    assert [0, 1, 2, 3] + [4] == [0, 1, 2, 3, 4];
    NextIs(g, State([4, 5, 6], {0, 1, 2, 3, 4, 5, 6}, [1, 2, 3, 4], [0, 1, 2, 3]), [7], [5, 6, 7], {0, 1, 2, 3, 4, 5, 6, 7});
  }

  lemma TreeNeighbours5(g: Graph)
    requires IsTree(g)
    ensures Neighbours(g, 5) == []
  {
    assert NeighboursFrom(g.edges, 5, 6) == [];
    assert NeighboursFrom(g.edges, 5, 5) == [];
    assert NeighboursFrom(g.edges, 5, 4) == [];
    assert NeighboursFrom(g.edges, 5, 3) == [];
    assert NeighboursFrom(g.edges, 5, 2) == [];
    assert NeighboursFrom(g.edges, 5, 1) == [];
    assert NeighboursFrom(g.edges, 5, 0) == [];
  }

  lemma TreeStep5(g: Graph)
    requires IsTree(g)
    ensures Next(g, State([5, 6, 7], {0, 1, 2, 3, 4, 5, 6, 7}, [1, 2, 3, 4, 5], [0, 1, 2, 3, 4]))
         == State([6, 7], {0, 1, 2, 3, 4, 5, 6, 7}, [1, 2, 3, 4, 5, 6], [0, 1, 2, 3, 4, 5])
  {
    TreeNeighbours5(g);
    assert [5, 6, 7][1..] == [6, 7];
    assert Enqueue([], [6, 7], {0, 1, 2, 3, 4, 5, 6, 7}) == ([6, 7], {0, 1, 2, 3, 4, 5, 6, 7}) by {
    }
    assert [1, 2, 3, 4, 5] + [6] == [1, 2, 3, 4, 5, 6];
    assert [0, 1, 2, 3, 4] + [5] == [0, 1, 2, 3, 4, 5];
    NextIs(g, State([5, 6, 7], {0, 1, 2, 3, 4, 5, 6, 7}, [1, 2, 3, 4, 5], [0, 1, 2, 3, 4]), [], [6, 7], {0, 1, 2, 3, 4, 5, 6, 7});
  }

  lemma TreeNeighbours6(g: Graph)
    requires IsTree(g)
    ensures Neighbours(g, 6) == []
  {
    assert NeighboursFrom(g.edges, 6, 6) == [];
    assert NeighboursFrom(g.edges, 6, 5) == [];
    assert NeighboursFrom(g.edges, 6, 4) == [];
    assert NeighboursFrom(g.edges, 6, 3) == [];
    assert NeighboursFrom(g.edges, 6, 2) == [];
    assert NeighboursFrom(g.edges, 6, 1) == [];
    assert NeighboursFrom(g.edges, 6, 0) == [];
  }

  lemma TreeStep6(g: Graph)
    requires IsTree(g)
    ensures Next(g, State([6, 7], {0, 1, 2, 3, 4, 5, 6, 7}, [1, 2, 3, 4, 5, 6], [0, 1, 2, 3, 4, 5]))
         == State([7], {0, 1, 2, 3, 4, 5, 6, 7}, [1, 2, 3, 4, 5, 6, 7], [0, 1, 2, 3, 4, 5, 6])
  {
    TreeNeighbours6(g);
    assert [6, 7][1..] == [7];
    assert Enqueue([], [7], {0, 1, 2, 3, 4, 5, 6, 7}) == ([7], {0, 1, 2, 3, 4, 5, 6, 7}) by {
    }
    assert [1, 2, 3, 4, 5, 6] + [7] == [1, 2, 3, 4, 5, 6, 7];
    assert [0, 1, 2, 3, 4, 5] + [6] == [0, 1, 2, 3, 4, 5, 6];
    NextIs(g, State([6, 7], {0, 1, 2, 3, 4, 5, 6, 7}, [1, 2, 3, 4, 5, 6], [0, 1, 2, 3, 4, 5]), [], [7], {0, 1, 2, 3, 4, 5, 6, 7});
  }

  /** `bfs_success1`: level by level down the tree to the value 8, at id 7. */
  lemma TreeSearch(g: Graph)
    requires IsTree(g)
    ensures DstsInRange(g)
    ensures BfsLoop(g, 8, Start(0)).path == [1, 2, 3, 4, 5, 6, 7, 8]
    ensures BfsLoop(g, 8, Start(0)).found == Some(7)
  {
    assert DstsInRange(g);
    assert QueueInRange(g, Start(0));
    TreeStep0(g);
    LoopStep(g, 8, State([0], {0}, [], []), State([1, 2], {0, 1, 2}, [1], [0]));
    TreeStep1(g);
    LoopStep(g, 8, State([1, 2], {0, 1, 2}, [1], [0]), State([2, 3, 4], {0, 1, 2, 3, 4}, [1, 2], [0, 1]));
    TreeStep2(g);
    LoopStep(g, 8, State([2, 3, 4], {0, 1, 2, 3, 4}, [1, 2], [0, 1]), State([3, 4, 5, 6], {0, 1, 2, 3, 4, 5, 6}, [1, 2, 3], [0, 1, 2]));
    TreeStep3(g);
    LoopStep(g, 8, State([3, 4, 5, 6], {0, 1, 2, 3, 4, 5, 6}, [1, 2, 3], [0, 1, 2]), State([4, 5, 6], {0, 1, 2, 3, 4, 5, 6}, [1, 2, 3, 4], [0, 1, 2, 3]));
    TreeStep4(g);
    LoopStep(g, 8, State([4, 5, 6], {0, 1, 2, 3, 4, 5, 6}, [1, 2, 3, 4], [0, 1, 2, 3]), State([5, 6, 7], {0, 1, 2, 3, 4, 5, 6, 7}, [1, 2, 3, 4, 5], [0, 1, 2, 3, 4]));
    TreeStep5(g);
    LoopStep(g, 8, State([5, 6, 7], {0, 1, 2, 3, 4, 5, 6, 7}, [1, 2, 3, 4, 5], [0, 1, 2, 3, 4]), State([6, 7], {0, 1, 2, 3, 4, 5, 6, 7}, [1, 2, 3, 4, 5, 6], [0, 1, 2, 3, 4, 5]));
    TreeStep6(g);
    LoopStep(g, 8, State([6, 7], {0, 1, 2, 3, 4, 5, 6, 7}, [1, 2, 3, 4, 5, 6], [0, 1, 2, 3, 4, 5]), State([7], {0, 1, 2, 3, 4, 5, 6, 7}, [1, 2, 3, 4, 5, 6, 7], [0, 1, 2, 3, 4, 5, 6]));
    assert [1, 2, 3, 4, 5, 6, 7] + [8] == [1, 2, 3, 4, 5, 6, 7, 8];
  }

  lemma ComponentsNeighbours0(g: Graph)
    requires IsComponents(g)
    ensures Neighbours(g, 3) == [2, 6]
  {
    assert NeighboursFrom(g.edges, 3, 13) == [];
    assert NeighboursFrom(g.edges, 3, 12) == [];
    assert NeighboursFrom(g.edges, 3, 11) == [];
    assert NeighboursFrom(g.edges, 3, 10) == [6];
    assert NeighboursFrom(g.edges, 3, 9) == [6];
    assert NeighboursFrom(g.edges, 3, 8) == [6];
    assert NeighboursFrom(g.edges, 3, 7) == [2, 6];
    assert NeighboursFrom(g.edges, 3, 6) == [2, 6];
    assert NeighboursFrom(g.edges, 3, 5) == [2, 6];
    assert NeighboursFrom(g.edges, 3, 4) == [2, 6];
    assert NeighboursFrom(g.edges, 3, 3) == [2, 6];
    assert NeighboursFrom(g.edges, 3, 2) == [2, 6];
    assert NeighboursFrom(g.edges, 3, 1) == [2, 6];
    assert NeighboursFrom(g.edges, 3, 0) == [2, 6];
  }

  lemma ComponentsStep0(g: Graph)
    requires IsComponents(g)
    ensures Next(g, State([3], {3}, [], []))
         == State([2, 6], {2, 3, 6}, [4], [3])
  {
    ComponentsNeighbours0(g);
    assert [3][1..] == [];
    assert Enqueue([2, 6], [], {3}) == ([2, 6], {2, 3, 6}) by {
      assert [] + [2] == [2];
      assert [2, 6][1..] == [6];
      assert {3} + {2} == {2, 3};
      assert [6][1..] == [];
      assert {2, 3} + {6} == {2, 3, 6};
      assert [2] + [6] == [2, 6];
    }
    assert [] + [2] == [2];
    assert [] + [4] == [4];
    assert [] + [3] == [3];
    NextIs(g, State([3], {3}, [], []), [2, 6], [2, 6], {2, 3, 6});
  }

  lemma ComponentsNeighbours1(g: Graph)
    requires IsComponents(g)
    ensures Neighbours(g, 2) == [3, 5]
  {
    assert NeighboursFrom(g.edges, 2, 13) == [];
    assert NeighboursFrom(g.edges, 2, 12) == [];
    assert NeighboursFrom(g.edges, 2, 11) == [];
    assert NeighboursFrom(g.edges, 2, 10) == [];
    assert NeighboursFrom(g.edges, 2, 9) == [];
    assert NeighboursFrom(g.edges, 2, 8) == [5];
    assert NeighboursFrom(g.edges, 2, 7) == [5];
    assert NeighboursFrom(g.edges, 2, 6) == [3, 5];
    assert NeighboursFrom(g.edges, 2, 5) == [3, 5];
    assert NeighboursFrom(g.edges, 2, 4) == [3, 5];
    assert NeighboursFrom(g.edges, 2, 3) == [3, 5];
    assert NeighboursFrom(g.edges, 2, 2) == [3, 5];
    assert NeighboursFrom(g.edges, 2, 1) == [3, 5];
    assert NeighboursFrom(g.edges, 2, 0) == [3, 5];
  }

  lemma ComponentsStep1(g: Graph)
    requires IsComponents(g)
    ensures Next(g, State([2, 6], {2, 3, 6}, [4], [3]))
         == State([6, 5], {2, 3, 5, 6}, [4, 3], [3, 2])
  {
    ComponentsNeighbours1(g);
    assert [2, 6][1..] == [6];
    assert Enqueue([3, 5], [6], {2, 3, 6}) == ([6, 5], {2, 3, 5, 6}) by {
      assert [3, 5][1..] == [5];
      assert 3 in {2, 3, 6};
      assert [5][1..] == [];
      assert {2, 3, 6} + {5} == {2, 3, 5, 6};
      assert [6] + [5] == [6, 5];
    }
    assert [4] + [3] == [4, 3];
    assert [3] + [2] == [3, 2];
    NextIs(g, State([2, 6], {2, 3, 6}, [4], [3]), [3, 5], [6, 5], {2, 3, 5, 6});
  }

  lemma ComponentsNeighbours2(g: Graph)
    requires IsComponents(g)
    ensures Neighbours(g, 6) == [3, 5]
  {
    assert NeighboursFrom(g.edges, 6, 13) == [5];
    assert NeighboursFrom(g.edges, 6, 12) == [5];
    assert NeighboursFrom(g.edges, 6, 11) == [3, 5];
    assert NeighboursFrom(g.edges, 6, 10) == [3, 5];
    assert NeighboursFrom(g.edges, 6, 9) == [3, 5];
    assert NeighboursFrom(g.edges, 6, 8) == [3, 5];
    assert NeighboursFrom(g.edges, 6, 7) == [3, 5];
    assert NeighboursFrom(g.edges, 6, 6) == [3, 5];
    assert NeighboursFrom(g.edges, 6, 5) == [3, 5];
    assert NeighboursFrom(g.edges, 6, 4) == [3, 5];
    assert NeighboursFrom(g.edges, 6, 3) == [3, 5];
    assert NeighboursFrom(g.edges, 6, 2) == [3, 5];
    assert NeighboursFrom(g.edges, 6, 1) == [3, 5];
    assert NeighboursFrom(g.edges, 6, 0) == [3, 5];
  }

  lemma ComponentsStep2(g: Graph)
    requires IsComponents(g)
    ensures Next(g, State([6, 5], {2, 3, 5, 6}, [4, 3], [3, 2]))
         == State([5], {2, 3, 5, 6}, [4, 3, 7], [3, 2, 6])
  {
    ComponentsNeighbours2(g);
    assert [6, 5][1..] == [5];
    assert Enqueue([3, 5], [5], {2, 3, 5, 6}) == ([5], {2, 3, 5, 6}) by {
      assert [3, 5][1..] == [5];
      assert 3 in {2, 3, 5, 6};
      assert [5][1..] == [];
      assert 5 in {2, 3, 5, 6};
    }
    assert [4, 3] + [7] == [4, 3, 7];
    assert [3, 2] + [6] == [3, 2, 6];
    NextIs(g, State([6, 5], {2, 3, 5, 6}, [4, 3], [3, 2]), [3, 5], [5], {2, 3, 5, 6});
  }

  lemma ComponentsNeighbours3(g: Graph)
    requires IsComponents(g)
    ensures Neighbours(g, 5) == [1, 2, 6]
  {
    assert NeighboursFrom(g.edges, 5, 13) == [];
    assert NeighboursFrom(g.edges, 5, 12) == [6];
    assert NeighboursFrom(g.edges, 5, 11) == [6];
    assert NeighboursFrom(g.edges, 5, 10) == [6];
    assert NeighboursFrom(g.edges, 5, 9) == [2, 6];
    assert NeighboursFrom(g.edges, 5, 8) == [2, 6];
    assert NeighboursFrom(g.edges, 5, 7) == [2, 6];
    assert NeighboursFrom(g.edges, 5, 6) == [2, 6];
    assert NeighboursFrom(g.edges, 5, 5) == [1, 2, 6];
    assert NeighboursFrom(g.edges, 5, 4) == [1, 2, 6];
    assert NeighboursFrom(g.edges, 5, 3) == [1, 2, 6];
    assert NeighboursFrom(g.edges, 5, 2) == [1, 2, 6];
    assert NeighboursFrom(g.edges, 5, 1) == [1, 2, 6];
    assert NeighboursFrom(g.edges, 5, 0) == [1, 2, 6];
  }

  lemma ComponentsStep3(g: Graph)
    requires IsComponents(g)
    ensures Next(g, State([5], {2, 3, 5, 6}, [4, 3, 7], [3, 2, 6]))
         == State([1], {1, 2, 3, 5, 6}, [4, 3, 7, 6], [3, 2, 6, 5])
  {
    ComponentsNeighbours3(g);
    assert [5][1..] == [];
    assert Enqueue([1, 2, 6], [], {2, 3, 5, 6}) == ([1], {1, 2, 3, 5, 6}) by {
      assert [1, 2, 6][1..] == [2, 6];
      assert {2, 3, 5, 6} + {1} == {1, 2, 3, 5, 6};
      assert [] + [1] == [1];
      assert [2, 6][1..] == [6];
      assert 2 in {1, 2, 3, 5, 6};
      assert [6][1..] == [];
      assert 6 in {1, 2, 3, 5, 6};
    }
    assert [4, 3, 7] + [6] == [4, 3, 7, 6];
    assert [3, 2, 6] + [5] == [3, 2, 6, 5];
    NextIs(g, State([5], {2, 3, 5, 6}, [4, 3, 7], [3, 2, 6]), [1, 2, 6], [1], {1, 2, 3, 5, 6});
  }

  lemma ComponentsNeighbours4(g: Graph)
    requires IsComponents(g)
    ensures Neighbours(g, 1) == [0, 4, 5]
  {
    assert NeighboursFrom(g.edges, 1, 13) == [];
    assert NeighboursFrom(g.edges, 1, 12) == [];
    assert NeighboursFrom(g.edges, 1, 11) == [];
    assert NeighboursFrom(g.edges, 1, 10) == [];
    assert NeighboursFrom(g.edges, 1, 9) == [];
    assert NeighboursFrom(g.edges, 1, 8) == [];
    assert NeighboursFrom(g.edges, 1, 7) == [];
    assert NeighboursFrom(g.edges, 1, 6) == [];
    assert NeighboursFrom(g.edges, 1, 5) == [];
    assert NeighboursFrom(g.edges, 1, 4) == [5];
    assert NeighboursFrom(g.edges, 1, 3) == [5];
    assert NeighboursFrom(g.edges, 1, 2) == [4, 5];
    assert NeighboursFrom(g.edges, 1, 1) == [0, 4, 5];
    assert NeighboursFrom(g.edges, 1, 0) == [0, 4, 5];
  }

  lemma ComponentsStep4(g: Graph)
    requires IsComponents(g)
    ensures Next(g, State([1], {1, 2, 3, 5, 6}, [4, 3, 7, 6], [3, 2, 6, 5]))
         == State([0, 4], {0, 1, 2, 3, 4, 5, 6}, [4, 3, 7, 6, 2], [3, 2, 6, 5, 1])
  {
    ComponentsNeighbours4(g);
    assert [1][1..] == [];
    assert Enqueue([0, 4, 5], [], {1, 2, 3, 5, 6}) == ([0, 4], {0, 1, 2, 3, 4, 5, 6}) by {
      assert [0, 4, 5][1..] == [4, 5];
      assert {1, 2, 3, 5, 6} + {0} == {0, 1, 2, 3, 5, 6};
      assert [] + [0] == [0];
      assert [4, 5][1..] == [5];
      assert {0, 1, 2, 3, 5, 6} + {4} == {0, 1, 2, 3, 4, 5, 6};
      assert [0] + [4] == [0, 4];
      assert [5][1..] == [];
      assert 5 in {0, 1, 2, 3, 4, 5, 6};
    }
    assert [4, 3, 7, 6] + [2] == [4, 3, 7, 6, 2];
    assert [3, 2, 6, 5] + [1] == [3, 2, 6, 5, 1];
    NextIs(g, State([1], {1, 2, 3, 5, 6}, [4, 3, 7, 6], [3, 2, 6, 5]), [0, 4, 5], [0, 4], {0, 1, 2, 3, 4, 5, 6});
  }

  /** `bfs_success2`: from id 3 across its component to the value 1, at id 0. */
  lemma ComponentsSearch(g: Graph)
    requires IsComponents(g)
    ensures DstsInRange(g)
    ensures BfsLoop(g, 1, Start(3)).path == [4, 3, 7, 6, 2, 1]
    ensures BfsLoop(g, 1, Start(3)).found == Some(0)
  {
    assert DstsInRange(g);
    assert QueueInRange(g, Start(3));
    ComponentsStep0(g);
    LoopStep(g, 1, State([3], {3}, [], []), State([2, 6], {2, 3, 6}, [4], [3]));
    ComponentsStep1(g);
    LoopStep(g, 1, State([2, 6], {2, 3, 6}, [4], [3]), State([6, 5], {2, 3, 5, 6}, [4, 3], [3, 2]));
    ComponentsStep2(g);
    LoopStep(g, 1, State([6, 5], {2, 3, 5, 6}, [4, 3], [3, 2]), State([5], {2, 3, 5, 6}, [4, 3, 7], [3, 2, 6]));
    ComponentsStep3(g);
    LoopStep(g, 1, State([5], {2, 3, 5, 6}, [4, 3, 7], [3, 2, 6]), State([1], {1, 2, 3, 5, 6}, [4, 3, 7, 6], [3, 2, 6, 5]));
    ComponentsStep4(g);
    LoopStep(g, 1, State([1], {1, 2, 3, 5, 6}, [4, 3, 7, 6], [3, 2, 6, 5]), State([0, 4], {0, 1, 2, 3, 4, 5, 6}, [4, 3, 7, 6, 2], [3, 2, 6, 5, 1]));
    assert [4, 3, 7, 6, 2] + [1] == [4, 3, 7, 6, 2, 1];
  }

  /** `bfs_fail1`: no node of the tree holds 10. */
  lemma TreeMisses(g: Graph)
    requires IsTree(g)
    ensures BfsLoop(g, 10, Start(0)).found == None
  {
    assert DstsInRange(g);
    InitInv(g, 0, 10);
    LoopOutcome(g, 0, 10, Start(0));
    assert forall i :: 0 <= i < |g.nodes| ==> g.nodes[i] <= 8;
  }

  /** In the second graph no edge leads to 7. */
  lemma ComponentsNoneTo7(g: Graph)
    requires IsComponents(g)
    ensures forall x: nat, y :: y in Neighbours(g, x) ==> y < 7
  {
    assert forall k :: 0 <= k < |g.edges| ==> g.edges[k].1 < 7;
    forall x: nat, y | y in Neighbours(g, x) ensures y < 7 {
      NeighboursMembers(g, x);
      var k :| 0 <= k < |g.edges| && g.edges[k] == (x, y);
    }
  }

  /** `bfs_fail2`: the only node holding 8 is 7, which no edge reaches, so
      the search from 0 finds nothing. */
  lemma ComponentsMisses(g: Graph)
    requires IsComponents(g)
    ensures BfsLoop(g, 8, Start(0)).found == None
  {
    assert DstsInRange(g);
    InitInv(g, 0, 8);
    LoopOutcome(g, 0, 8, Start(0));
    ComponentsNoneTo7(g);
    var r := BfsLoop(g, 8, Start(0));
    if r.found.Some? {
      assert r.found.value == 7;
      var ns :| Path(g, ns, 0, 7);
      ClosedHoldsReachable(g, Range(7), ns, 0, 7);
    }
  }
}
