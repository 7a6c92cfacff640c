# telos algorithms, modelled in Dafny

This project models the core of a small Rust algorithms library and proves properties of the model. The core is:

- two data structures: an array-backed binary min-heap and a disjoint-set forest with path halving and union by rank;
- four graph kernels over one graph shape: Dijkstra, A*, Prim and Kruskal, with a proof that the results of Prim and Kruskal are minimum spanning forests, so that on a connected graph the two agree on total cost;
- a FIFO singly linked list;
- breadth-first search, plus recursive and iterative depth-first search;
- six sorts: bubble, counting, insertion, quick, and two radix sorts;
- three majority-element algorithms;
- the N-Queens backtracking solver.

The model follows each source file's own form:

- **Code that mutates state becomes imperative Dafny.**
  - The heap, the disjoint set and the linked list are classes with `modifies` clauses.
  - The in-place sorts work on arrays.
  - The search loops are methods with loop invariants.
- **Each method is tied to a specification.** Either its `ensures` states the property outright, or a function of the inputs or old state computes the same result, and lemmas about that function prove the property.
  - Examples of such functions: `SiftDown`, `HalvePath`, `BfsLoop`, `ItLoop`, `DfsRec`, `Distribute`, `RunMax`, `Solve`.
- **Standard collections become Dafny values.**
  - `std::collections::BinaryHeap` is a `multiset`; extract-min picks any entry of least priority.
  - `BTreeMap` and `HashMap` are `map`s, `HashSet` is a `set`, `VecDeque` is a `seq`.
- **Integer widths.** `usize` and `u32` values are `nat`. The list's `i32` values and the generic `Ord` elements of the heap and of quick sort are `int`.

The model runs the code as written, including its defects, and proves what it does:

- **Heap `pop` does not restore heap order.** It removes index 0 and sifts down once. After `from_vec([1, 10, 2, 11, 12, 3, 4])`, the fourth pop returns 10 while 4 is still stored.
- **Insertion sort loses elements.** It copies where it should swap, so the slice becomes its running maximum.
- **`divide_and_conquer` can miss a majority.** When the two halves have different majorities it returns `None`.
- **`radix_sort_naive` can stop too early.** It stops at the first all-zero digit position, so `[105, 2, 100]` comes back as `[100, 2, 105]`.
- **`radix_sort_in_place` can skip its last pass.** When the maximum is a power of the radix it does not run that pass, so `[1, 0]` comes back unchanged.
- **The iterative DFS compares ids, not values.** It compares the popped node id with the target's number, not the node's value.

## Model

| member | source | states |
|---|---|---|
| Heap.Parent | src/data_structure/binary_heap.rs:53-56 | for `ni >= 1` the parent index is below `ni` and `ni` is one of its two children |
| Heap.Children | src/data_structure/binary_heap.rs:58-74 | the left and right child are `Some(2ni+1)` / `Some(2ni+2)` exactly when that index is below the length, and each child's parent is `ni` |
| Heap.SiftUp | src/data_structure/binary_heap.rs:76-83 | sifting up keeps the length and the multiset of the array |
| Heap.Smallest | src/data_structure/binary_heap.rs:87-103 | the chosen index is `ni` or a child holding a strictly smaller value, and it holds the least value among `ni` and its children |
| Heap.SiftDown | src/data_structure/binary_heap.rs:85-112 | sifting down keeps the length and the multiset of the array |
| Heap.BuildFrom | src/data_structure/binary_heap.rs:27-34 | the `from_vec` loop keeps the length and the multiset |
| Heap.PushSeq | src/data_structure/binary_heap.rs:36-39 | a push grows the array by one and its multiset by exactly `val` |
| Heap.PopSeq | src/data_structure/binary_heap.rs:41-51 | an empty heap pops `None` and stays empty; otherwise the root is returned and removed from the multiset |
| Heap.SiftUpRestoresOrder | src/data_structure/binary_heap.rs:76-83 | an array heap-ordered except at `k` and above is heap-ordered after sifting up from `k` |
| Heap.SiftDownRestoresOrder | src/data_structure/binary_heap.rs:85-112 | an array heap-ordered from `lo` on except below `k` is heap-ordered from `lo` after sifting down from `k` |
| Heap.BuildFromOrders | src/data_structure/binary_heap.rs:30-32 | running the remaining `from_vec` rounds on an array ordered from `n` on makes it heap-ordered |
| Heap.FromVecIsHeap | src/data_structure/binary_heap.rs:27-34 | `from_vec` returns a heap-ordered permutation of its input |
| Heap.BuildFromStep | src/data_structure/binary_heap.rs:30-32 | one `heapify_down(j)` round keeps the `from_vec` loop on course: finishing the remaining rounds yields the same result |
| Heap.PushKeepsOrder | src/data_structure/binary_heap.rs:36-39 | pushing onto a heap-ordered array keeps it heap-ordered |
| Heap.RootIsMinimal | src/data_structure/binary_heap.rs:41-51 | in a heap-ordered array the root is at most every element |
| Heap.PopReturnsMinimum | src/data_structure/binary_heap.rs:41-51 | popping a non-empty heap-ordered array returns a least element and shrinks the array by one |
| Heap.SiftDownFixesHeap | src/data_structure/binary_heap.rs:85-112 | sifting down anywhere in a heap-ordered array changes nothing |
| Heap.HeapIsFixedByBuild | src/data_structure/binary_heap.rs:27-34 | `from_vec` returns a heap-ordered array unchanged |
| Heap.BuildStep | src/data_structure/binary_heap.rs:27-34 | `from_vec([1,10,2,11,12,3,4])` keeps that already heap-ordered array |
| Heap.PopStep1 | src/data_structure/binary_heap.rs:41-51 | the first pop of that heap returns 1 and leaves `[2,3,11,12,10,4]` |
| Heap.PopStep2 | src/data_structure/binary_heap.rs:41-51 | the second pop returns 2 and leaves `[3,11,12,10,4]` |
| Heap.PopStep3 | src/data_structure/binary_heap.rs:41-51 | the third pop returns 3 and leaves `[10,12,11,4]` |
| Heap.PopStep4 | src/data_structure/binary_heap.rs:41-51 | the fourth pop returns 10 and leaves `[4,11,12]` |
| Heap.PopBreaksOrder | src/data_structure/binary_heap.rs:46-49 | the array left after three pops is not heap-ordered, and the next pop returns 10 while 4 is stored |
| Heap.BinaryHeap.constructor | src/data_structure/binary_heap.rs:15-17 | a new heap is empty |
| Heap.BinaryHeap.Len | src/data_structure/binary_heap.rs:19-21 | the length is the number of stored nodes |
| Heap.BinaryHeap.IsEmpty | src/data_structure/binary_heap.rs:23-25 | the heap is empty exactly when its length is 0 |
| Heap.BinaryHeap.Iter | src/data_structure/binary_heap.rs:114-116 | iteration yields the stored array in array order |
| Heap.BinaryHeap.FromVec | src/data_structure/binary_heap.rs:27-34 | the new heap holds a heap-ordered permutation of the vector, the one the `from_vec` loop computes |
| Heap.BinaryHeap.Push | src/data_structure/binary_heap.rs:36-39 | the multiset gains exactly `val`, and heap order is kept |
| Heap.BinaryHeap.Pop | src/data_structure/binary_heap.rs:41-51 | empty heap: `None` and no change; heap-ordered heap: a least element, length one less |
| Heap.BinaryHeap.HeapifyUp | src/data_structure/binary_heap.rs:76-83 | the loop computes `SiftUp` on the stored array |
| Heap.BinaryHeap.HeapifyDown | src/data_structure/binary_heap.rs:85-112 | the loop computes `SiftDown` on the stored array |
| Heap.PushSteps | src/data_structure/binary_heap.rs:129-145 | the arrays after each push of the min-heap test |
| Heap.PopSteps | src/data_structure/binary_heap.rs:129-145 | the values and arrays after each pop of the min-heap test |
| Heap.MinHeapScenario | src/data_structure/binary_heap.rs:129-145 | pushes 4, 2, 9, 11 give length 4; the pops give 2, 4, 9; after pushing 1 they give 1, 11, `None` |
| Heap.IterScenario | src/data_structure/binary_heap.rs:147-160 | after pushing 4, 2, 9, 11, iteration yields 2, 4, 9, 11 |
| UnionFind.MaxRank | src/data_structure/disjoint_set.rs:3-5 | a bound on every rank, used as the measure that makes `find` terminate |
| UnionFind.Root | src/data_structure/disjoint_set.rs:15-27 | the root is a self-parented element whose rank is at least `x`'s |
| UnionFind.HalvePath | src/data_structure/disjoint_set.rs:22-25 | path halving keeps the array length and returns an index in range |
| UnionFind.HalveKeepsShape | src/data_structure/disjoint_set.rs:23 | one halving step keeps ranks strictly increasing toward the root |
| UnionFind.HalveStepKeepsRoots | src/data_structure/disjoint_set.rs:23 | one halving step changes no element's root |
| UnionFind.HalvePathCorrect | src/data_structure/disjoint_set.rs:15-27 | `find` returns `x`'s root; it preserves the forest shape, every element's root and the set of roots |
| UnionFind.Link | src/data_structure/disjoint_set.rs:36-44 | linking keeps the lengths of both arrays |
| UnionFind.UnionSeq | src/data_structure/disjoint_set.rs:30-46 | union keeps the lengths of both arrays |
| UnionFind.LinkRoots | src/data_structure/disjoint_set.rs:36-44 | linking two distinct roots keeps the shape; elements of either tree now reach the winner, others keep their root |
| UnionFind.TwoFinds | src/data_structure/disjoint_set.rs:31-32 | the two finds of `union` return both roots, keep every root, and union is linking after them |
| UnionFind.LinkMerges | src/data_structure/disjoint_set.rs:34-45 | after linking, exactly the elements of the two trees share the winner's root |
| UnionFind.UnionKeepsShape | src/data_structure/disjoint_set.rs:30-46 | union keeps every non-root's rank below its parent's |
| UnionFind.UnionMerges | src/data_structure/disjoint_set.rs:30-46 | after `union(x, y)`, `x` and `y` share a root, that root is one of the old two, and only elements of the two sets change root |
| UnionFind.UnionRoots | src/data_structure/disjoint_set.rs:34-45 | distinct roots: exactly the loser stops being a root; same root: ranks and roots unchanged |
| UnionFind.UnionRank | src/data_structure/disjoint_set.rs:36-44 | a rank grows, by one, only when two roots of equal rank merge |
| UnionFind.Identity | src/data_structure/disjoint_set.rs:10 | `parent[i] == i` for every `i < n` |
| UnionFind.Zeros | src/data_structure/disjoint_set.rs:11 | `rank[i] == 0` for every `i < n` |
| UnionFind.FreshForest | src/data_structure/disjoint_set.rs:9-13 | a fresh forest is well formed, every element is its own root, and the roots are exactly `0..n` |
| UnionFind.DisjointSet.Size | src/data_structure/disjoint_set.rs:1-6 | the size is the length of `parent` |
| UnionFind.DisjointSet.constructor | src/data_structure/disjoint_set.rs:9-13 | `new(n)` gives `parent == [0..n)` and all ranks 0 |
| UnionFind.DisjointSet.Find | src/data_structure/disjoint_set.rs:15-27 | the loop computes `HalvePath`; it returns `x`'s root, keeps ranks, and changes no element's root |
| UnionFind.DisjointSet.Union | src/data_structure/disjoint_set.rs:30-46 | the method computes `UnionSeq` and keeps the forest well formed |
| UnionFind.ChainSteps | src/data_structure/disjoint_set.rs:106-112 | the states after the chained unions 0-1, 1-2 and 2-3 |
| UnionFind.FindSteps | src/data_structure/disjoint_set.rs:115-121 | on the final state every `find(i)`, `i < 4`, returns 0 and changes nothing |
| UnionFind.ChainedUnions | src/data_structure/disjoint_set.rs:106-112 | the three unions give `parent == [0,0,0,0,4]` and `rank == [1,0,0,0,0]` |
| UnionFind.PathCompressionScenario | src/data_structure/disjoint_set.rs:106-121 | the root is 0, every find returns it, and `parent[i] == 0` for `i < 4` |
| Graphs.AddEdgeAppends | src/graph/dijkstra.rs:50-56 | `add_edge` appends `Edge{src,dst,cost}` to `src`'s list only |
| Graphs.AddUndirectedAppends | src/graph/prim.rs:34-45 | the symmetric `add_edge` appends `src→dst` to `src`'s list and `dst→src` to `dst`'s, with the same cost |
| Graphs.DstInDsts | src/graph/dijkstra.rs:42-48 | the destination of every listed edge is a destination of the graph |
| Graphs.CostAppend | src/graph/dijkstra.rs:78 | a walk's cost grows by the cost of the edge appended |
| Graphs.ReachesExtend | src/graph/dijkstra.rs:74-92 | a walk extended by an edge out of its end is a walk, at that edge's extra cost |
| Graphs.CostSplit | src/graph/dijkstra.rs:78 | a walk's cost is the sum of the costs of its two parts |
| Graphs.ClosedEdge | src/graph/dijkstra.rs:83-87 | in a closed map every edge out of a key leads to a key, at no more than the source's value plus its cost |
| Graphs.WalkBound | src/graph/dijkstra.rs:73-94 | in a closed map a walk from a key ends at a key whose value is at most the start's plus the walk's cost |
| Graphs.TightWalk | src/graph/dijkstra.rs:83-91 | a walk whose cost meets the closed map's bound is tight on every edge |
| Dijkstra.MinEntryExists | src/graph/dijkstra.rs:73 | a non-empty queue has an entry of least cost, so `pop` can return one |
| Dijkstra.ImproveKeepsInv | src/graph/dijkstra.rs:83-92 | recording a cheaper cost for an edge's target and queueing it keeps the loop invariant; that target is neither the popped node nor a finished one |
| Dijkstra.LowersBy | src/graph/dijkstra.rs:83-87 | writing a cost below the recorded one keeps every key and never raises a cost |
| Dijkstra.RelaxEdge | src/graph/dijkstra.rs:74-92 | one edge keeps the invariant and leaves the popped node's entry alone; a revisited node queues nothing; a recorded cost is only ever replaced by a strictly smaller one |
| Dijkstra.Relax | src/graph/dijkstra.rs:74-93 | all edges of the popped node keep the invariant with the node marked done, leave its own entry unchanged, and a revisited node queues nothing |
| Dijkstra.PopKeepsInv | src/graph/dijkstra.rs:73 | popping a least-cost entry keeps the invariant, and the popped node is a key |
| Dijkstra.Visit | src/graph/dijkstra.rs:73-94 | one loop turn keeps the invariant and shrinks the unexplored nodes or the queue |
| Dijkstra.InitInv | src/graph/dijkstra.rs:67-71 | `{src: (None, 0)}` with the queue `[(0, src)]` satisfies the invariant |
| Dijkstra.EndClosed | src/graph/dijkstra.rs:73-94 | with the queue empty, the recorded costs are closed under every edge |
| Dijkstra.EndShortest | src/graph/dijkstra.rs:59-96 | closed recorded costs plus the walk witnesses make a shortest-path map |
| Dijkstra.EndWalks | src/graph/dijkstra.rs:59-96 | every recorded cost is the cost of some walk from `src` |
| Dijkstra.EndBound | src/graph/dijkstra.rs:59-96 | with closed recorded costs, every walk from `src` ends at a recorded node and costs at least its recorded cost |
| Dijkstra.EndTight | src/graph/dijkstra.rs:59-96 | with closed recorded costs, each recorded predecessor edge is tight |
| Dijkstra.EndOfSearch | src/graph/dijkstra.rs:94-95 | the invariant with an empty queue gives a shortest-path map with closed costs |
| Dijkstra.Dijkstra | src/graph/dijkstra.rs:59-96 | `src ↦ (None, 0)`; the keys are the nodes reachable from `src`; recorded costs are minimum walk costs; each predecessor is joined to its node by a tight edge |
| DijkstraGraph2.BuiltIsG | src/graph/dijkstra.rs:155-166 | the seven `add_edge` calls build the test graph |
| DijkstraGraph2.DClosed | src/graph/dijkstra.rs:168-173 | the expected distances are closed under the test graph's edges |
| DijkstraGraph2.CostsAreD | src/graph/dijkstra.rs:168-173 | every shortest-path map of the test graph has the expected keys and costs |
| DijkstraGraph2.Graph2Prevs | src/graph/dijkstra.rs:168-174 | every shortest-path map of the test graph is `{0:(None,0), 1:(2,7), 2:(0,3), 3:(1,9), 4:(2,5)}` |
| DijkstraGraph2.Graph2 | src/graph/dijkstra.rs:153-175 | `dijkstra(graph, 0)` returns the expected map |
| DijkstraGrid.NidIsProduct | src/graph/dijkstra.rs:182 | the model's `nid` is the test's `r * cols + c` |
| DijkstraGrid.NidShift | src/graph/dijkstra.rs:182 | a cell's id is its row's first id plus its column |
| DijkstraGrid.RowStartMono | src/graph/dijkstra.rs:182 | later rows start at larger ids |
| DijkstraGrid.NidOrder | src/graph/dijkstra.rs:182-185 | for columns inside the row, `nid` orders cells exactly in the nested loops' row-major order |
| DijkstraGrid.NidInjective | src/graph/dijkstra.rs:182 | two cells inside the columns with the same id are the same cell |
| DijkstraGrid.NidBound | src/graph/dijkstra.rs:182-185 | a cell inside the grid has an id below `rows * cols` |
| DijkstraGrid.CellOf | src/graph/dijkstra.rs:182-185 | every id below `rows * cols` is the id of a cell inside the grid |
| DijkstraGrid.AddEdgeIfAppends | src/graph/dijkstra.rs:187-195 | a guarded `add_edge` keeps the nodes and, when its guard holds, appends one unit edge to the source's list and changes no other list |
| DijkstraGrid.AddCellNode | src/graph/dijkstra.rs:186 | one turn of the inner loop appends the node `(row, col)` |
| DijkstraGrid.AddCellAppends | src/graph/dijkstra.rs:186-195 | one turn of the inner loop adds, to its own cell's list only, the down, right and diagonal unit edges that stay inside the grid, in that order |
| DijkstraGrid.BuildSize | src/graph/dijkstra.rs:184-197 | the loops push one node per cell visited so far |
| DijkstraGrid.BuildNode | src/graph/dijkstra.rs:184-197 | each cell visited so far has the node `(row, col)` at index `nid(row, col)` |
| DijkstraGrid.BuildEdges | src/graph/dijkstra.rs:184-197 | each cell visited so far has exactly its down, right and diagonal edges, and each later cell none |
| DijkstraGrid.BuildNoEdges | src/graph/dijkstra.rs:184-197 | ids not pushed yet have no edges |
| DijkstraGrid.GridIsGrid | src/graph/dijkstra.rs:179-197 | after the loops, each node `nid(r, c)` holds `(r, c)` and has exactly its grid edges, and no id from `rows * cols` on has an edge |
| DijkstraGrid.OutEdge | src/graph/dijkstra.rs:187-195 | each edge of a cell costs 1 and enters a cell inside the grid whose `max(row, col)` is at most one more |
| DijkstraGrid.GridClosed | src/graph/dijkstra.rs:187-195 | each node's `max(row, col)` is closed under every grid edge |
| DijkstraGrid.CellEdge | src/graph/dijkstra.rs:187-195 | a cell has an edge of cost 1 to the cell below it, to its right, or diagonally down-right when that cell is inside the grid |
| DijkstraGrid.WalkToCell | src/graph/dijkstra.rs:187-195 | every cell is reached from node 0 by a walk of cost `max(row, col)` |
| DijkstraGrid.GridDistances | src/graph/dijkstra.rs:200-206 | every shortest-path map from node 0 records every cell with cost `max(row, col)` |
| DijkstraGrid.Graph3 | src/graph/dijkstra.rs:177-207 | `dijkstra(graph, 0)` on a `rows × cols` grid gives every cell `(r, c)` the cost `max(r, c)` at id `nid(r, c)` |
| AStar.NullHeuristicConsistent | src/graph/astar.rs:120-122 | the zero heuristic never drops by more than an edge's cost |
| AStar.NullHeuristicAdmissible | src/graph/astar.rs:120-122 | the zero heuristic never overestimates the cost of a walk to a target node |
| AStar.NullHeuristicOptimal | src/graph/astar.rs:120-122 | with the zero heuristic the bound makes the answer's cost at most that of any walk to a target node |
| AStar.MinEntryExists | src/graph/astar.rs:34-39 | a non-empty queue has an entry of least `heur_cost` |
| AStar.ImproveKeepsInv | src/graph/astar.rs:86-98 | recording a lower `real_cost` and queueing `real_cost + h` keeps the loop invariant |
| AStar.ConsistentAlongWalk | src/graph/astar.rs:92 | a consistent heuristic drops along a walk by at most the walk's cost |
| AStar.AdmissibleFrom | src/graph/astar.rs:92 | under an admissible heuristic, `h` at a walk's node is at most the cost of the rest of the walk to a target node |
| AStar.EntryBound | src/graph/astar.rs:91-92 | the cost of reaching a walk node plus `h` there is at most the walk's cost plus `h` at its end (consistent `h`), or at most the walk's cost (admissible `h`) |
| AStar.OpenEntry | src/graph/astar.rs:76-101 | while a target node is reachable, some queued entry has priority at most a walk's cost plus `h` at its end (consistent `h`), or at most the walk's cost (admissible `h`) |
| AStar.ReachableKeepsQueue | src/graph/astar.rs:76 | while a target node is reachable the queue is not empty |
| AStar.PopTarget | src/graph/astar.rs:77-80 | a popped target node's entry carries its recorded cost, costs at most every walk to a target node under an admissible `h`, and is `(src, 0)` when `src` holds the target |
| AStar.Search | src/graph/astar.rs:65-101 | `found` is `None` only if no target node is reachable; otherwise it names a target node with its recorded cost, which under an admissible `h` is at most the cost of every walk to a target node, even though nodes are reopened |
| AStar.Reverse | src/graph/astar.rs:112 | `path.reverse()` puts element `k` at `len-1-k` |
| AStar.PathTo | src/graph/astar.rs:103-112 | the reconstruction ends, and the path runs from `src` to the target along edges costing at most the recorded cost |
| AStar.FoundAnswer | src/graph/astar.rs:103-113 | the reconstructed path and the popped cost form a valid answer |
| AStar.AStar | src/graph/astar.rs:59-114 | `Some` exactly when a target node is reachable; the path starts at `src`, ends at a target node and follows edges; `src` holding the target gives `Some((0, [src]))`; under an admissible `h` the cost is at most that of every walk from `src` to a target node; under a consistent `h` the cost plus `h` at the end is at most any such walk's cost plus `h` at its end |
| AStarGraph2.TightPathIsExpected | src/graph/astar.rs:125-153 | the predecessor chain of each test target is the asserted path |
| AStarGraph2.NullAnswer | src/graph/astar.rs:125-153 | any answer meeting `astar`'s contract on the test graph is the asserted one |
| AStarGraph2.NullSearch | src/graph/astar.rs:140-151 | `astar(graph, 0, t, null_heuristic)` for `t` in 1..4 gives the Dijkstra cost and path |
| AStarGraph2.TestDijkstra | src/graph/astar.rs:125-153 | the results are `(7,[0,2,1])`, `(3,[0,2])`, `(9,[0,2,1,3])` and `(5,[0,2,4])` |
| Prim.BeforeIsTotalOrder | src/graph/prim.rs:17-23 | the queue order on `(cost, Edge)` with `Edge` ordered by `(src, dst, cost)` is a total order |
| Prim.MinEdgeExists | src/graph/prim.rs:58 | a non-empty queue has a least edge in that order |
| Prim.PushAll | src/graph/prim.rs:53-55 | the initial queue holds exactly node 0's edges |
| Prim.PushUnseen | src/graph/prim.rs:68-72 | every edge of the new node is queued or leads to a seen node, and nothing else is added |
| Prim.Step | src/graph/prim.rs:58-73 | one turn keeps the tree and queue invariants and shrinks the queue or the unseen nodes; the `break` fires only when the tree has `len` edges |
| Prim.TreeSize | src/graph/prim.rs:63-66 | with all ids in range the tree has fewer edges than nodes |
| Prim.TreeFacts | src/graph/prim.rs:56-72 | tree edges end at distinct nodes other than 0, each out of 0 or out of an earlier edge's end |
| Prim.SeenClosed | src/graph/prim.rs:58-73 | with the queue empty, every walk from a seen node stays in the seen set |
| Prim.Covered | src/graph/prim.rs:58-74 | once the queue is empty, every node reachable from 0 is 0 or the end of a tree edge, and no edge leaves the nodes the tree reaches |
| Prim.Drain | src/graph/prim.rs:49-73 | the loop starts from node 0's edges and ends with the tree invariant, and with an empty, closed queue unless the `break` fired with `len` edges |
| Prim.AddUndirectedKeepsSymmetric | src/graph/prim.rs:34-45 | the symmetric `add_edge` keeps the graph symmetric |
| Prim.KeyedEarlier | src/graph/prim.rs:68-72 | in a well-keyed graph each tree edge's `src` is 0 or the end of an earlier tree edge |
| Prim.FirstFromZero | src/graph/prim.rs:53-56 | the first tree edge is one of node 0's edges |
| Prim.Prim | src/graph/prim.rs:48-75 | edges end at distinct nodes ≠ 0, each out of a node seen earlier; no edges at 0 gives `[]`; fewer edges than nodes; the result reaches every node reachable from 0; each edge is the least (in pop order) of all stored edges leaving the nodes seen before it; unless `len` edges were kept, no edge leaves the reached nodes |
| Prim.LeastIsCheapest | src/graph/prim.rs:58-72 | since every edge leaving the seen nodes is queued, the popped least entry comes no later than any of them |
| Prim.GreedyAppend | src/graph/prim.rs:60-63 | keeping such an edge keeps every kept edge least among the edges leaving the nodes seen before it |
| Prim.TreeCrosses | src/graph/prim.rs:60-72 | each kept edge leaves the nodes seen before it |
| Prim.CheapestUnique | src/graph/prim.rs:17-23 | two edges that are both least among the edges leaving one node set are equal |
| Prim.NextAgrees | src/graph/prim.rs:58-63 | two greedy runs that agree before edge `j` agree on edge `j` too |
| Prim.RunsAgree | src/graph/prim.rs:58-73 | a result meeting `prim`'s contract agrees with any greedy reference run on their common length |
| Prim.CrossedNotEnclosed | src/graph/prim.rs:68-72 | a node set that some stored edge leaves is not closed |
| Prim.RunDetermined | src/graph/prim.rs:48-75 | a reference run that is greedy, ends on a closed node set and is shorter than `nodes` is the only result meeting `prim`'s contract |
| Prim.SeenPrefixes | src/graph/prim.rs:56-60 | the seen set before edge `k` is `{0}` plus the ends of the first `k` edges |
| Prim.RunBySets | src/graph/prim.rs:56-73 | a run whose listed seen sets grow by each edge's end, whose edges are each least-leaving, and whose final set is closed is a greedy reference run |
| PrimTests.BuiltIsG1 | src/graph/prim.rs:85-94 | the test's symmetric `add_edge` calls build the listed graph1 |
| PrimTests.Run1IsGreedy | src/graph/prim.rs:83-99 | `(0,1,1), (1,2,2), (2,3,3), (3,4,4)` is a greedy run on graph1 ending on a closed set |
| PrimTests.Cost1 | src/graph/prim.rs:98 | that run costs 10 |
| PrimTests.PrimGraph1 | src/graph/prim.rs:83-99 | `prim` on graph1 returns `(0,1,1), (1,2,2), (2,3,3), (3,4,4)`: 4 edges of total cost 10 |
| PrimTests.BuiltIsG2 | src/graph/prim.rs:103-111 | the test's `add_edge` calls build the listed graph2 |
| PrimTests.Run2IsGreedy | src/graph/prim.rs:101-116 | `(0,1,1), (1,2,2), (2,3,3)` is a greedy run on graph2 ending on a closed set |
| PrimTests.Cost2 | src/graph/prim.rs:115 | that run costs 6 |
| PrimTests.PrimGraph2 | src/graph/prim.rs:101-116 | `prim` on graph2 returns `(0,1,1), (1,2,2), (2,3,3)`: 3 edges of total cost 6 |
| PrimTests.BuiltIsG3 | src/graph/prim.rs:120-135 | the test's `add_edge` calls build the listed graph3 |
| PrimTests.Run3IsGreedy | src/graph/prim.rs:118-157 | `(0,1,2), (1,3,1), (3,4,2), (1,6,4), (6,5,1), (6,2,6)` is a greedy run on graph3 ending on a closed set |
| PrimTests.Cost3 | src/graph/prim.rs:139 | that run costs 16 |
| PrimTests.PrimGraph3 | src/graph/prim.rs:118-157 | `prim` on graph3 returns exactly that run: 6 edges of total cost 16, whose set is the asserted one |
| Kruskal.FlattenHas | src/graph/kruskal.rs:46 | the collected edges are exactly the stored edges |
| Kruskal.Insert | src/graph/kruskal.rs:47 | one insertion step of the sort adds exactly `e` |
| Kruskal.SortByCost | src/graph/kruskal.rs:47 | the sort permutes the edges |
| Kruskal.InsertSorted | src/graph/kruskal.rs:47 | inserting into a cost-sorted list keeps it cost-sorted |
| Kruskal.InsertStable | src/graph/kruskal.rs:47 | insertion keeps the relative order of equal-cost edges |
| Kruskal.SortSorted | src/graph/kruskal.rs:47 | `sort_by_key(cost)` returns a cost-sorted list |
| Kruskal.SortStable | src/graph/kruskal.rs:47 | the sort is stable: equal-cost edges keep their order |
| Kruskal.SubseqOfSorted | src/graph/kruskal.rs:50-57 | a subsequence of a cost-sorted list is cost-sorted |
| Kruskal.LinkedAppend | src/graph/kruskal.rs:52-55 | connectivity after adding an edge is connectivity through that edge |
| Kruskal.FreshTracks | src/graph/kruskal.rs:43 | a fresh disjoint set tracks the connectivity of no edges |
| Kruskal.UnionTracks | src/graph/kruskal.rs:54 | a union of two different roots tracks the connectivity of the forest plus the edge |
| Kruskal.Consider | src/graph/kruskal.rs:52-56 | an edge is added exactly when its ends were not yet connected, and the forest stays tracked |
| Kruskal.AcyclicAppend | src/graph/kruskal.rs:52-55 | adding an edge between unconnected ends keeps the forest acyclic |
| Kruskal.PassDone | src/graph/kruskal.rs:50-57 | after the pass the forest is a cost-sorted subsequence of graph edges linking every input edge's ends |
| Kruskal.Kruskal | src/graph/kruskal.rs:42-59 | a cost-sorted subsequence of the stably sorted edges; acyclic; spans every input edge; every stored edge's ends are linked by kept edges that cost no more than it (the cycle condition of a minimum spanning forest); fewer edges than nodes; empty graph gives `[]` |
| Kruskal.Pass | src/graph/kruskal.rs:49-57 | the loop over the sorted edges ends with the pass invariant, the cycle condition on every sorted edge, and one root fewer per kept edge |
| Kruskal.Advance | src/graph/kruskal.rs:52-56 | keeping or skipping sorted edge `i` carries both invariants over it |
| Kruskal.CheapSnoc | src/graph/kruskal.rs:55 | the kept edges of cost at most `c` grow by a new edge exactly when it costs at most `c` |
| Kruskal.CheapAll | src/graph/kruskal.rs:47-55 | when no kept edge costs more than `c`, all kept edges count |
| Kruskal.CheapFrom | src/graph/kruskal.rs:55 | the cheap edges are kept edges of cost at most `c` |
| Kruskal.KeepCheap | src/graph/kruskal.rs:52-55 | a kept edge links its own ends at its own cost and keeps every earlier edge linked at its cost |
| Kruskal.SkipCheap | src/graph/kruskal.rs:52 | a skipped edge is already linked at its own cost, since nothing dearer was kept before it |
| Kruskal.KeptNoDearer | src/graph/kruskal.rs:47-55 | nothing kept before sorted edge `i` costs more than it |
| Kruskal.CheapDone | src/graph/kruskal.rs:46-57 | after the pass, every stored edge's ends are linked by kept edges no dearer than it |
| Kruskal.StaysInside | src/graph/kruskal.rs:52 | a path over edges that each keep to one side of a node set never leaves it |
| Kruskal.Forced | src/graph/kruskal.rs:42-59 | a stored edge that is the only one of its cost or less to leave some node set is in every result meeting the contract |
| Kruskal.Fill | src/graph/kruskal.rs:129-147 | a list no longer than a duplicate-free list that it contains is a rearrangement of it, so it has that length and that edge set |
| Kruskal.CostPerm | src/graph/kruskal.rs:129-130 | rearranging a list of edges keeps its total cost, so the asserted sum does not depend on the order edges were kept in |
| KruskalTests.BuiltIsG1 | src/graph/kruskal.rs:76-85 | the test's `add_edge` calls build the listed graph1 |
| KruskalTests.Kept1 | src/graph/kruskal.rs:74-90 | a result meeting the contract on graph1 is a rearrangement of `(0,1,1), (1,2,2), (2,3,3), (3,4,4)` |
| KruskalTests.KruskalGraph1 | src/graph/kruskal.rs:74-90 | for every order of the map's keys, `kruskal` on graph1 keeps 4 edges of total cost 10, namely `(0,1,1), (1,2,2), (2,3,3), (3,4,4)` |
| KruskalTests.BuiltIsG2 | src/graph/kruskal.rs:94-102 | the test's `add_edge` calls build the listed graph2 |
| KruskalTests.Kept2 | src/graph/kruskal.rs:92-107 | a result meeting the contract on graph2 is a rearrangement of `(0,1,1), (1,2,2), (2,3,3)` |
| KruskalTests.KruskalGraph2 | src/graph/kruskal.rs:92-107 | for every order of the map's keys, `kruskal` on graph2 keeps 3 edges of total cost 6, namely `(0,1,1), (1,2,2), (2,3,3)` |
| KruskalTests.BuiltIsG3 | src/graph/kruskal.rs:111-126 | the test's `add_edge` calls build the listed graph3 |
| KruskalTests.Kept3 | src/graph/kruskal.rs:109-148 | a result meeting the contract on graph3 is a rearrangement of the six asserted edges |
| KruskalTests.KruskalGraph3 | src/graph/kruskal.rs:109-148 | for every order of the map's keys, `kruskal` on graph3 keeps 6 edges of total cost 16, whose set is `(1,3,1), (5,6,1), (0,1,2), (3,4,2), (1,6,4), (2,6,6)` |
| MinimumSpanning.ForestRoots | src/graph/kruskal.rs:43-57 | running the disjoint-set unions over an acyclic edge list on `n` nodes leaves `n` minus the number of edges as roots: each edge joins two sets |
| MinimumSpanning.RankBound | src/graph/kruskal.rs:50-57 | an acyclic list whose edges' ends are all linked by another acyclic list has no more edges than it |
| MinimumSpanning.CostByCounts | src/graph/kruskal.rs:42-59 | when no edge costs more than `m`, a list's total cost plus, for each bound below `m`, the number of its edges costing at most that bound, is `m` times its length |
| MinimumSpanning.CheapCounts | src/graph/kruskal.rs:50-57 | a forest meeting the cycle condition has, for every bound, at least as many edges costing at most that bound as any acyclic list of the same candidates |
| MinimumSpanning.CheapestForest | src/graph/kruskal.rs:42-59 | such a forest has at least as many edges as any acyclic list of the candidates, and costs no more than one with as many edges |
| MinimumSpanning.CycleSpans | src/graph/kruskal.rs:50-57 | a list meeting the cycle condition links the ends of every candidate |
| MinimumSpanning.MinimumForest | src/graph/kruskal.rs:42-59 | an acyclic list of candidates meeting the cycle condition is a spanning forest of them, and every spanning forest of them has as many edges and costs no less |
| MinimumSpanning.KruskalCycle | src/graph/kruskal.rs:42-59 | `kruskal`'s contract, read on the set of stored edges: its edges are stored edges and it meets the cycle condition on all of them |
| MinimumSpanning.KruskalMinimum | src/graph/kruskal.rs:42-59 | a result meeting `kruskal`'s contract is a minimum spanning forest of the stored edges: every spanning forest of them has as many edges and costs no less |
| MinimumSpanning.KeptFacts | src/graph/prim.rs:58-72 | on a graph whose lists are keyed by their edges' sources, `prim`'s `k`-th kept edge is stored, leaves a node seen before it for an unseen one, and pops no later than every edge leaving the seen nodes |
| MinimumSpanning.CrossingCost | src/graph/prim.rs:58-63 | on a symmetric graph, a path of stored edges costing at most `c` from a seen node to an unseen one makes the popped edge cost at most `c` |
| MinimumSpanning.ReachNew | src/graph/prim.rs:58-72 | after edge `k` is kept, a seen node joined to its new end by stored edges costing at most `c` is linked to it by kept edges costing at most `c` |
| MinimumSpanning.CutUpTo | src/graph/prim.rs:58-73 | after every kept edge, two seen nodes joined by stored edges costing at most `c` are linked by kept edges costing at most `c` |
| MinimumSpanning.KeptOpens | src/graph/prim.rs:58-63 | each kept edge joins a seen node to an unseen one, so it closes no cycle with the edges kept before it |
| MinimumSpanning.PrimCycle | src/graph/prim.rs:48-75 | on a symmetric graph `prim`'s result is an acyclic list of stored edges between the nodes it reaches, and meets the cycle condition on all stored edges between them |
| MinimumSpanning.PrimMinimum | src/graph/prim.rs:48-75 | a result meeting `prim`'s contract on a symmetric graph is a minimum spanning forest of the stored edges between the nodes it reaches |
| MinimumSpanning.PrimReachesAll | src/graph/prim.rs:58-74 | on a connected graph with valid ids, `prim`'s result reaches both ends of every stored edge |
| MinimumSpanning.SameTotalCost | src/graph/prim.rs:48-75 | `prim` and `kruskal` on one connected graph built by `prim`'s symmetric `add_edge` both return minimum spanning forests of the stored edges, with as many edges and the same total cost |
| LinkedLists.Node.constructor | src/data_structure/linked_list.rs:23 | a new node holds `val` and has no successor |
| LinkedLists.LinkedList.constructor | src/data_structure/linked_list.rs:17-19 | a new list is empty, with no head and no tail |
| LinkedLists.LinkedList.Push | src/data_structure/linked_list.rs:21-31 | `val` is appended at the tail; head and tail are both set |
| LinkedLists.LinkedList.Pop | src/data_structure/linked_list.rs:33-45 | empty list: `None`; otherwise the front is returned and removed; head is `None` exactly when tail is |
| LinkedLists.LinkedList.Peek | src/data_structure/linked_list.rs:47-49 | the front value, or `None`, and nothing changes |
| LinkedLists.LinkedList.PeekMut | src/data_structure/linked_list.rs:51-53 | a write through `peek_mut` changes only the front value |
| LinkedLists.LinkedList.SetVal | src/data_structure/linked_list.rs:108-112 | a write through a node's mutable reference changes only that value |
| LinkedLists.LinkedList.Iter | src/data_structure/linked_list.rs:55-57 | iteration yields the values from head to tail |
| LinkedLists.LinkedList.IterMut | src/data_structure/linked_list.rs:59-63 | updating through `iter_mut` changes every value in place and keeps the node chain |
| LinkedLists.LinkedList.Drain | src/data_structure/linked_list.rs:72-86 | `into_iter` yields the contents in FIFO order and leaves the list empty |
| LinkedLists.BasicsStart | src/data_structure/linked_list.rs:121-128 | the opening pops of the basics test give `None`, 1, 2 |
| LinkedLists.PushTwoPopFour | src/data_structure/linked_list.rs:130-135 | two pushes onto a one-element list, then four pops, give the front, both values, `None` |
| LinkedLists.PushTwoPopThree | src/data_structure/linked_list.rs:137-141 | two pushes onto an empty list, then three pops, give both values, `None` |
| LinkedLists.Basics | src/data_structure/linked_list.rs:119-142 | the asserted pops of the basics test |
| LinkedLists.FromSeq | src/data_structure/linked_list.rs:21-31 | pushing `xs` in order gives the list holding `xs` |
| LinkedLists.Iterators | src/data_structure/linked_list.rs:144-170 | `into_iter` and `iter` over pushes of 1, 2, 3 yield 1, 2, 3 |
| LinkedLists.MixedStart | src/data_structure/linked_list.rs:187-198 | the opening of the mixed test |
| LinkedLists.MixedMiddle | src/data_structure/linked_list.rs:199-204 | `peek_mut` multiplies the front by 10; then peek and pop give 30 |
| LinkedLists.MixedEnd | src/data_structure/linked_list.rs:206-221 | `iter_mut` scales by 100, giving 400, 500, 600; then the pop gives 400 and the new front becomes 5000 |
| LinkedLists.Mixed | src/data_structure/linked_list.rs:186-222 | every assertion of the mixed test |
| TravGraph.NeighboursFromMembers | src/traversal/breadth_first_search.rs:14-20 | `y` is a neighbour from index `i` on exactly when some later edge is `(n, y)` |
| TravGraph.NeighboursMembers | src/traversal/breadth_first_search.rs:14-20 | `y` is a neighbour of `n` exactly when `(n, y)` is an edge |
| TravGraph.NeighboursAppend | src/traversal/depth_first_search.rs:65-73 | the neighbours keep edge-list order: appending an edge appends its `to` |
| TravGraph.NeighboursInRange | src/traversal/breadth_first_search.rs:36 | with every edge's `to` in range, every neighbour is a valid id |
| TravGraph.ClosedHoldsReachable | src/traversal/breadth_first_search.rs:42-46 | a set closed under neighbours holds every node reachable from its members |
| Bfs.EnqueueFacts | src/traversal/breadth_first_search.rs:42-46 | the enqueue loop marks exactly the new neighbours visited and queues each of them once |
| Bfs.EnqueueAll | src/traversal/breadth_first_search.rs:42-46 | the enqueue loop computes `Enqueue` |
| Bfs.StepInv | src/traversal/breadth_first_search.rs:35-46 | one dequeue of a non-target keeps the search invariant |
| Bfs.EmptyQueue | src/traversal/breadth_first_search.rs:35-48 | with the queue empty, no node reachable from the root holds the target |
| Bfs.CountedOrder | src/traversal/breadth_first_search.rs:32-33 | each id is dequeued at most once |
| Bfs.LoopOutcome | src/traversal/breadth_first_search.rs:35-48 | from an invariant state the loop ends soundly: a reachable target with matching path, or none reachable |
| Bfs.BreadthFirstSearch | src/traversal/breadth_first_search.rs:24-49 | the loop's result; `Some(id)` names a reachable node holding the target, the last path value; `None` exactly when no reachable node holds it |
| Bfs.TreeSearch | src/traversal/breadth_first_search.rs:118-130 | on graph 1 the search for 8 gives the path `[1..8]` and `Some(7)` |
| Bfs.TreeMisses | src/traversal/breadth_first_search.rs:108-116 | on graph 1 the search for 10 finds nothing |
| Bfs.ComponentsSearch | src/traversal/breadth_first_search.rs:143-154 | on graph 2 from 3 the search for 1 gives `[4,3,7,6,2,1]` and `Some(0)` |
| Bfs.ComponentsMisses | src/traversal/breadth_first_search.rs:132-141 | on graph 2 from 0 the search for 8 finds nothing |
| Dfs.PushRevFacts | src/traversal/depth_first_search.rs:56-60 | the push loop marks exactly the new neighbours visited and adds each once |
| Dfs.PushRevOrder | src/traversal/depth_first_search.rs:56-60 | pushing fresh distinct neighbours in reverse to the front puts them in list order before the old queue |
| Dfs.ItOutcomeSound | src/traversal/depth_first_search.rs:50-62 | from an invariant state the loop's result is sound |
| Dfs.PushAllRev | src/traversal/depth_first_search.rs:56-60 | the push loop computes `PushRev` |
| Dfs.DepthFirstSearchIt | src/traversal/depth_first_search.rs:40-63 | the path starts at the root; the popped id is compared with `target.0`; found exactly when that id is reachable; non-root ids appear at most once |
| Dfs.RankedAcyclic | src/traversal/depth_first_search.rs:13-15 | in a ranked graph every path strictly lowers the rank, so there is no cycle |
| Dfs.EnterExtends | src/traversal/depth_first_search.rs:22-24 | entering a node extends the path only by that node, and only if it is absent |
| Dfs.DfsRecSound | src/traversal/depth_first_search.rs:16-37 | the path only grows, without duplicates; `Some(id)` is the first node holding the target in preorder; `None` means no reachable node holds it |
| Dfs.DfsEachSound | src/traversal/depth_first_search.rs:31-36 | the neighbour loop returns the first neighbour subtree's find, in list order |
| Dfs.DepthFirstSearchRec | src/traversal/depth_first_search.rs:16-37 | the recursive method computes `DfsRec` on graphs with a ranking that every edge descends; such graphs have no cycle, and on a cycle the recursion can fail to end |
| Dfs.CycleUnranked | src/traversal/depth_first_search.rs:13-15 | a two-node cycle has no ranking |
| Dfs.CycleRepeats | src/traversal/depth_first_search.rs:13-15 | on a two-node cycle the recursion reaches its first call's arguments again, with the target absent, so it does not end |
| Dfs.BinaryMisses | src/traversal/depth_first_search.rs:79-97 | on the binary tree the search for 99 gives the full preorder path and `None` |
| Dfs.BinaryFinds | src/traversal/depth_first_search.rs:99-117 | on the binary tree the search for 6 gives `[0,1,3,4,2,5]` and `Some(5)` |
| Dfs.CyclicTo6 | src/traversal/depth_first_search.rs:119-145 | on the cyclic graph the iterative search for 6 gives `[0,1,3,2,4,5,7,6]` and `Some(6)` |
| Dfs.CyclicTo4 | src/traversal/depth_first_search.rs:147-174 | the iterative search for 4 gives `[0,1,3,2,4]` and `Some(4)` |
| Base.AdjacentSortedIsSorted | src/sorting/bubble_sort.rs:6-14 | no adjacent inversion means sorted |
| Base.SortedPermutationUnique | src/sorting/bubble_sort.rs:21-38 | two sorted permutations of each other are equal |
| Base.Swap | src/sorting/bubble_sort.rs:10 | `swap(i, j)` exchanges the two entries and keeps the rest |
| Base.SwapPermutes | src/sorting/quick_sort.rs:41 | a swap permutes the sequence |
| Base.Range | src/traversal/breadth_first_search.rs:30 | the ids `0..n` as a set of size `n` |
| SortVectors.SortsTo | src/sorting/bubble_sort.rs:21-38 | a sorted permutation of a test input is the asserted output |
| BubbleSort.SmallerSwap | src/sorting/bubble_sort.rs:10 | an adjacent swap keeps the count of elements below any `x` |
| BubbleSort.SwapInversions | src/sorting/bubble_sort.rs:9-12 | swapping an out-of-order adjacent pair lowers the inversion count by one |
| BubbleSort.Pass | src/sorting/bubble_sort.rs:7-13 | a pass permutes; a swapping pass lowers the inversion count; a pass with no swap changes nothing and found no adjacent inversion |
| BubbleSort.BubbleSort | src/sorting/bubble_sort.rs:1-15 | the slice ends sorted and a permutation of the input |
| BubbleSort.SortSeq | src/sorting/bubble_sort.rs:1-15 | bubble sort on a vector returns its sorted permutation |
| BubbleSort.Examples | src/sorting/bubble_sort.rs:21-38 | the three asserted inputs and the empty input sort as asserted |
| CountingSort.Block | src/sorting/counting_sort.rs:12-15 | `k` copies of `v` |
| CountingSort.LayoutLength | src/sorting/counting_sort.rs:10-16 | the placement up to value `v` writes one slot per element below `v` |
| CountingSort.LayoutCount | src/sorting/counting_sort.rs:10-16 | the placement writes each value below `v` as often as it occurs |
| CountingSort.LayoutSorted | src/sorting/counting_sort.rs:10-16 | the placement writes smaller values first |
| CountingSort.LayoutPermutes | src/sorting/counting_sort.rs:10-16 | with every value below the bound, the placement is a permutation of the input |
| CountingSort.LayoutSorts | src/sorting/counting_sort.rs:10-16 | the full placement writes exactly `len` slots, sorted and a permutation |
| CountingSort.Count | src/sorting/counting_sort.rs:2-7 | `occurences[v]` is how often `v` occurs, for every `v <= maxval` |
| CountingSort.Fill | src/sorting/counting_sort.rs:12-15 | the inner loop writes `occ` copies of the value from slot `i` on |
| CountingSort.Place | src/sorting/counting_sort.rs:10-16 | the placement loop overwrites the slice with the counted values, in order |
| CountingSort.CountingSort | src/sorting/counting_sort.rs:1-17 | with every value `<= maxval`, the slice ends sorted and a permutation of the input |
| CountingSort.SortSeq | src/sorting/counting_sort.rs:1-17 | counting sort on a vector returns its sorted permutation |
| CountingSort.SortsDescending | src/sorting/counting_sort.rs:25-27 | `[6..1]` with bound 6 sorts to `[1..6]` |
| CountingSort.SortsAscending | src/sorting/counting_sort.rs:29-31 | `[1..6]` stays `[1..6]` |
| CountingSort.SortsMixed | src/sorting/counting_sort.rs:33-35 | `[100,30,60,10,20,120,1]` with bound 120 sorts as asserted |
| InsertionSort.RunMax | src/sorting/insertion_sort.rs:1-10 | the running maximum has the input's length |
| InsertionSort.RunMaxIsMax | src/sorting/insertion_sort.rs:2-9 | entry `i` is the largest of the input's first `i+1` values, and is one of them |
| InsertionSort.RunMaxSorted | src/sorting/insertion_sort.rs:2-9 | the result is non-decreasing |
| InsertionSort.RunMaxFixesSorted | src/sorting/insertion_sort.rs:1-10 | the input comes back unchanged exactly when it is sorted |
| InsertionSort.RunMaxStep | src/sorting/insertion_sort.rs:2-8 | one outer turn writes the running maximum at `i` |
| InsertionSort.Shift | src/sorting/insertion_sort.rs:5-8 | on a sorted prefix the inner loop copies at most once, leaving the larger of `input[i-1]` and `input[i]` at `i` |
| InsertionSort.InsertionSort | src/sorting/insertion_sort.rs:1-10 | the slice becomes its running maximum |
| InsertionSort.DescendingFills | src/sorting/insertion_sort.rs:18-20 | `[6,5,4,3,2,1]` becomes all 6s |
| InsertionSort.DescendingLosesElements | src/sorting/insertion_sort.rs:6 | so the output is not a permutation, and the assert at lines 18-20 cannot hold |
| InsertionSort.SortedKept | src/sorting/insertion_sort.rs:22-24 | the sorted input and the empty input come back unchanged |
| QuickSort.ScanUp | src/sorting/quick_sort.rs:19-21 | the `left` scan stops in bounds, at an element not below the pivot, passing only smaller ones |
| QuickSort.ScanDown | src/sorting/quick_sort.rs:22-24 | the `right` scan stops in bounds, at an element not above the pivot, passing only larger ones |
| QuickSort.Scans | src/sorting/quick_sort.rs:19-27 | after both scans, either the break condition holds with the partition property, or the pair is ready to exchange |
| QuickSort.Split | src/sorting/quick_sort.rs:25-27 | at the break, elements from `left` on are at least the pivot |
| QuickSort.Exchange | src/sorting/quick_sort.rs:29-42 | stepping past an equal pair, or swapping with `pivot_idx` following its value, keeps the scan invariant, permutes inside the slice, and lowers the termination measure |
| QuickSort.Partition | src/sorting/quick_sort.rs:13-43 | a permutation of the slice, the rest untouched, split at `left` with `lo <= left < hi`: below it `<=` the pivot, from it on `>=`; `left == lo` only when the slice now starts with its minimum, and never when it started with it |
| QuickSort.SortedJoin | src/sorting/quick_sort.rs:46-47 | sorted parts below and above the pivot join into a sorted slice |
| QuickSort.Combine | src/sorting/quick_sort.rs:46-47 | sorting `[0,left)` then `[left,len)` sorts the slice and permutes it |
| QuickSort.QuickSortSlice | src/sorting/quick_sort.rs:3-48 | the sub-slice ends sorted, the array permuted, the rest untouched |
| QuickSort.QuickSort | src/sorting/quick_sort.rs:3-48 | the slice ends sorted and a permutation of the input |
| QuickSort.SortSeq | src/sorting/quick_sort.rs:3-48 | quick sort on a vector returns its sorted permutation |
| QuickSort.SortsSmall | src/sorting/quick_sort.rs:95-121 | the empty, one-element, pre-sorted and reverse-sorted tests give the asserted vectors |
| QuickSort.SortsBasic | src/sorting/quick_sort.rs:81-86 | the `basic` test sorts `[10, 8, 4, 3, 1, 9, 2, 7, 5, 6]` into `1..10` |
| QuickSort.BasicPerm | src/sorting/quick_sort.rs:81-86 | the `basic` input and `1..10` hold the same elements |
| RadixSort.Digit | src/sorting/radix_sort.rs:10 | a digit lies below the radix, and is 0 at positions above the number |
| RadixSort.DigitIsDivMod | src/sorting/radix_sort.rs:10 | the digit is the source's `(x / p) % r` |
| RadixSort.DistributePermutes | src/sorting/radix_sort.rs:14-16 | one bucket pass is a permutation |
| RadixSort.DistributeKeySorted | src/sorting/radix_sort.rs:14-16 | a stable pass on the digit at `p` extends order below `p` to order below `p·r` |
| RadixSort.RadixOneStalls | src/sorting/radix_sort.rs:26 | with radix 1 a pass changes nothing and `digit_pow` stays put |
| RadixSort.MaxOf | src/sorting/radix_sort.rs:28 | the maximum bounds every element and, for a non-empty slice, is one of them |
| RadixSort.NaiveFromPermutes | src/sorting/radix_sort.rs:6-21 | the naive passes return a permutation |
| RadixSort.NaiveFromSorts | src/sorting/radix_sort.rs:6-21 | the naive passes end sorted when no position up to the maximum has all digits 0 |
| RadixSort.NaiveGoesOn | src/sorting/radix_sort.rs:11-20 | a pass that saw a nonzero digit is followed by the next position |
| RadixSort.NaiveStops | src/sorting/radix_sort.rs:18-20 | a pass that saw only zero digits is the last |
| RadixSort.FirstPass | src/sorting/radix_sort.rs:7-16 | the ones pass turns `[105,2,100]` into `[100,2,105]` |
| RadixSort.SecondPass | src/sorting/radix_sort.rs:7-20 | all tens digits of `[100,2,105]` are 0, so the pass keeps it and the loop ends |
| RadixSort.NaiveStopsEarly | src/sorting/radix_sort.rs:8-20 | `radix_sort_naive([105,2,100])` is `[100,2,105]`, which is not sorted |
| RadixSort.NaiveSorts | src/sorting/radix_sort.rs:3-22 | the naive sort returns a sorted permutation when no position up to the maximum is all zero |
| RadixSort.Spread | src/sorting/radix_sort.rs:7-15 | the bucket loop fills bucket `d` with the digit-`d` elements in order, and `finished` holds exactly when all digits are 0 |
| RadixSort.FlattenBuckets | src/sorting/radix_sort.rs:16 | flattening the buckets gives the pass's distribution |
| RadixSort.RadixSortNaive | src/sorting/radix_sort.rs:3-22 | the method computes the naive passes |
| RadixSort.Log2Ceil | src/sorting/radix_sort.rs:26 | the least exponent from `k` on whose power of two reaches `n` |
| RadixSort.NextPowerOfTwo | src/sorting/radix_sort.rs:26 | `next_power_of_two` is at least 1 and at least `n`; it is 1 for `n <= 1` and at least 2 otherwise |
| RadixSort.InPlaceFromPermutes | src/sorting/radix_sort.rs:31-51 | the in-place passes return a permutation |
| RadixSort.InPlaceFromSorts | src/sorting/radix_sort.rs:31-51 | the in-place passes end sorted when no `p·r^j` equals the maximum |
| RadixSort.InPlaceSorts | src/sorting/radix_sort.rs:24-52 | the in-place sort returns a sorted permutation unless the maximum is a power of the radix |
| RadixSort.InPlaceSkipsLast | src/sorting/radix_sort.rs:28-31 | `[1,0]` has maximum 1, equal to the first `digit_pow`, so it comes back unsorted |
| RadixSort.CountDigits | src/sorting/radix_sort.rs:36-39 | `digit_count[d]` is the size of bucket `d` |
| RadixSort.PrefixSums | src/sorting/radix_sort.rs:41-43 | `digit_count[d]` becomes where bucket `d` ends |
| RadixSort.StartWithin | src/sorting/radix_sort.rs:41-48 | each bucket ends where the next starts, within the slice, so every slot writes in bounds |
| RadixSort.PlaceReversed | src/sorting/radix_sort.rs:45-49 | the reversed placement loop writes the stable distribution |
| RadixSort.PlaceNext | src/sorting/radix_sort.rs:45-48 | one turn of the reversed loop puts `copy[i - 1]` in the last free slot of its digit's bucket and keeps the layout invariant |
| RadixSort.CountingPass | src/sorting/radix_sort.rs:32-49 | one pass of the `while` loop is a stable counting sort on `(x / digit_pow) % radix` |
| RadixSort.RadixSortInPlace | src/sorting/radix_sort.rs:24-52 | the method computes the in-place passes |
| RadixVectors.NextPowerOfTwoEight | src/sorting/radix_sort.rs:26 | `next_power_of_two` of 5 to 8 is 8, the radix of the seven- and eight-element tests |
| RadixVectors.PowersOfEight | src/sorting/radix_sort.rs:31 | the powers of 8 below 4096 are 1, 8, 64 and 512 |
| RadixVectors.NotPowerOfEight | src/sorting/radix_sort.rs:31 | no power of 8 equals a number below 4096 other than those four |
| RadixVectors.MaxOfSeven | src/sorting/radix_sort.rs:28 | the largest element of the descending and ascending vectors is 201 |
| RadixVectors.LiveSeven | src/sorting/radix_sort.rs:8-20 | the descending and ascending vectors have a nonzero digit at every decimal position up to 201 |
| RadixVectors.LiveWikipedia | src/sorting/radix_sort.rs:8-20 | the wikipedia vector has a nonzero digit at every decimal position up to 802 |
| RadixVectors.SevenPerm | src/sorting/radix_sort.rs:71-76 | the descending vector and its expected output hold the same elements |
| RadixVectors.WikipediaPerm | src/sorting/radix_sort.rs:85-90 | the wikipedia vector and its expected output hold the same elements |
| RadixVectors.SortsSeven | src/sorting/radix_sort.rs:58-83 | both sorts turn either seven-element test vector into `[1,4,24,37,64,127,201]` |
| RadixVectors.Descending | src/sorting/radix_sort.rs:71-76 | both sorts return the asserted output on the descending vector |
| RadixVectors.Ascending | src/sorting/radix_sort.rs:78-83 | both sorts return the asserted output on the ascending vector |
| RadixVectors.Empty | src/sorting/radix_sort.rs:64-69 | both sorts return the empty vector on the empty vector |
| RadixVectors.Wikipedia | src/sorting/radix_sort.rs:85-90 | both sorts return `[2,2,45,66,75,90,170,802]` on the wikipedia vector |
| MajorityElement.MajorityUnique | src/general/majority_element.rs:12 | at most one value occurs more than `len/2` times |
| MajorityElement.CountVotes | src/general/majority_element.rs:6-11 | the inner loop counts the occurrences of the candidate |
| MajorityElement.Naive | src/general/majority_element.rs:4-17 | `Some(x)` only for a majority `x`, and `None` exactly when there is none |
| MajorityElement.VoteStep | src/general/majority_element.rs:67-76 | one vote keeps the voting invariant |
| MajorityElement.VotesFindMajority | src/general/majority_element.rs:65-76 | after the voting pass, any majority is the candidate |
| MajorityElement.VotingPass | src/general/majority_element.rs:65-76 | the count stays between 0 and the number of votes, and any majority is the candidate |
| MajorityElement.BoyerMoore | src/general/majority_element.rs:64-85 | `Some(x)` only for a majority `x`, and `None` exactly when there is none |
| MajorityElement.DivideAndConquerSound | src/general/majority_element.rs:21-60 | for `left < right`, a returned value is a majority of `a[left..right)` |
| MajorityElement.Agree | src/general/majority_element.rs:33-35 | equal half results are returned |
| MajorityElement.Disagree | src/general/majority_element.rs:59 | two different half majorities give `None` |
| MajorityElement.DivideAndConquerMisses | src/general/majority_element.rs:59 | `[1,1,1,1,2,2,2]` has majority 1, yet the recursion returns `None` |
| MajorityElement.ExampleDivideAndConquer | src/general/majority_element.rs:98-104 | the test box gives `Some(4)` |
| MajorityElement.Examples | src/general/majority_element.rs:91-110 | `naive` and `booyer_moore` give `Some(4)` on the test box |
| NQueens.PlacementExtend | src/general/n_queens.rs:16-19 | a placement extends by a column exactly when the column is in range and safe |
| NQueens.SolveExtends | src/general/n_queens.rs:11-23 | every solution from a partial placement has `n` rows and extends it |
| NQueens.SolveSound | src/general/n_queens.rs:11-23 | every emitted placement has `n` queens, no two sharing a column or a diagonal |
| NQueens.SolveComplete | src/general/n_queens.rs:11-23 | every valid completion of a partial placement is emitted |
| NQueens.SolveExactly | src/general/n_queens.rs:4-23 | the search emits exactly the valid placements |
| NQueens.SolveOrdered | src/general/n_queens.rs:16-22 | the solutions come in column-lexicographic order, row by row |
| NQueens.ColumnsOrdered | src/general/n_queens.rs:16-22 | the column loop emits its solutions in order |
| NQueens.IsValid | src/general/n_queens.rs:25-38 | `true` exactly when no queen in rows above shares the column or a diagonal |
| NQueens.ValidIsSafe | src/general/n_queens.rs:29-37 | on a board encoding a placement, the rows-above check agrees with `Safe` |
| NQueens.RowString | src/general/n_queens.rs:44-47 | a row becomes `n` characters, `'Q'` exactly at the queens |
| NQueens.BoardToString | src/general/n_queens.rs:41-50 | one string per board row |
| NQueens.Render | src/general/n_queens.rs:41-50 | a placement renders row by row |
| NQueens.RowOf | src/general/n_queens.rs:44-47 | the row string of a queen at `c`: `n` characters, `'Q'` only at `c` |
| NQueens.RenderRows | src/general/n_queens.rs:41-50 | each rendered row has `n` characters and exactly one `'Q'` |
| NQueens.RenderInjective | src/general/n_queens.rs:41-50 | different placements render differently |
| NQueens.RenderAll | src/general/n_queens.rs:13 | the emitted boards, one per placement |
| NQueens.BoardRenders | src/general/n_queens.rs:13 | a board encoding a placement converts to that placement's rendering |
| NQueens.PlaceQueen | src/general/n_queens.rs:18 | setting the cell encodes the placement extended by `col` |
| NQueens.RemoveQueen | src/general/n_queens.rs:20 | clearing the cell restores the previous placement |
| NQueens.Backtrack | src/general/n_queens.rs:11-23 | the call appends every solution extending the current rows, in search order, and restores the board |
| NQueens.SolveNQueens | src/general/n_queens.rs:4-9 | `solve_n_queens(n)` returns the rendering of every valid placement, in search order |
| NQueens.NoQueens | src/general/n_queens.rs:70 | `n = 0` gives one empty solution |
| NQueens.OneQueen | src/general/n_queens.rs:71 | `n = 1` gives `[["Q"]]` |
| NQueens.NoSolutionsTwoThree | src/general/n_queens.rs:72-73 | `n = 2` and `n = 3` give none |
| NQueens.FourQueens | src/general/n_queens.rs:74-83 | `n = 4` gives the two asserted boards |
| NQueensSearch.Queens5 | src/general/n_queens.rs:84-135 | `n = 5` gives the ten asserted boards |
| NQueensSearch.Queens6 | src/general/n_queens.rs:136-161 | `n = 6` gives the four asserted boards |

## Left out

- I/O, `Debug` and `dbg!` output are not modelled.
- Memory management is not modelled: raw pointers, `Box`, `NonNull` and `Drop` (src/data_structure/linked_list.rs:66-70). The list is a class of heap nodes with ghost contents. `Drop` is the pop loop that `Drain` models.
- `BinaryHeap`, `HashMap`, `BTreeMap`, `HashSet` and `VecDeque` internals are not modelled. Where the queue holds entries of equal priority, the model lets extract-min pick any of them.
- `HashMap` iteration order in Kruskal is not modelled. It is the parameter `keys`, any order listing each key once.
- `usize` overflow in cost sums, in `10_usize.pow(digit_idx)` and in `digit_pow *= radix` is not modelled: all of these are unbounded naturals.
- `i32` overflow is not modelled: the list's values, and the test's multiplications by 10 and 100, are unbounded integers.
- Panics are preconditions, not error paths:
  - `counting_sort` requires every value to be at most `maxval`;
  - Kruskal requires every edge's ends to be node ids (`EndsInRange`);
  - A*, BFS and the recursive DFS require edge ends to be node ids;
  - `parent(ni)` requires `ni >= 1`;
  - `divide_and_conquer` requires `left < right`, because `right - 1` underflows otherwise;
  - index panics: `UnionFind.DisjointSet.Find` requires `x < |parent|`, `UnionFind.DisjointSet.Union` requires `x` and `y` below `|parent|`, `Bfs.BreadthFirstSearch` requires `root < |g.nodes|`, and `AStar.AStar` requires `src < |g.nodes|`.
- RadixSort.RadixSortInPlace: requires at least two elements or no element above 1. With one element above 1, `radix` is 1 and the loop at src/sorting/radix_sort.rs:31 never ends. `RadixOneStalls` shows the pass changing nothing.
- Dfs.DepthFirstSearchRec: modelled only on graphs with a ranking that every edge descends (`Ranked`), because on a cycle the recursion can fail to end (`CycleRepeats`). `Ranked` excludes every cyclic graph, including those on which the source ends: when it meets the target before the cycle closes (src/traversal/depth_first_search.rs:26-28), or when no cycle is reachable from the start.
- MinimumSpanning.SameTotalCost: runs both kernels on one graph value. In the source `prim.rs` and `kruskal.rs` each declare their own `Graph` type with the same fields, and only `prim`'s `add_edge` stores both directions. The method requires every key to be a node id (`ValidIds`), which with well-keyed lists implies `kruskal`'s own `EndsInRange`.
- Dijkstra's first test graph (src/graph/dijkstra.rs:104-150) is not modelled; the second one is.
- DijkstraGrid.Graph3: the test fixes a 100 × 100 grid; the model states the result for every number of rows and columns, with `nid` written as repeated addition (`NidIsProduct` ties it to `r * cols + c`).
- A*'s grid test (src/graph/astar.rs:155-194) is not modelled. Its Manhattan heuristic counts a diagonal step as 2 while the step costs 1, so the heuristic overestimates (it is neither admissible nor consistent) and the contract gives no optimality. The test also measures wall-clock time.
- Quick sort's string test and random tests (src/sorting/quick_sort.rs:88-93, :123-135) are not modelled; the generic `Ord` element is `int`.
- QuickSort.Partition: states where `left` ends, not the `[5,3]` trace itself. When `left` stays at the start, the slice starts with its minimum, and the measure covers that case.
- The heap's `from_vec` test (src/data_structure/binary_heap.rs:170-180) is not evaluated on its vector. `FromVecIsHeap` and `PopReturnsMinimum` give its first pop, and `PopBreaksOrder` shows that later pops are not guaranteed.
- The list's `iter_mut` test (src/data_structure/linked_list.rs:172-184) only reads the values through mutable references. `Iterators` covers the same values through `iter`. `IterMut` models an update as a function applied to every value.
- N-Queens: `&mut solutions` is passed in and returned as a sequence; the board is a two-dimensional array.
- `divide_and_conquer` is modelled as written. No corrected version is given.
- The insertion sort's test is not compiled in the source (src/sorting/mod.rs does not declare the file). `DescendingLosesElements` shows that its first assertion cannot hold.
- UnionFind.UnionRoots: for a same-root union it states that ranks and roots are unchanged. The two finds may still halve paths, so `parent` can change.
- Dijkstra.Dijkstra: the "strictly smaller" replacement is stated per edge, in `RelaxEdge`, not on the whole run.
