/** The grid test of src/graph/dijkstra.rs, for any number of rows and
    columns: the nested loops visit the cells in row-major order, each cell
    pushes its `(row, col)` node and adds unit edges down, right and
    diagonally down-right where those neighbours exist, and `dijkstra` from
    the corner records the cost `max(row, col)` for every cell. */
module DijkstraGrid {
  import opened Base
  import opened Graphs
  import opened Dijkstra

  function Max(a: nat, b: nat): nat
  {
    if a >= b then a else b
  }

  /** The test's `nid`, `r * cols + c` (`NidIsProduct`), written as repeated
      addition so that the solver meets no multiplication. */
  function Nid(cols: nat, r: nat, c: nat): nat
  {
    if r == 0 then c else cols + Nid(cols, r - 1, c)
  }

  /** `nid` is the source's `r * cols + c`. */
  lemma {:induction false} NidIsProduct(cols: nat, r: nat, c: nat)
    ensures Nid(cols, r, c) == r * cols + c
  {
    if r > 0 {
      NidIsProduct(cols, r - 1, c);
      assert r * cols == (r - 1) * cols + cols;
    }
  }

  /** The number of cells, `rows * cols` by `NidIsProduct`. */
  function Area(rows: nat, cols: nat): nat
  {
    Nid(cols, rows, 0)
  }

  /** The id of a cell is the id of the start of its row plus its column. */
  lemma {:induction false} NidShift(cols: nat, r: nat, c: nat)
    ensures Nid(cols, r, c) == Nid(cols, r, 0) + c
  {
    if r > 0 {
      NidShift(cols, r - 1, c);
    }
  }

  /** Later rows start at larger ids. */
  lemma {:induction false} RowStartMono(cols: nat, a: nat, b: nat)
    requires a <= b
    ensures Nid(cols, a, 0) <= Nid(cols, b, 0)
    decreases b
  {
    if a < b {
      RowStartMono(cols, a, b - 1);
    }
  }

  /** Row-major order on cells. */
  predicate Before(r: nat, c: nat, r2: nat, c2: nat)
  {
    r < r2 || (r == r2 && c < c2)
  }

  /** `nid` numbers the cells in row-major order. */
  lemma NidOrder(cols: nat, r: nat, c: nat, r2: nat, c2: nat)
    requires c < cols && c2 <= cols
    ensures Before(r, c, r2, c2) <==> Nid(cols, r, c) < Nid(cols, r2, c2)
  {
    NidShift(cols, r, c);
    NidShift(cols, r2, c2);
    if r < r2 {
      RowStartMono(cols, r + 1, r2);
    } else if r2 < r {
      RowStartMono(cols, r2 + 1, r);
    }
  }

  /** Distinct cells have distinct ids. */
  lemma NidInjective(cols: nat, r: nat, c: nat, r2: nat, c2: nat)
    requires c < cols && c2 < cols && Nid(cols, r, c) == Nid(cols, r2, c2)
    ensures r == r2 && c == c2
  {
    NidOrder(cols, r, c, r2, c2);
    NidOrder(cols, r2, c2, r, c);
  }

  /** A cell inside the grid has an id below `rows * cols`. */
  lemma NidBound(rows: nat, cols: nat, r: nat, c: nat)
    requires r < rows && c < cols
    ensures Nid(cols, r, c) < Area(rows, cols)
  {
    NidOrder(cols, r, c, rows, 0);
  }

  /** Every id below `rows * cols` is the id of a cell inside the grid. */
  lemma {:induction false} CellOf(rows: nat, cols: nat, u: nat) returns (r: nat, c: nat)
    requires u < Area(rows, cols)
    ensures r < rows && c < cols && u == Nid(cols, r, c)
    decreases rows
  {
    var start := Nid(cols, rows - 1, 0);
    if u < start {
      r, c := CellOf(rows - 1, cols, u);
    } else {
      r, c := rows - 1, u - start;
      NidShift(cols, r, c);
    }
  }

  /** The edges the test adds for the cell at row `r` and column `c`, in the
      order it adds them. */
  function Out(rows: nat, cols: nat, r: nat, c: nat): seq<Edge>
  {
    var u := Nid(cols, r, c);
    (if r + 1 < rows then [Edge(u, Nid(cols, r + 1, c), 1)] else [])
    + (if c + 1 < cols then [Edge(u, Nid(cols, r, c + 1), 1)] else [])
    + (if r + 1 < rows && c + 1 < cols then [Edge(u, Nid(cols, r + 1, c + 1), 1)] else [])
  }

  /** `if cond { graph.add_edge(src, dst, 1) }`. */
  function AddEdgeIf(g: Graph<(nat, nat)>, cond: bool, src: nat, dst: nat): Graph<(nat, nat)>
  {
    if cond then AddEdge(g, src, dst, 1) else g
  }

  /** A conditional `add_edge` keeps the nodes and appends to `src`'s list only. */
  lemma AddEdgeIfAppends(g: Graph<(nat, nat)>, cond: bool, src: nat, dst: nat, v: nat)
    ensures AddEdgeIf(g, cond, src, dst).nodes == g.nodes
    ensures Edges(AddEdgeIf(g, cond, src, dst), v) == Edges(g, v) + (if cond && v == src then [Edge(src, dst, 1)] else [])
  {
    AddEdgeAppends(g, src, dst, 1, v);
  }

  /** The body of the inner loop for the cell at row `r` and column `c`:
      push its node, then its edges. */
  function AddCell(g: Graph<(nat, nat)>, rows: nat, cols: nat, r: nat, c: nat): Graph<(nat, nat)>
  {
    var u := Nid(cols, r, c);
    var g0 := Graph(g.nodes + [(r, c)], g.edges);
    var g1 := AddEdgeIf(g0, r + 1 < rows, u, Nid(cols, r + 1, c));
    var g2 := AddEdgeIf(g1, c + 1 < cols, u, Nid(cols, r, c + 1));
    AddEdgeIf(g2, r + 1 < rows && c + 1 < cols, u, Nid(cols, r + 1, c + 1))
  }

  /** The graph once the loops have handled every cell before row `r`,
      column `c`. */
  function Build(rows: nat, cols: nat, r: nat, c: nat): Graph<(nat, nat)>
    requires c <= cols
    decreases r, c
  {
    if c > 0 then AddCell(Build(rows, cols, r, c - 1), rows, cols, r, c - 1)
    else if r > 0 then Build(rows, cols, r - 1, cols)
    else Graph([], map[])
  }

  /** The graph after both loops. */
  function Grid(rows: nat, cols: nat): Graph<(nat, nat)>
  {
    Build(rows, cols, rows, 0)
  }

  /** Adding a cell appends that cell's node. */
  lemma AddCellNode(g: Graph<(nat, nat)>, rows: nat, cols: nat, r: nat, c: nat)
    ensures AddCell(g, rows, cols, r, c).nodes == g.nodes + [(r, c)]
  {
    var u := Nid(cols, r, c);
    var g0 := Graph(g.nodes + [(r, c)], g.edges);
    var g1 := AddEdgeIf(g0, r + 1 < rows, u, Nid(cols, r + 1, c));
    var g2 := AddEdgeIf(g1, c + 1 < cols, u, Nid(cols, r, c + 1));
    AddEdgeIfAppends(g0, r + 1 < rows, u, Nid(cols, r + 1, c), 0);
    AddEdgeIfAppends(g1, c + 1 < cols, u, Nid(cols, r, c + 1), 0);
    AddEdgeIfAppends(g2, r + 1 < rows && c + 1 < cols, u, Nid(cols, r + 1, c + 1), 0);
  }

  /** Adding a cell appends its edges to its own list only. */
  lemma AddCellAppends(g: Graph<(nat, nat)>, rows: nat, cols: nat, r: nat, c: nat, v: nat)
    ensures Edges(AddCell(g, rows, cols, r, c), v) == Edges(g, v) + (if v == Nid(cols, r, c) then Out(rows, cols, r, c) else [])
  {
    var u := Nid(cols, r, c);
    var g0 := Graph(g.nodes + [(r, c)], g.edges);
    var g1 := AddEdgeIf(g0, r + 1 < rows, u, Nid(cols, r + 1, c));
    var g2 := AddEdgeIf(g1, c + 1 < cols, u, Nid(cols, r, c + 1));
    AddEdgeIfAppends(g0, r + 1 < rows, u, Nid(cols, r + 1, c), v);
    AddEdgeIfAppends(g1, c + 1 < cols, u, Nid(cols, r, c + 1), v);
    AddEdgeIfAppends(g2, r + 1 < rows && c + 1 < cols, u, Nid(cols, r + 1, c + 1), v);
    assert Edges(g0, v) == Edges(g, v);
    var d1 := if r + 1 < rows then [Edge(u, Nid(cols, r + 1, c), 1)] else [];
    var d2 := if c + 1 < cols then [Edge(u, Nid(cols, r, c + 1), 1)] else [];
    var d3 := if r + 1 < rows && c + 1 < cols then [Edge(u, Nid(cols, r + 1, c + 1), 1)] else [];
    assert Out(rows, cols, r, c) == d1 + d2 + d3;
    if v == u {
      assert Edges(AddCell(g, rows, cols, r, c), v) == Edges(g, v) + d1 + d2 + d3;
      assert Edges(g, v) + d1 + d2 + d3 == Edges(g, v) + (d1 + d2 + d3);
    } else {
      assert Edges(AddCell(g, rows, cols, r, c), v) == Edges(g, v);
    }
  }

  /** The loops push one node per cell. */
  lemma {:induction false} BuildSize(rows: nat, cols: nat, r: nat, c: nat)
    requires c <= cols
    ensures |Build(rows, cols, r, c).nodes| == Nid(cols, r, c)
    decreases r, c
  {
    if c > 0 {
      BuildSize(rows, cols, r, c - 1);
      AddCellNode(Build(rows, cols, r, c - 1), rows, cols, r, c - 1);
      NidShift(cols, r, c);
      NidShift(cols, r, c - 1);
    } else if r > 0 {
      BuildSize(rows, cols, r - 1, cols);
      NidShift(cols, r - 1, cols);
    }
  }

  /** The loops push the node `(row, col)` at index `nid(row, col)`. */
  lemma {:induction false} BuildNode(rows: nat, cols: nat, r: nat, c: nat, r2: nat, c2: nat)
    requires c <= cols && c2 < cols && Before(r2, c2, r, c)
    ensures Nid(cols, r2, c2) < |Build(rows, cols, r, c).nodes|
    ensures Build(rows, cols, r, c).nodes[Nid(cols, r2, c2)] == (r2, c2)
    decreases r, c
  {
    if c > 0 {
      BuildSize(rows, cols, r, c - 1);
      AddCellNode(Build(rows, cols, r, c - 1), rows, cols, r, c - 1);
      if Before(r2, c2, r, c - 1) {
        BuildNode(rows, cols, r, c - 1, r2, c2);
      } else {
        assert r2 == r && c2 == c - 1;
      }
    } else {
      BuildNode(rows, cols, r - 1, cols, r2, c2);
    }
  }

  /** The loops give each cell handled so far its edges `Out`, and no
      other cell any edge. */
  lemma {:induction false} BuildEdges(rows: nat, cols: nat, r: nat, c: nat)
    requires c <= cols
    ensures forall r2: nat, c2: nat {:trigger Edges(Build(rows, cols, r, c), Nid(cols, r2, c2))} :: c2 < cols ==>
              Edges(Build(rows, cols, r, c), Nid(cols, r2, c2)) == if Before(r2, c2, r, c) then Out(rows, cols, r2, c2) else []
    decreases r, c
  {
    if c > 0 {
      var g := Build(rows, cols, r, c - 1);
      BuildEdges(rows, cols, r, c - 1);
      forall r2: nat, c2: nat | c2 < cols
        ensures Edges(Build(rows, cols, r, c), Nid(cols, r2, c2)) == if Before(r2, c2, r, c) then Out(rows, cols, r2, c2) else []
      {
        AddCellAppends(g, rows, cols, r, c - 1, Nid(cols, r2, c2));
        if Nid(cols, r2, c2) == Nid(cols, r, c - 1) {
          NidInjective(cols, r2, c2, r, c - 1);
        }
      }
    } else if r > 0 {
      BuildEdges(rows, cols, r - 1, cols);
    }
  }

  /** Nodes the loops have not pushed yet have no edges. */
  lemma {:induction false} BuildNoEdges(rows: nat, cols: nat, r: nat, c: nat)
    requires c <= cols
    ensures forall v: nat :: v >= Nid(cols, r, c) ==> Edges(Build(rows, cols, r, c), v) == []
    decreases r, c
  {
    if c > 0 {
      var g := Build(rows, cols, r, c - 1);
      BuildNoEdges(rows, cols, r, c - 1);
      NidShift(cols, r, c);
      NidShift(cols, r, c - 1);
      forall v: nat | v >= Nid(cols, r, c) ensures Edges(Build(rows, cols, r, c), v) == [] {
        AddCellAppends(g, rows, cols, r, c - 1, v);
      }
    } else if r > 0 {
      BuildNoEdges(rows, cols, r - 1, cols);
      NidShift(cols, r - 1, cols);
    }
  }

  /** Every cell of a `rows` by `cols` grid has the edges `Out`. */
  ghost predicate IsGrid(g: Graph<(nat, nat)>, rows: nat, cols: nat)
  {
    forall r: nat, c: nat {:trigger Edges(g, Nid(cols, r, c))} :: r < rows && c < cols ==>
      Edges(g, Nid(cols, r, c)) == Out(rows, cols, r, c)
  }

  /** The grid has one node per cell, and it holds that cell's row and column. */
  ghost predicate GridNodes(g: Graph<(nat, nat)>, rows: nat, cols: nat)
  {
    && |g.nodes| == Area(rows, cols)
    && forall r: nat, c: nat :: r < rows && c < cols ==>
         Nid(cols, r, c) < |g.nodes| && g.nodes[Nid(cols, r, c)] == (r, c)
  }

  /** The test's loops build the grid: node `nid(r, c)` is `(r, c)`, its edges
      are `Out`, and no other node has an edge. */
  lemma GridIsGrid(rows: nat, cols: nat)
    ensures IsGrid(Grid(rows, cols), rows, cols) && GridNodes(Grid(rows, cols), rows, cols)
    ensures forall v: nat :: v >= Area(rows, cols) ==> Edges(Grid(rows, cols), v) == []
  {
    BuildSize(rows, cols, rows, 0);
    forall r: nat, c: nat | r < rows && c < cols
      ensures Nid(cols, r, c) < |Grid(rows, cols).nodes| && Grid(rows, cols).nodes[Nid(cols, r, c)] == (r, c)
    {
      BuildNode(rows, cols, rows, 0, r, c);
    }
    BuildEdges(rows, cols, rows, 0);
    BuildNoEdges(rows, cols, rows, 0);
  }

  /** The cost the test expects for each node: the larger of its row and
      its column. */
  function D(g: Graph<(nat, nat)>): map<nat, nat>
  {
    map u | 0 <= u < |g.nodes| :: Max(g.nodes[u].0, g.nodes[u].1)
  }

  /** An edge the test adds for a cell costs 1 and leads to a cell inside the
      grid whose larger coordinate is at most one more. */
  lemma OutEdge(rows: nat, cols: nat, r: nat, c: nat, e: Edge) returns (r2: nat, c2: nat)
    requires r < rows && c < cols && e in Out(rows, cols, r, c)
    ensures e.cost == 1 && e.dst == Nid(cols, r2, c2)
    ensures r2 < rows && c2 < cols && Max(r2, c2) <= Max(r, c) + 1
  {
    var u := Nid(cols, r, c);
    var down := if r + 1 < rows then [Edge(u, Nid(cols, r + 1, c), 1)] else [];
    var right := if c + 1 < cols then [Edge(u, Nid(cols, r, c + 1), 1)] else [];
    var diag := if r + 1 < rows && c + 1 < cols then [Edge(u, Nid(cols, r + 1, c + 1), 1)] else [];
    assert Out(rows, cols, r, c) == down + right + diag;
    if e in down {
      r2, c2 := r + 1, c;
    } else if e in right {
      r2, c2 := r, c + 1;
    } else {
      assert e in diag;
      r2, c2 := r + 1, c + 1;
    }
  }

  /** No edge of the grid lowers the expected cost by more than its own cost. */
  lemma GridClosed(g: Graph<(nat, nat)>, rows: nat, cols: nat)
    requires IsGrid(g, rows, cols) && GridNodes(g, rows, cols)
    ensures Closed(g, D(g))
  {
    var m := D(g);
    forall u, i | u in m && 0 <= i < |Edges(g, u)|
      ensures Edges(g, u)[i].dst in m && m[Edges(g, u)[i].dst] <= m[u] + Edges(g, u)[i].cost
    {
      var r, c := CellOf(rows, cols, u);
      var r2, c2 := OutEdge(rows, cols, r, c, Edges(g, u)[i]);
      NidBound(rows, cols, r2, c2);
    }
  }

  /** The edge from a cell to the cell below, to its right, or diagonally down-right. */
  lemma CellEdge(g: Graph<(nat, nat)>, rows: nat, cols: nat, pr: nat, pc: nat, r: nat, c: nat) returns (i: nat)
    requires r < rows && c < cols && IsGrid(g, rows, cols)
    requires (r, c) == (pr + 1, pc) || (r, c) == (pr, pc + 1) || (r, c) == (pr + 1, pc + 1)
    ensures i < |Edges(g, Nid(cols, pr, pc))| && Edges(g, Nid(cols, pr, pc))[i] == Edge(Nid(cols, pr, pc), Nid(cols, r, c), 1)
  {
    assert Edges(g, Nid(cols, pr, pc)) == Out(rows, cols, pr, pc);
    i := if (r, c) == (pr + 1, pc + 1) then 2 else if (r, c) == (pr + 1, pc) then 0 else if pr + 1 < rows then 1 else 0;
  }

  /** Every cell is reached from the corner by a walk of cost `max(row, col)`:
      diagonal steps first, then straight down or right. */
  lemma {:induction false} WalkToCell(g: Graph<(nat, nat)>, rows: nat, cols: nat, r: nat, c: nat) returns (ns: seq<nat>, es: seq<Edge>)
    requires r < rows && c < cols && IsGrid(g, rows, cols)
    ensures Reaches(g, 0, Nid(cols, r, c), ns, es) && Cost(es) == Max(r, c)
    decreases r + c
  {
    if r == 0 && c == 0 {
      ReachesSelf(g, 0);
      ns, es := [0], [];
    } else {
      var pr, pc := if r > 0 then r - 1 else 0, if c > 0 then c - 1 else 0;
      var ns0, es0 := WalkToCell(g, rows, cols, pr, pc);
      var t := Nid(cols, pr, pc);
      var i := CellEdge(g, rows, cols, pr, pc, r, c);
      ReachesExtend(g, 0, t, ns0, es0, i);
      ns, es := ns0 + [Edges(g, t)[i].dst], es0 + [Edges(g, t)[i]];
    }
  }

  /** Any shortest-path map of the grid from the corner records `max(row, col)`
      for every cell. */
  lemma GridDistances(g: Graph<(nat, nat)>, rows: nat, cols: nat, prevs: Prevs)
    requires IsGrid(g, rows, cols) && GridNodes(g, rows, cols) && ShortestPathMap(g, 0, prevs)
    ensures forall r: nat, c: nat :: r < rows && c < cols ==>
              Nid(cols, r, c) in prevs && prevs[Nid(cols, r, c)].1 == Max(r, c)
  {
    var m := D(g);
    GridClosed(g, rows, cols);
    forall r: nat, c: nat | r < rows && c < cols
      ensures Nid(cols, r, c) in prevs && prevs[Nid(cols, r, c)].1 == Max(r, c)
    {
      var v := Nid(cols, r, c);
      var ns, es := WalkToCell(g, rows, cols, r, c);
      assert v in prevs && prevs[v].1 <= Max(r, c);
      var ns', es' :| Reaches(g, 0, v, ns', es') && Cost(es') == prevs[v].1;
      NidBound(rows, cols, 0, 0);
      assert m[0] == 0 && m[v] == Max(r, c);
      WalkBound(g, m, ns', es');
    }
  }

  /** The grid test: `dijkstra(graph, 0)` gives the cell at row `r` and
      column `c`, whose id is `nid(r, c)`, the cost `max(r, c)`. */
  method Graph3(rows: nat, cols: nat) returns (res: Prevs)
    ensures forall r: nat, c: nat :: r < rows && c < cols ==>
              Nid(cols, r, c) in res && res[Nid(cols, r, c)].1 == Max(r, c)
  {
    var g := Grid(rows, cols);
    GridIsGrid(rows, cols);
    res := Dijkstra.Dijkstra(g, 0);
    GridDistances(g, rows, cols, res);
  }
}
