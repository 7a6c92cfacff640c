/** The union-find forest of src/data_structure/disjoint_set.rs: `parent` and
    `rank` vectors, `find` with path halving and `union` by rank.  The class
    keeps both vectors as `seq<nat>` fields; `find` and `union` are also given
    as functions on the two sequences, about which the partition properties
    are proved. */
module UnionFind {

  /** An upper bound of all ranks; the distance of a rank to it is the
      termination measure of the walk to a root. */
  function MaxRank(rank: seq<nat>): (m: nat)
    ensures forall i :: 0 <= i < |rank| ==> rank[i] <= m
  {
    if rank == [] then 0
    else
      var m := MaxRank(rank[1..]);
      assert forall i :: 1 <= i < |rank| ==> rank[i] == rank[1..][i - 1];
      if rank[0] > m then rank[0] else m
  }

  /** The forest shape: equal lengths, parents in range, and every non-root
      ranked strictly below its parent. */
  ghost predicate WellFormed(parent: seq<nat>, rank: seq<nat>)
  {
    && |parent| == |rank|
    && (forall i :: 0 <= i < |parent| ==> parent[i] < |parent|)
    && (forall i :: 0 <= i < |parent| && parent[i] != i ==> rank[i] < rank[parent[i]])
  }

  /** The root reached from `x` by following parent pointers. */
  function Root(parent: seq<nat>, rank: seq<nat>, x: nat): (r: nat)
    requires WellFormed(parent, rank) && x < |parent|
    ensures r < |parent| && parent[r] == r && rank[x] <= rank[r]
    decreases MaxRank(rank) - rank[x]
  {
    if parent[x] == x then x else Root(parent, rank, parent[x])
  }

  /** The nodes that are their own parent. */
  ghost function Roots(parent: seq<nat>): set<nat>
  {
    set i | 0 <= i < |parent| && parent[i] == i
  }

  /** The loop of `find`: point `x` at its grandparent, move to it, until a
      root is reached.  Returns the new parent vector and the root. */
  function HalvePath(parent: seq<nat>, rank: seq<nat>, x: nat): (r: (seq<nat>, nat))
    requires WellFormed(parent, rank) && x < |parent|
    ensures |r.0| == |parent| && r.1 < |parent|
    decreases MaxRank(rank) - rank[x]
  {
    if parent[x] == x then (parent, x)
    else
      var p := parent[x := parent[parent[x]]];
      HalveKeepsShape(parent, rank, x);
      HalvePath(p, rank, p[x])
  }

  /** One halving step keeps the forest well formed. */
  lemma HalveKeepsShape(parent: seq<nat>, rank: seq<nat>, x: nat)
    requires WellFormed(parent, rank) && x < |parent| && parent[x] != x
    ensures WellFormed(parent[x := parent[parent[x]]], rank)
    ensures parent[parent[x]] != x && rank[x] < rank[parent[parent[x]]]
  {
  }

  /** One halving step changes no node's root and no node's rootness. */
  lemma {:induction false} HalveStepKeepsRoots(parent: seq<nat>, rank: seq<nat>, x: nat, y: nat)
    requires WellFormed(parent, rank) && x < |parent| && parent[x] != x && y < |parent|
    ensures WellFormed(parent[x := parent[parent[x]]], rank)
    ensures Root(parent[x := parent[parent[x]]], rank, y) == Root(parent, rank, y)
    decreases MaxRank(rank) - rank[y]
  {
    HalveKeepsShape(parent, rank, x);
    var p := parent[x := parent[parent[x]]];
    if y != x {
      if parent[y] != y {
        HalveStepKeepsRoots(parent, rank, x, parent[y]);
      }
    } else {
      var g := parent[parent[x]];
      HalveStepKeepsRoots(parent, rank, x, g);
      assert Root(p, rank, x) == Root(p, rank, g);
      if parent[parent[x]] != parent[x] {
        assert Root(parent, rank, parent[x]) == Root(parent, rank, g);
      }
    }
  }

  /** `find` returns the root of `x`, leaves the forest well formed, keeps
      every node's root and keeps the set of roots. */
  lemma {:induction false} HalvePathCorrect(parent: seq<nat>, rank: seq<nat>, x: nat)
    requires WellFormed(parent, rank) && x < |parent|
    ensures var (p, r) := HalvePath(parent, rank, x);
            && WellFormed(p, rank)
            && r == Root(parent, rank, x) && p[r] == r
            && (forall y :: 0 <= y < |parent| ==> Root(p, rank, y) == Root(parent, rank, y))
            && Roots(p) == Roots(parent)
    decreases MaxRank(rank) - rank[x]
  {
    if parent[x] != x {
      var p := parent[x := parent[parent[x]]];
      HalveKeepsShape(parent, rank, x);
      forall y | 0 <= y < |parent| ensures Root(p, rank, y) == Root(parent, rank, y) {
        HalveStepKeepsRoots(parent, rank, x, y);
      }
      assert Roots(p) == Roots(parent);
      HalvePathCorrect(p, rank, p[x]);
      assert Root(parent, rank, x) == Root(parent, rank, parent[x]);
      if parent[parent[x]] != parent[x] {
        assert Root(parent, rank, parent[x]) == Root(parent, rank, parent[parent[x]]);
      }
    }
  }

  /** The tail of `union` once both roots are known: link the lower-ranked
      root under the other, or `ry` under `rx` with a rank increment on a tie. */
  function Link(parent: seq<nat>, rank: seq<nat>, rx: nat, ry: nat): (r: (seq<nat>, seq<nat>))
    requires rx < |parent| && ry < |parent| && |rank| == |parent|
    ensures |r.0| == |parent| && |r.1| == |rank|
  {
    if rx == ry then (parent, rank)
    else if rank[rx] > rank[ry] then (parent[ry := rx], rank)
    else if rank[rx] < rank[ry] then (parent[rx := ry], rank)
    else (parent[ry := rx], rank[rx := rank[rx] + 1])
  }

  /** `union(x, y)`: two finds, then the link of the two roots. */
  function UnionSeq(parent: seq<nat>, rank: seq<nat>, x: nat, y: nat): (r: (seq<nat>, seq<nat>))
    requires WellFormed(parent, rank) && x < |parent| && y < |parent|
    ensures |r.0| == |parent| && |r.1| == |rank|
  {
    var (p1, rx) := HalvePath(parent, rank, x);
    HalvePathCorrect(parent, rank, x);
    var (p2, ry) := HalvePath(p1, rank, y);
    Link(p2, rank, rx, ry)
  }

  /** The root that wins the link of `rx` and `ry`. */
  function Winner(rank: seq<nat>, rx: nat, ry: nat): nat
    requires rx < |rank| && ry < |rank|
  {
    if rank[rx] < rank[ry] then ry else rx
  }

  /** The loser of a link: `rx` when it is ranked below `ry`, else `ry`. */
  function Loser(rank: seq<nat>, rx: nat, ry: nat): nat
    requires rx < |rank| && ry < |rank|
  {
    if rank[rx] < rank[ry] then rx else ry
  }

  /** Linking two distinct roots keeps the forest well formed and sends every
      node of either tree to the winner, and every other node to its old root. */
  lemma {:induction false} LinkRoots(parent: seq<nat>, rank: seq<nat>, rx: nat, ry: nat, z: nat)
    requires WellFormed(parent, rank) && rx < |parent| && ry < |parent| && z < |parent|
    requires parent[rx] == rx && parent[ry] == ry && rx != ry
    ensures WellFormed(Link(parent, rank, rx, ry).0, Link(parent, rank, rx, ry).1)
    ensures var (p, k) := Link(parent, rank, rx, ry);
            Root(p, k, z) ==
              (if Root(parent, rank, z) in {rx, ry} then Winner(rank, rx, ry) else Root(parent, rank, z))
    decreases MaxRank(rank) - rank[z]
  {
    var (p, k) := Link(parent, rank, rx, ry);
    var w, l := Winner(rank, rx, ry), Loser(rank, rx, ry);
    assert p == parent[l := w];
    assert forall i :: 0 <= i < |parent| && i != rx ==> k[i] == rank[i];
    assert k[rx] >= rank[rx];
    assert WellFormed(p, k);
    if z == l {
      assert Root(p, k, z) == Root(p, k, w) == w;
    } else if parent[z] != z {
      LinkRoots(parent, rank, rx, ry, parent[z]);
    }
  }

  /** The two finds of `union` keep every root and return the roots of `x` and `y`. */
  lemma TwoFinds(parent: seq<nat>, rank: seq<nat>, x: nat, y: nat)
    requires WellFormed(parent, rank) && x < |parent| && y < |parent|
    ensures var (p1, rx) := HalvePath(parent, rank, x);
            && WellFormed(p1, rank) && y < |p1|
            && var (p2, ry) := HalvePath(p1, rank, y);
               && WellFormed(p2, rank)
               && rx == Root(parent, rank, x) && ry == Root(parent, rank, y)
               && p2[rx] == rx && p2[ry] == ry
               && (forall z :: 0 <= z < |parent| ==> Root(p2, rank, z) == Root(parent, rank, z))
               && Roots(p2) == Roots(parent)
               && UnionSeq(parent, rank, x, y) == Link(p2, rank, rx, ry)
  {
    HalvePathCorrect(parent, rank, x);
    var (p1, rx) := HalvePath(parent, rank, x);
    HalvePathCorrect(p1, rank, y);
  }

  /** Linking two distinct roots: the forest stays well formed and the two
      trees are merged under the winner. */
  lemma LinkMerges(parent: seq<nat>, rank: seq<nat>, rx: nat, ry: nat)
    requires WellFormed(parent, rank) && rx < |parent| && ry < |parent|
    requires parent[rx] == rx && parent[ry] == ry && rx != ry
    ensures WellFormed(Link(parent, rank, rx, ry).0, Link(parent, rank, rx, ry).1)
    ensures forall z :: 0 <= z < |parent| ==>
              Root(Link(parent, rank, rx, ry).0, Link(parent, rank, rx, ry).1, z) ==
                (if Root(parent, rank, z) in {rx, ry} then Winner(rank, rx, ry) else Root(parent, rank, z))
  {
    forall z | 0 <= z < |parent|
      ensures Root(Link(parent, rank, rx, ry).0, Link(parent, rank, rx, ry).1, z) ==
                (if Root(parent, rank, z) in {rx, ry} then Winner(rank, rx, ry) else Root(parent, rank, z))
    {
      LinkRoots(parent, rank, rx, ry, z);
    }
    LinkRoots(parent, rank, rx, ry, rx);
  }

  /** `union` keeps the forest well formed. */
  lemma UnionKeepsShape(parent: seq<nat>, rank: seq<nat>, x: nat, y: nat)
    requires WellFormed(parent, rank) && x < |parent| && y < |parent|
    ensures WellFormed(UnionSeq(parent, rank, x, y).0, UnionSeq(parent, rank, x, y).1)
  {
    TwoFinds(parent, rank, x, y);
    var (p1, rx) := HalvePath(parent, rank, x);
    var (p2, ry) := HalvePath(p1, rank, y);
    if rx != ry {
      LinkMerges(p2, rank, rx, ry);
    }
  }

  /** After `union(x, y)`, `x` and `y` share a root, which is one of their
      old roots, every node that was with `x` or `y` has that root, and every
      other node keeps its root. */
  lemma UnionMerges(parent: seq<nat>, rank: seq<nat>, x: nat, y: nat)
    requires WellFormed(parent, rank) && x < |parent| && y < |parent|
    ensures WellFormed(UnionSeq(parent, rank, x, y).0, UnionSeq(parent, rank, x, y).1)
    ensures var u := UnionSeq(parent, rank, x, y);
            && Root(u.0, u.1, x) == Root(u.0, u.1, y)
            && Root(u.0, u.1, x) in {Root(parent, rank, x), Root(parent, rank, y)}
            && (forall z :: 0 <= z < |parent| ==>
                  Root(u.0, u.1, z) ==
                    (if Root(parent, rank, z) in {Root(parent, rank, x), Root(parent, rank, y)}
                     then Root(u.0, u.1, x) else Root(parent, rank, z)))
  {
    TwoFinds(parent, rank, x, y);
    var (p1, rx) := HalvePath(parent, rank, x);
    var (p2, ry) := HalvePath(p1, rank, y);
    if rx != ry {
      LinkMerges(p2, rank, rx, ry);
    }
  }

  /** `union` of two distinct sets removes exactly the losing root from the
      set of roots; `union` within one set keeps the roots and the ranks. */
  lemma UnionRoots(parent: seq<nat>, rank: seq<nat>, x: nat, y: nat)
    requires WellFormed(parent, rank) && x < |parent| && y < |parent|
    ensures var (p, k) := UnionSeq(parent, rank, x, y);
            var rx, ry := Root(parent, rank, x), Root(parent, rank, y);
            && (rx != ry ==> Roots(p) == Roots(parent) - {Loser(rank, rx, ry)})
            && (rx == ry ==> k == rank && Roots(p) == Roots(parent))
  {
    TwoFinds(parent, rank, x, y);
    var (p1, rx) := HalvePath(parent, rank, x);
    var (p2, ry) := HalvePath(p1, rank, y);
    if rx != ry {
      var l := Loser(rank, rx, ry);
      assert Link(p2, rank, rx, ry).0 == p2[l := Winner(rank, rx, ry)];
      assert Roots(Link(p2, rank, rx, ry).0) == Roots(p2) - {l};
    }
  }

  /** Ranks change only when two distinct roots of equal rank are linked, and
      then only the winner's rank, by one. */
  lemma UnionRank(parent: seq<nat>, rank: seq<nat>, x: nat, y: nat)
    requires WellFormed(parent, rank) && x < |parent| && y < |parent|
    ensures var rx, ry := Root(parent, rank, x), Root(parent, rank, y);
            var k := UnionSeq(parent, rank, x, y).1;
            if rx != ry && rank[rx] == rank[ry] then k == rank[rx := rank[rx] + 1]
            else k == rank
  {
    TwoFinds(parent, rank, x, y);
  }

  /** `(0..n).collect()`. */
  function Identity(n: nat): (p: seq<nat>)
    ensures |p| == n && forall i :: 0 <= i < n ==> p[i] == i
  {
    seq(n, i => i)
  }

  /** `vec![0; n]`. */
  function Zeros(n: nat): (k: seq<nat>)
    ensures |k| == n && forall i :: 0 <= i < n ==> k[i] == 0
  {
    seq(n, i => 0)
  }

  /** The initial forest of `new(n)`: every node is its own root. */
  lemma FreshForest(n: nat)
    ensures WellFormed(Identity(n), Zeros(n))
    ensures forall x :: 0 <= x < n ==> Root(Identity(n), Zeros(n), x) == x
    ensures forall x: nat :: x in Roots(Identity(n)) <==> x < n
  {
  }

  class DisjointSet {
    var parent: seq<nat>
    var rank: seq<nat>

    ghost predicate Valid()
      reads this
    {
      WellFormed(parent, rank)
    }

    function Size(): (n: nat)
      reads this
      ensures n == |parent|
    {
      |parent|
    }

    constructor (size: nat)
      ensures Valid()
      ensures parent == Identity(size) && rank == Zeros(size)
    {
      parent := Identity(size);
      rank := Zeros(size);
    }

    method Find(x: nat) returns (r: nat)
      requires Valid() && x < |parent|
      modifies this
      ensures (parent, r) == HalvePath(old(parent), old(rank), x)
      ensures rank == old(rank) && Valid()
      ensures r == Root(old(parent), rank, x) && parent[r] == r
      ensures forall y :: 0 <= y < |parent| ==> Root(parent, rank, y) == Root(old(parent), rank, y)
    {
      HalvePathCorrect(parent, rank, x);
      var cur: nat := x;
      while parent[cur] != cur
        invariant rank == old(rank) && WellFormed(parent, rank) && cur < |parent|
        invariant HalvePath(parent, rank, cur) == HalvePath(old(parent), rank, x)
        decreases MaxRank(rank) - rank[cur]
      {
        HalveKeepsShape(parent, rank, cur);
        parent := parent[cur := parent[parent[cur]]];
        cur := parent[cur];
      }
      r := cur;
    }

    method Union(x: nat, y: nat)
      requires Valid() && x < |parent| && y < |parent|
      modifies this
      ensures (parent, rank) == UnionSeq(old(parent), old(rank), x, y)
      ensures Valid()
    {
      UnionKeepsShape(parent, rank, x, y);
      var rootX := Find(x);
      var rootY := Find(y);
      if rootX != rootY {
        if rank[rootX] > rank[rootY] {
          parent := parent[rootY := rootX];
        } else if rank[rootX] < rank[rootY] {
          parent := parent[rootX := rootY];
        } else {
          parent := parent[rootY := rootX];
          rank := rank[rootX := rank[rootX] + 1];
        }
      }
    }
  }

  /** The chained unions 0-1, 1-2, 2-3 on five nodes, step by step. */
  lemma ChainSteps()
    ensures WellFormed([0, 1, 2, 3, 4], [0, 0, 0, 0, 0])
    ensures UnionSeq([0, 1, 2, 3, 4], [0, 0, 0, 0, 0], 0, 1) == ([0, 0, 2, 3, 4], [1, 0, 0, 0, 0])
    ensures WellFormed([0, 0, 2, 3, 4], [1, 0, 0, 0, 0])
    ensures UnionSeq([0, 0, 2, 3, 4], [1, 0, 0, 0, 0], 1, 2) == ([0, 0, 0, 3, 4], [1, 0, 0, 0, 0])
    ensures WellFormed([0, 0, 0, 3, 4], [1, 0, 0, 0, 0])
    ensures UnionSeq([0, 0, 0, 3, 4], [1, 0, 0, 0, 0], 2, 3) == ([0, 0, 0, 0, 4], [1, 0, 0, 0, 0])
  {
    assert Identity(5) == [0, 1, 2, 3, 4] && Zeros(5) == [0, 0, 0, 0, 0];
    assert [0, 1, 2, 3, 4][1 := 0] == [0, 0, 2, 3, 4];
    assert [0, 0, 0, 0, 0][0 := 1] == [1, 0, 0, 0, 0];
    assert HalvePath([0, 1, 2, 3, 4], [0, 0, 0, 0, 0], 0) == ([0, 1, 2, 3, 4], 0);
    assert HalvePath([0, 1, 2, 3, 4], [0, 0, 0, 0, 0], 1) == ([0, 1, 2, 3, 4], 1);
    assert [0, 0, 2, 3, 4][1 := 0] == [0, 0, 2, 3, 4];
    assert [0, 0, 2, 3, 4][2 := 0] == [0, 0, 0, 3, 4];
    assert [0, 0, 0, 3, 4][2 := 0] == [0, 0, 0, 3, 4];
    assert [0, 0, 0, 3, 4][3 := 0] == [0, 0, 0, 0, 4];
  }

  lemma FindSteps()
    ensures WellFormed([0, 0, 0, 0, 4], [1, 0, 0, 0, 0])
    ensures forall i :: 0 <= i < 4 ==>
              HalvePath([0, 0, 0, 0, 4], [1, 0, 0, 0, 0], i) == ([0, 0, 0, 0, 4], 0)
  {
    var p: seq<nat> := [0, 0, 0, 0, 4];
    forall i | 0 <= i < 4
      ensures HalvePath(p, [1, 0, 0, 0, 0], i) == (p, 0)
    {
      if i != 0 {
        assert p[i := p[p[i]]] == p;
      }
    }
  }

  /** The chained unions 0-1, 1-2, 2-3 of the source's path-compression test. */
  method ChainedUnions() returns (ds: DisjointSet)
    ensures fresh(ds) && ds.Valid()
    ensures ds.parent == [0, 0, 0, 0, 4] && ds.rank == [1, 0, 0, 0, 0]
  {
    ChainSteps();
    ds := new DisjointSet(5);
    assert ds.parent == [0, 1, 2, 3, 4] && ds.rank == [0, 0, 0, 0, 0];
    ds.Union(0, 1);
    ds.Union(1, 2);
    ds.Union(2, 3);
  }

  /** The source's path-compression test: after the chained unions every one
      of nodes 0..3 points straight at the common root, which `find` returns. */
  method PathCompressionScenario() returns (root: nat, finds: seq<nat>, parents: seq<nat>)
    ensures root == 0 && finds == [0, 0, 0, 0] && |parents| == 5 && parents[..4] == [0, 0, 0, 0]
  {
    FindSteps();
    var ds := ChainedUnions();
    root := ds.Find(0);
    var f0 := ds.Find(0);
    var f1 := ds.Find(1);
    var f2 := ds.Find(2);
    var f3 := ds.Find(3);
    finds := [f0, f1, f2, f3];
    parents := ds.parent;
  }
}
