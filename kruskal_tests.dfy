/** The tests of src/graph/kruskal.rs on its three test graphs: whatever
    order the map yields its keys in, the cycle condition that `Kruskal`
    guarantees forces every edge of the expected tree into the result, and
    the bound of `n - 1` kept edges leaves room for nothing else, so the
    result has the asserted length, total cost and edge set. */
module KruskalTests {
  import opened Graphs
  import opened Kruskal

  /** What the cut argument needs of a result of `Kruskal` on `g`. */
  ghost predicate Out<V>(g: Graph<V>, mst: seq<Edge>)
  {
    && (forall e :: e in mst ==> exists u :: u in g.edges && e in g.edges[u])
    && (forall u, i :: u in g.edges && 0 <= i < |g.edges[u]| ==>
          Linked(Cheap(mst, g.edges[u][i].cost), g.edges[u][i].src, g.edges[u][i].dst))
    && |mst| < |g.nodes|
  }

  // ----- graph1 (src/graph/kruskal.rs:74-90) -----

  /** The graph the test's `add_edge` calls build. */
  function Built1(): Graph<nat>
  {
    var g := Graph([1, 2, 3, 4, 5], map[]);
    var g := AddEdge(g, 0, 1, 1);
    var g := AddEdge(g, 1, 2, 2);
    var g := AddEdge(g, 2, 3, 3);
    var g := AddEdge(g, 3, 4, 4);
    var g := AddEdge(g, 0, 4, 10);
    AddEdge(g, 1, 3, 5)
  }

  function G1(): Graph<nat>
  {
    Graph([1, 2, 3, 4, 5],
          map[0 := [Edge(0, 1, 1), Edge(0, 4, 10)],
              1 := [Edge(1, 2, 2), Edge(1, 3, 5)],
              2 := [Edge(2, 3, 3)],
              3 := [Edge(3, 4, 4)]])
  }

  function H1_1(): Graph<nat>
  {
    Graph([1, 2, 3, 4, 5],
          map[0 := [Edge(0, 1, 1)]])
  }

  lemma Add1_1()
    ensures AddEdge(Graph([1, 2, 3, 4, 5], map[]), 0, 1, 1) == H1_1()
  {
    assert [] + [Edge(0, 1, 1)] == [Edge(0, 1, 1)];
  }

  function H1_2(): Graph<nat>
  {
    Graph([1, 2, 3, 4, 5],
          map[0 := [Edge(0, 1, 1)],
              1 := [Edge(1, 2, 2)]])
  }

  lemma Add1_2()
    ensures AddEdge(H1_1(), 1, 2, 2) == H1_2()
  {
    assert [] + [Edge(1, 2, 2)] == [Edge(1, 2, 2)];
  }

  function H1_3(): Graph<nat>
  {
    Graph([1, 2, 3, 4, 5],
          map[0 := [Edge(0, 1, 1)],
              1 := [Edge(1, 2, 2)],
              2 := [Edge(2, 3, 3)]])
  }

  lemma Add1_3()
    ensures AddEdge(H1_2(), 2, 3, 3) == H1_3()
  {
    assert [] + [Edge(2, 3, 3)] == [Edge(2, 3, 3)];
  }

  function H1_4(): Graph<nat>
  {
    Graph([1, 2, 3, 4, 5],
          map[0 := [Edge(0, 1, 1)],
              1 := [Edge(1, 2, 2)],
              2 := [Edge(2, 3, 3)],
              3 := [Edge(3, 4, 4)]])
  }

  lemma Add1_4()
    ensures AddEdge(H1_3(), 3, 4, 4) == H1_4()
  {
    assert [] + [Edge(3, 4, 4)] == [Edge(3, 4, 4)];
  }

  function H1_5(): Graph<nat>
  {
    Graph([1, 2, 3, 4, 5],
          map[0 := [Edge(0, 1, 1), Edge(0, 4, 10)],
              1 := [Edge(1, 2, 2)],
              2 := [Edge(2, 3, 3)],
              3 := [Edge(3, 4, 4)]])
  }

  lemma Add1_5()
    ensures AddEdge(H1_4(), 0, 4, 10) == H1_5()
  {
    assert [Edge(0, 1, 1)] + [Edge(0, 4, 10)] == [Edge(0, 1, 1), Edge(0, 4, 10)];
  }

  function H1_6(): Graph<nat>
  {
    Graph([1, 2, 3, 4, 5],
          map[0 := [Edge(0, 1, 1), Edge(0, 4, 10)],
              1 := [Edge(1, 2, 2), Edge(1, 3, 5)],
              2 := [Edge(2, 3, 3)],
              3 := [Edge(3, 4, 4)]])
  }

  lemma Add1_6()
    ensures AddEdge(H1_5(), 1, 3, 5) == H1_6()
  {
    assert [Edge(1, 2, 2)] + [Edge(1, 3, 5)] == [Edge(1, 2, 2), Edge(1, 3, 5)];
  }

  lemma BuiltIsG1()
    ensures Built1() == G1()
  {
    Add1_1();
    Add1_2();
    Add1_3();
    Add1_4();
    Add1_5();
    Add1_6();
    assert H1_6() == G1();
  }

  lemma G1Ends()
    ensures EndsInRange(G1()) && |G1().nodes| == 5
  {
  }

  /** The tree the test expects. */
  function Tree1(): seq<Edge>
  {
    [Edge(0, 1, 1), Edge(1, 2, 2), Edge(2, 3, 3), Edge(3, 4, 4)]
  }

  /** Edge(0, 1, 1) is the only edge of cost 1 or less to leave {0}. */
  lemma Cut1_0()
    ensures LoneCrossing(G1(), 0, 0, {0})
  {
    assert G1().edges[0][0] == Edge(0, 1, 1);
    forall w, j | w in G1().edges && 0 <= j < |G1().edges[w]| && G1().edges[w][j] != Edge(0, 1, 1) && G1().edges[w][j].cost <= 1
      ensures G1().edges[w][j].src in {0} <==> G1().edges[w][j].dst in {0}
    {
    }
  }

  /** Edge(1, 2, 2) is the only edge of cost 2 or less to leave {0, 1}. */
  lemma Cut1_1()
    ensures LoneCrossing(G1(), 1, 0, {0, 1})
  {
    assert G1().edges[1][0] == Edge(1, 2, 2);
    forall w, j | w in G1().edges && 0 <= j < |G1().edges[w]| && G1().edges[w][j] != Edge(1, 2, 2) && G1().edges[w][j].cost <= 2
      ensures G1().edges[w][j].src in {0, 1} <==> G1().edges[w][j].dst in {0, 1}
    {
      if w == 0 {
        assert G1().edges[0] == [Edge(0, 1, 1), Edge(0, 4, 10)];
      }
    }
  }

  /** Edge(2, 3, 3) is the only edge of cost 3 or less to leave {0, 1, 2}. */
  lemma Cut1_2()
    ensures LoneCrossing(G1(), 2, 0, {0, 1, 2})
  {
    assert G1().edges[2][0] == Edge(2, 3, 3);
    forall w, j | w in G1().edges && 0 <= j < |G1().edges[w]| && G1().edges[w][j] != Edge(2, 3, 3) && G1().edges[w][j].cost <= 3
      ensures G1().edges[w][j].src in {0, 1, 2} <==> G1().edges[w][j].dst in {0, 1, 2}
    {
      if w == 0 {
        assert G1().edges[0] == [Edge(0, 1, 1), Edge(0, 4, 10)];
      } else if w == 1 {
        assert G1().edges[1] == [Edge(1, 2, 2), Edge(1, 3, 5)];
      }
    }
  }

  /** Edge(3, 4, 4) is the only edge of cost 4 or less to leave {0, 1, 2, 3}. */
  lemma Cut1_3()
    ensures LoneCrossing(G1(), 3, 0, {0, 1, 2, 3})
  {
    assert G1().edges[3][0] == Edge(3, 4, 4);
    forall w, j | w in G1().edges && 0 <= j < |G1().edges[w]| && G1().edges[w][j] != Edge(3, 4, 4) && G1().edges[w][j].cost <= 4
      ensures G1().edges[w][j].src in {0, 1, 2, 3} <==> G1().edges[w][j].dst in {0, 1, 2, 3}
    {
      if w == 0 {
        assert G1().edges[0] == [Edge(0, 1, 1), Edge(0, 4, 10)];
      } else if w == 1 {
        assert G1().edges[1] == [Edge(1, 2, 2), Edge(1, 3, 5)];
      } else if w == 2 {
        assert G1().edges[2] == [Edge(2, 3, 3)];
      }
    }
  }

  lemma Has1_0(mst: seq<Edge>)
    requires Out(G1(), mst)
    ensures Edge(0, 1, 1) in mst
  {
    Cut1_0();
    Forced(G1(), mst, 0, 0, {0});
  }

  lemma Has1_1(mst: seq<Edge>)
    requires Out(G1(), mst)
    ensures Edge(1, 2, 2) in mst
  {
    Cut1_1();
    Forced(G1(), mst, 1, 0, {0, 1});
  }

  lemma Has1_2(mst: seq<Edge>)
    requires Out(G1(), mst)
    ensures Edge(2, 3, 3) in mst
  {
    Cut1_2();
    Forced(G1(), mst, 2, 0, {0, 1, 2});
  }

  lemma Has1_3(mst: seq<Edge>)
    requires Out(G1(), mst)
    ensures Edge(3, 4, 4) in mst
  {
    Cut1_3();
    Forced(G1(), mst, 3, 0, {0, 1, 2, 3});
  }

  lemma Distinct1()
    ensures forall i, j :: 0 <= i < j < |Tree1()| ==> Tree1()[i] != Tree1()[j]
  {
    var t := Tree1();
    assert t == [Edge(0, 1, 1), Edge(1, 2, 2), Edge(2, 3, 3), Edge(3, 4, 4)];
  }

  /** Every edge of the expected tree is kept, and nothing else. */
  lemma Kept1(mst: seq<Edge>)
    requires Out(G1(), mst)
    ensures multiset(mst) == multiset(Tree1())
  {
    Has1_0(mst);
    Has1_1(mst);
    Has1_2(mst);
    Has1_3(mst);
    Distinct1();
    assert forall x :: x in Tree1() ==> x in mst;
    Fill(mst, Tree1());
  }

  lemma Cost1_1()
    ensures Cost([Edge(0, 1, 1)]) == 1
  {
    CostAppend([], Edge(0, 1, 1));
    assert [] + [Edge(0, 1, 1)] == [Edge(0, 1, 1)];
  }

  lemma Cost1_2()
    ensures Cost([Edge(0, 1, 1), Edge(1, 2, 2)]) == 3
  {
    Cost1_1();
    CostAppend([Edge(0, 1, 1)], Edge(1, 2, 2));
    assert [Edge(0, 1, 1)] + [Edge(1, 2, 2)] == [Edge(0, 1, 1), Edge(1, 2, 2)];
  }

  lemma Cost1_3()
    ensures Cost([Edge(0, 1, 1), Edge(1, 2, 2), Edge(2, 3, 3)]) == 6
  {
    Cost1_2();
    CostAppend([Edge(0, 1, 1), Edge(1, 2, 2)], Edge(2, 3, 3));
    assert [Edge(0, 1, 1), Edge(1, 2, 2)] + [Edge(2, 3, 3)] == [Edge(0, 1, 1), Edge(1, 2, 2), Edge(2, 3, 3)];
  }

  lemma Cost1_4()
    ensures Cost([Edge(0, 1, 1), Edge(1, 2, 2), Edge(2, 3, 3), Edge(3, 4, 4)]) == 10
  {
    Cost1_3();
    CostAppend([Edge(0, 1, 1), Edge(1, 2, 2), Edge(2, 3, 3)], Edge(3, 4, 4));
    assert [Edge(0, 1, 1), Edge(1, 2, 2), Edge(2, 3, 3)] + [Edge(3, 4, 4)] == [Edge(0, 1, 1), Edge(1, 2, 2), Edge(2, 3, 3), Edge(3, 4, 4)];
  }

  lemma Cost1()
    ensures Cost(Tree1()) == 10
  {
    Cost1_4();
  }

  /** The source's `graph1` test, for every order of the map's keys. */
  method KruskalGraph1(keys: seq<nat>) returns (mst: seq<Edge>)
    requires KeyOrder(Built1(), keys)
    ensures |mst| == 4 && Cost(mst) == 10
    ensures forall e :: e in mst <==> e in [Edge(0, 1, 1), Edge(1, 2, 2), Edge(2, 3, 3), Edge(3, 4, 4)]
  {
    BuiltIsG1();
    G1Ends();
    mst := Kruskal.Kruskal(Built1(), keys);
    Kept1(mst);
    assert |multiset(mst)| == |mst|;
    CostPerm(mst, Tree1());
    Cost1();
    assert forall e :: e in mst <==> e in multiset(Tree1());
  }

  // ----- graph2 (src/graph/kruskal.rs:92-107) -----

  /** The graph the test's `add_edge` calls build. */
  function Built2(): Graph<nat>
  {
    var g := Graph([1, 2, 3, 4], map[]);
    var g := AddEdge(g, 0, 1, 1);
    var g := AddEdge(g, 1, 2, 2);
    var g := AddEdge(g, 2, 3, 3);
    var g := AddEdge(g, 3, 0, 4);
    AddEdge(g, 0, 2, 10)
  }

  function G2(): Graph<nat>
  {
    Graph([1, 2, 3, 4],
          map[0 := [Edge(0, 1, 1), Edge(0, 2, 10)],
              1 := [Edge(1, 2, 2)],
              2 := [Edge(2, 3, 3)],
              3 := [Edge(3, 0, 4)]])
  }

  function H2_1(): Graph<nat>
  {
    Graph([1, 2, 3, 4],
          map[0 := [Edge(0, 1, 1)]])
  }

  lemma Add2_1()
    ensures AddEdge(Graph([1, 2, 3, 4], map[]), 0, 1, 1) == H2_1()
  {
    assert [] + [Edge(0, 1, 1)] == [Edge(0, 1, 1)];
  }

  function H2_2(): Graph<nat>
  {
    Graph([1, 2, 3, 4],
          map[0 := [Edge(0, 1, 1)],
              1 := [Edge(1, 2, 2)]])
  }

  lemma Add2_2()
    ensures AddEdge(H2_1(), 1, 2, 2) == H2_2()
  {
    assert [] + [Edge(1, 2, 2)] == [Edge(1, 2, 2)];
  }

  function H2_3(): Graph<nat>
  {
    Graph([1, 2, 3, 4],
          map[0 := [Edge(0, 1, 1)],
              1 := [Edge(1, 2, 2)],
              2 := [Edge(2, 3, 3)]])
  }

  lemma Add2_3()
    ensures AddEdge(H2_2(), 2, 3, 3) == H2_3()
  {
    assert [] + [Edge(2, 3, 3)] == [Edge(2, 3, 3)];
  }

  function H2_4(): Graph<nat>
  {
    Graph([1, 2, 3, 4],
          map[0 := [Edge(0, 1, 1)],
              1 := [Edge(1, 2, 2)],
              2 := [Edge(2, 3, 3)],
              3 := [Edge(3, 0, 4)]])
  }

  lemma Add2_4()
    ensures AddEdge(H2_3(), 3, 0, 4) == H2_4()
  {
    assert [] + [Edge(3, 0, 4)] == [Edge(3, 0, 4)];
  }

  function H2_5(): Graph<nat>
  {
    Graph([1, 2, 3, 4],
          map[0 := [Edge(0, 1, 1), Edge(0, 2, 10)],
              1 := [Edge(1, 2, 2)],
              2 := [Edge(2, 3, 3)],
              3 := [Edge(3, 0, 4)]])
  }

  lemma Add2_5()
    ensures AddEdge(H2_4(), 0, 2, 10) == H2_5()
  {
    assert [Edge(0, 1, 1)] + [Edge(0, 2, 10)] == [Edge(0, 1, 1), Edge(0, 2, 10)];
  }

  lemma BuiltIsG2()
    ensures Built2() == G2()
  {
    Add2_1();
    Add2_2();
    Add2_3();
    Add2_4();
    Add2_5();
    assert H2_5() == G2();
  }

  lemma G2Ends()
    ensures EndsInRange(G2()) && |G2().nodes| == 4
  {
  }

  /** The tree the test expects. */
  function Tree2(): seq<Edge>
  {
    [Edge(0, 1, 1), Edge(1, 2, 2), Edge(2, 3, 3)]
  }

  /** Edge(0, 1, 1) is the only edge of cost 1 or less to leave {0}. */
  lemma Cut2_0()
    ensures LoneCrossing(G2(), 0, 0, {0})
  {
    assert G2().edges[0][0] == Edge(0, 1, 1);
    forall w, j | w in G2().edges && 0 <= j < |G2().edges[w]| && G2().edges[w][j] != Edge(0, 1, 1) && G2().edges[w][j].cost <= 1
      ensures G2().edges[w][j].src in {0} <==> G2().edges[w][j].dst in {0}
    {
    }
  }

  /** Edge(1, 2, 2) is the only edge of cost 2 or less to leave {0, 1}. */
  lemma Cut2_1()
    ensures LoneCrossing(G2(), 1, 0, {0, 1})
  {
    assert G2().edges[1][0] == Edge(1, 2, 2);
    forall w, j | w in G2().edges && 0 <= j < |G2().edges[w]| && G2().edges[w][j] != Edge(1, 2, 2) && G2().edges[w][j].cost <= 2
      ensures G2().edges[w][j].src in {0, 1} <==> G2().edges[w][j].dst in {0, 1}
    {
      if w == 0 {
        assert G2().edges[0] == [Edge(0, 1, 1), Edge(0, 2, 10)];
      }
    }
  }

  /** Edge(2, 3, 3) is the only edge of cost 3 or less to leave {0, 1, 2}. */
  lemma Cut2_2()
    ensures LoneCrossing(G2(), 2, 0, {0, 1, 2})
  {
    assert G2().edges[2][0] == Edge(2, 3, 3);
    forall w, j | w in G2().edges && 0 <= j < |G2().edges[w]| && G2().edges[w][j] != Edge(2, 3, 3) && G2().edges[w][j].cost <= 3
      ensures G2().edges[w][j].src in {0, 1, 2} <==> G2().edges[w][j].dst in {0, 1, 2}
    {
      if w == 0 {
        assert G2().edges[0] == [Edge(0, 1, 1), Edge(0, 2, 10)];
      } else if w == 1 {
        assert G2().edges[1] == [Edge(1, 2, 2)];
      }
    }
  }

  lemma Has2_0(mst: seq<Edge>)
    requires Out(G2(), mst)
    ensures Edge(0, 1, 1) in mst
  {
    Cut2_0();
    Forced(G2(), mst, 0, 0, {0});
  }

  lemma Has2_1(mst: seq<Edge>)
    requires Out(G2(), mst)
    ensures Edge(1, 2, 2) in mst
  {
    Cut2_1();
    Forced(G2(), mst, 1, 0, {0, 1});
  }

  lemma Has2_2(mst: seq<Edge>)
    requires Out(G2(), mst)
    ensures Edge(2, 3, 3) in mst
  {
    Cut2_2();
    Forced(G2(), mst, 2, 0, {0, 1, 2});
  }

  lemma Distinct2()
    ensures forall i, j :: 0 <= i < j < |Tree2()| ==> Tree2()[i] != Tree2()[j]
  {
    var t := Tree2();
    assert t == [Edge(0, 1, 1), Edge(1, 2, 2), Edge(2, 3, 3)];
  }

  /** Every edge of the expected tree is kept, and nothing else. */
  lemma Kept2(mst: seq<Edge>)
    requires Out(G2(), mst)
    ensures multiset(mst) == multiset(Tree2())
  {
    Has2_0(mst);
    Has2_1(mst);
    Has2_2(mst);
    Distinct2();
    assert forall x :: x in Tree2() ==> x in mst;
    Fill(mst, Tree2());
  }

  lemma Cost2_1()
    ensures Cost([Edge(0, 1, 1)]) == 1
  {
    CostAppend([], Edge(0, 1, 1));
    assert [] + [Edge(0, 1, 1)] == [Edge(0, 1, 1)];
  }

  lemma Cost2_2()
    ensures Cost([Edge(0, 1, 1), Edge(1, 2, 2)]) == 3
  {
    Cost2_1();
    CostAppend([Edge(0, 1, 1)], Edge(1, 2, 2));
    assert [Edge(0, 1, 1)] + [Edge(1, 2, 2)] == [Edge(0, 1, 1), Edge(1, 2, 2)];
  }

  lemma Cost2_3()
    ensures Cost([Edge(0, 1, 1), Edge(1, 2, 2), Edge(2, 3, 3)]) == 6
  {
    Cost2_2();
    CostAppend([Edge(0, 1, 1), Edge(1, 2, 2)], Edge(2, 3, 3));
    assert [Edge(0, 1, 1), Edge(1, 2, 2)] + [Edge(2, 3, 3)] == [Edge(0, 1, 1), Edge(1, 2, 2), Edge(2, 3, 3)];
  }

  lemma Cost2()
    ensures Cost(Tree2()) == 6
  {
    Cost2_3();
  }

  /** The source's `graph2` test, for every order of the map's keys. */
  method KruskalGraph2(keys: seq<nat>) returns (mst: seq<Edge>)
    requires KeyOrder(Built2(), keys)
    ensures |mst| == 3 && Cost(mst) == 6
    ensures forall e :: e in mst <==> e in [Edge(0, 1, 1), Edge(1, 2, 2), Edge(2, 3, 3)]
  {
    BuiltIsG2();
    G2Ends();
    mst := Kruskal.Kruskal(Built2(), keys);
    Kept2(mst);
    assert |multiset(mst)| == |mst|;
    CostPerm(mst, Tree2());
    Cost2();
    assert forall e :: e in mst <==> e in multiset(Tree2());
  }

  // ----- graph3 (src/graph/kruskal.rs:109-148) -----

  /** The graph the test's `add_edge` calls build. */
  function Built3(): Graph<nat>
  {
    var g := Graph([0, 1, 2, 3, 4, 5, 6], map[]);
    var g := AddEdge(g, 0, 1, 2);
    var g := AddEdge(g, 0, 3, 4);
    var g := AddEdge(g, 0, 5, 5);
    var g := AddEdge(g, 1, 3, 1);
    var g := AddEdge(g, 1, 5, 8);
    var g := AddEdge(g, 1, 4, 3);
    var g := AddEdge(g, 1, 2, 7);
    var g := AddEdge(g, 1, 6, 4);
    var g := AddEdge(g, 2, 6, 6);
    var g := AddEdge(g, 2, 4, 10);
    var g := AddEdge(g, 5, 6, 1);
    AddEdge(g, 3, 4, 2)
  }

  function G3(): Graph<nat>
  {
    Graph([0, 1, 2, 3, 4, 5, 6],
          map[0 := [Edge(0, 1, 2), Edge(0, 3, 4), Edge(0, 5, 5)],
              1 := [Edge(1, 3, 1), Edge(1, 5, 8), Edge(1, 4, 3), Edge(1, 2, 7), Edge(1, 6, 4)],
              2 := [Edge(2, 6, 6), Edge(2, 4, 10)],
              3 := [Edge(3, 4, 2)],
              5 := [Edge(5, 6, 1)]])
  }

  function H3_1(): Graph<nat>
  {
    Graph([0, 1, 2, 3, 4, 5, 6],
          map[0 := [Edge(0, 1, 2)]])
  }

  lemma Add3_1()
    ensures AddEdge(Graph([0, 1, 2, 3, 4, 5, 6], map[]), 0, 1, 2) == H3_1()
  {
    assert [] + [Edge(0, 1, 2)] == [Edge(0, 1, 2)];
  }

  function H3_2(): Graph<nat>
  {
    Graph([0, 1, 2, 3, 4, 5, 6],
          map[0 := [Edge(0, 1, 2), Edge(0, 3, 4)]])
  }

  lemma Add3_2()
    ensures AddEdge(H3_1(), 0, 3, 4) == H3_2()
  {
    assert [Edge(0, 1, 2)] + [Edge(0, 3, 4)] == [Edge(0, 1, 2), Edge(0, 3, 4)];
  }

  function H3_3(): Graph<nat>
  {
    Graph([0, 1, 2, 3, 4, 5, 6],
          map[0 := [Edge(0, 1, 2), Edge(0, 3, 4), Edge(0, 5, 5)]])
  }

  lemma Add3_3()
    ensures AddEdge(H3_2(), 0, 5, 5) == H3_3()
  {
    assert [Edge(0, 1, 2), Edge(0, 3, 4)] + [Edge(0, 5, 5)] == [Edge(0, 1, 2), Edge(0, 3, 4), Edge(0, 5, 5)];
  }

  function H3_4(): Graph<nat>
  {
    Graph([0, 1, 2, 3, 4, 5, 6],
          map[0 := [Edge(0, 1, 2), Edge(0, 3, 4), Edge(0, 5, 5)],
              1 := [Edge(1, 3, 1)]])
  }

  lemma Add3_4()
    ensures AddEdge(H3_3(), 1, 3, 1) == H3_4()
  {
    assert [] + [Edge(1, 3, 1)] == [Edge(1, 3, 1)];
  }

  function H3_5(): Graph<nat>
  {
    Graph([0, 1, 2, 3, 4, 5, 6],
          map[0 := [Edge(0, 1, 2), Edge(0, 3, 4), Edge(0, 5, 5)],
              1 := [Edge(1, 3, 1), Edge(1, 5, 8)]])
  }

  lemma Add3_5()
    ensures AddEdge(H3_4(), 1, 5, 8) == H3_5()
  {
    assert [Edge(1, 3, 1)] + [Edge(1, 5, 8)] == [Edge(1, 3, 1), Edge(1, 5, 8)];
  }

  function H3_6(): Graph<nat>
  {
    Graph([0, 1, 2, 3, 4, 5, 6],
          map[0 := [Edge(0, 1, 2), Edge(0, 3, 4), Edge(0, 5, 5)],
              1 := [Edge(1, 3, 1), Edge(1, 5, 8), Edge(1, 4, 3)]])
  }

  lemma Add3_6()
    ensures AddEdge(H3_5(), 1, 4, 3) == H3_6()
  {
    assert [Edge(1, 3, 1), Edge(1, 5, 8)] + [Edge(1, 4, 3)] == [Edge(1, 3, 1), Edge(1, 5, 8), Edge(1, 4, 3)];
  }

  function H3_7(): Graph<nat>
  {
    Graph([0, 1, 2, 3, 4, 5, 6],
          map[0 := [Edge(0, 1, 2), Edge(0, 3, 4), Edge(0, 5, 5)],
              1 := [Edge(1, 3, 1), Edge(1, 5, 8), Edge(1, 4, 3), Edge(1, 2, 7)]])
  }

  lemma Add3_7()
    ensures AddEdge(H3_6(), 1, 2, 7) == H3_7()
  {
    assert [Edge(1, 3, 1), Edge(1, 5, 8), Edge(1, 4, 3)] + [Edge(1, 2, 7)] == [Edge(1, 3, 1), Edge(1, 5, 8), Edge(1, 4, 3), Edge(1, 2, 7)];
  }

  function H3_8(): Graph<nat>
  {
    Graph([0, 1, 2, 3, 4, 5, 6],
          map[0 := [Edge(0, 1, 2), Edge(0, 3, 4), Edge(0, 5, 5)],
              1 := [Edge(1, 3, 1), Edge(1, 5, 8), Edge(1, 4, 3), Edge(1, 2, 7), Edge(1, 6, 4)]])
  }

  lemma Add3_8()
    ensures AddEdge(H3_7(), 1, 6, 4) == H3_8()
  {
    assert [Edge(1, 3, 1), Edge(1, 5, 8), Edge(1, 4, 3), Edge(1, 2, 7)] + [Edge(1, 6, 4)] == [Edge(1, 3, 1), Edge(1, 5, 8), Edge(1, 4, 3), Edge(1, 2, 7), Edge(1, 6, 4)];
  }

  function H3_9(): Graph<nat>
  {
    Graph([0, 1, 2, 3, 4, 5, 6],
          map[0 := [Edge(0, 1, 2), Edge(0, 3, 4), Edge(0, 5, 5)],
              1 := [Edge(1, 3, 1), Edge(1, 5, 8), Edge(1, 4, 3), Edge(1, 2, 7), Edge(1, 6, 4)],
              2 := [Edge(2, 6, 6)]])
  }

  lemma Add3_9()
    ensures AddEdge(H3_8(), 2, 6, 6) == H3_9()
  {
    assert [] + [Edge(2, 6, 6)] == [Edge(2, 6, 6)];
  }

  function H3_10(): Graph<nat>
  {
    Graph([0, 1, 2, 3, 4, 5, 6],
          map[0 := [Edge(0, 1, 2), Edge(0, 3, 4), Edge(0, 5, 5)],
              1 := [Edge(1, 3, 1), Edge(1, 5, 8), Edge(1, 4, 3), Edge(1, 2, 7), Edge(1, 6, 4)],
              2 := [Edge(2, 6, 6), Edge(2, 4, 10)]])
  }

  lemma Add3_10()
    ensures AddEdge(H3_9(), 2, 4, 10) == H3_10()
  {
    assert [Edge(2, 6, 6)] + [Edge(2, 4, 10)] == [Edge(2, 6, 6), Edge(2, 4, 10)];
  }

  function H3_11(): Graph<nat>
  {
    Graph([0, 1, 2, 3, 4, 5, 6],
          map[0 := [Edge(0, 1, 2), Edge(0, 3, 4), Edge(0, 5, 5)],
              1 := [Edge(1, 3, 1), Edge(1, 5, 8), Edge(1, 4, 3), Edge(1, 2, 7), Edge(1, 6, 4)],
              2 := [Edge(2, 6, 6), Edge(2, 4, 10)],
              5 := [Edge(5, 6, 1)]])
  }

  lemma Add3_11()
    ensures AddEdge(H3_10(), 5, 6, 1) == H3_11()
  {
    assert [] + [Edge(5, 6, 1)] == [Edge(5, 6, 1)];
  }

  function H3_12(): Graph<nat>
  {
    Graph([0, 1, 2, 3, 4, 5, 6],
          map[0 := [Edge(0, 1, 2), Edge(0, 3, 4), Edge(0, 5, 5)],
              1 := [Edge(1, 3, 1), Edge(1, 5, 8), Edge(1, 4, 3), Edge(1, 2, 7), Edge(1, 6, 4)],
              2 := [Edge(2, 6, 6), Edge(2, 4, 10)],
              3 := [Edge(3, 4, 2)],
              5 := [Edge(5, 6, 1)]])
  }

  lemma Add3_12()
    ensures AddEdge(H3_11(), 3, 4, 2) == H3_12()
  {
    assert [] + [Edge(3, 4, 2)] == [Edge(3, 4, 2)];
  }

  lemma BuiltIsG3()
    ensures Built3() == G3()
  {
    Add3_1();
    Add3_2();
    Add3_3();
    Add3_4();
    Add3_5();
    Add3_6();
    Add3_7();
    Add3_8();
    Add3_9();
    Add3_10();
    Add3_11();
    Add3_12();
    assert H3_12() == G3();
  }

  lemma G3Ends()
    ensures EndsInRange(G3()) && |G3().nodes| == 7
  {
  }

  /** The tree the test expects. */
  function Tree3(): seq<Edge>
  {
    [Edge(1, 3, 1), Edge(5, 6, 1), Edge(0, 1, 2), Edge(3, 4, 2), Edge(1, 6, 4), Edge(2, 6, 6)]
  }

  /** Edge(1, 3, 1) is the only edge of cost 1 or less to leave {1}. */
  lemma Cut3_0()
    ensures LoneCrossing(G3(), 1, 0, {1})
  {
    assert G3().edges[1][0] == Edge(1, 3, 1);
    forall w, j | w in G3().edges && 0 <= j < |G3().edges[w]| && G3().edges[w][j] != Edge(1, 3, 1) && G3().edges[w][j].cost <= 1
      ensures G3().edges[w][j].src in {1} <==> G3().edges[w][j].dst in {1}
    {
      if w == 5 {
        assert G3().edges[5] == [Edge(5, 6, 1)];
      }
    }
  }

  /** Edge(5, 6, 1) is the only edge of cost 1 or less to leave {5}. */
  lemma Cut3_1()
    ensures LoneCrossing(G3(), 5, 0, {5})
  {
    assert G3().edges[5][0] == Edge(5, 6, 1);
    forall w, j | w in G3().edges && 0 <= j < |G3().edges[w]| && G3().edges[w][j] != Edge(5, 6, 1) && G3().edges[w][j].cost <= 1
      ensures G3().edges[w][j].src in {5} <==> G3().edges[w][j].dst in {5}
    {
      if w == 1 {
        assert G3().edges[1] == [Edge(1, 3, 1), Edge(1, 5, 8), Edge(1, 4, 3), Edge(1, 2, 7), Edge(1, 6, 4)];
      }
    }
  }

  /** Edge(0, 1, 2) is the only edge of cost 2 or less to leave {0}. */
  lemma Cut3_2()
    ensures LoneCrossing(G3(), 0, 0, {0})
  {
    assert G3().edges[0][0] == Edge(0, 1, 2);
    forall w, j | w in G3().edges && 0 <= j < |G3().edges[w]| && G3().edges[w][j] != Edge(0, 1, 2) && G3().edges[w][j].cost <= 2
      ensures G3().edges[w][j].src in {0} <==> G3().edges[w][j].dst in {0}
    {
      if w == 1 {
        assert G3().edges[1] == [Edge(1, 3, 1), Edge(1, 5, 8), Edge(1, 4, 3), Edge(1, 2, 7), Edge(1, 6, 4)];
      } else if w == 3 {
        assert G3().edges[3] == [Edge(3, 4, 2)];
      } else if w == 5 {
        assert G3().edges[5] == [Edge(5, 6, 1)];
      }
    }
  }

  /** Edge(3, 4, 2) is the only edge of cost 2 or less to leave {0, 1, 2, 3, 5, 6}. */
  lemma Cut3_3()
    ensures LoneCrossing(G3(), 3, 0, {0, 1, 2, 3, 5, 6})
  {
    assert G3().edges[3][0] == Edge(3, 4, 2);
    forall w, j | w in G3().edges && 0 <= j < |G3().edges[w]| && G3().edges[w][j] != Edge(3, 4, 2) && G3().edges[w][j].cost <= 2
      ensures G3().edges[w][j].src in {0, 1, 2, 3, 5, 6} <==> G3().edges[w][j].dst in {0, 1, 2, 3, 5, 6}
    {
      if w == 0 {
        assert G3().edges[0] == [Edge(0, 1, 2), Edge(0, 3, 4), Edge(0, 5, 5)];
      } else if w == 1 {
        assert G3().edges[1] == [Edge(1, 3, 1), Edge(1, 5, 8), Edge(1, 4, 3), Edge(1, 2, 7), Edge(1, 6, 4)];
      } else if w == 5 {
        assert G3().edges[5] == [Edge(5, 6, 1)];
      }
    }
  }

  /** Edge(1, 6, 4) is the only edge of cost 4 or less to leave {0, 1, 2, 3, 4}. */
  lemma Cut3_4()
    ensures LoneCrossing(G3(), 1, 4, {0, 1, 2, 3, 4})
  {
    assert G3().edges[1][4] == Edge(1, 6, 4);
    forall w, j | w in G3().edges && 0 <= j < |G3().edges[w]| && G3().edges[w][j] != Edge(1, 6, 4) && G3().edges[w][j].cost <= 4
      ensures G3().edges[w][j].src in {0, 1, 2, 3, 4} <==> G3().edges[w][j].dst in {0, 1, 2, 3, 4}
    {
      if w == 0 {
        assert G3().edges[0] == [Edge(0, 1, 2), Edge(0, 3, 4), Edge(0, 5, 5)];
      } else if w == 1 {
        assert G3().edges[1] == [Edge(1, 3, 1), Edge(1, 5, 8), Edge(1, 4, 3), Edge(1, 2, 7), Edge(1, 6, 4)];
      } else if w == 3 {
        assert G3().edges[3] == [Edge(3, 4, 2)];
      } else if w == 5 {
        assert G3().edges[5] == [Edge(5, 6, 1)];
      }
    }
  }

  /** Edge(2, 6, 6) is the only edge of cost 6 or less to leave {2}. */
  lemma Cut3_5()
    ensures LoneCrossing(G3(), 2, 0, {2})
  {
    assert G3().edges[2][0] == Edge(2, 6, 6);
    forall w, j | w in G3().edges && 0 <= j < |G3().edges[w]| && G3().edges[w][j] != Edge(2, 6, 6) && G3().edges[w][j].cost <= 6
      ensures G3().edges[w][j].src in {2} <==> G3().edges[w][j].dst in {2}
    {
      if w == 0 {
        assert G3().edges[0] == [Edge(0, 1, 2), Edge(0, 3, 4), Edge(0, 5, 5)];
      } else if w == 1 {
        assert G3().edges[1] == [Edge(1, 3, 1), Edge(1, 5, 8), Edge(1, 4, 3), Edge(1, 2, 7), Edge(1, 6, 4)];
      } else if w == 3 {
        assert G3().edges[3] == [Edge(3, 4, 2)];
      } else if w == 5 {
        assert G3().edges[5] == [Edge(5, 6, 1)];
      }
    }
  }

  lemma Has3_0(mst: seq<Edge>)
    requires Out(G3(), mst)
    ensures Edge(1, 3, 1) in mst
  {
    Cut3_0();
    Forced(G3(), mst, 1, 0, {1});
  }

  lemma Has3_1(mst: seq<Edge>)
    requires Out(G3(), mst)
    ensures Edge(5, 6, 1) in mst
  {
    Cut3_1();
    Forced(G3(), mst, 5, 0, {5});
  }

  lemma Has3_2(mst: seq<Edge>)
    requires Out(G3(), mst)
    ensures Edge(0, 1, 2) in mst
  {
    Cut3_2();
    Forced(G3(), mst, 0, 0, {0});
  }

  lemma Has3_3(mst: seq<Edge>)
    requires Out(G3(), mst)
    ensures Edge(3, 4, 2) in mst
  {
    Cut3_3();
    Forced(G3(), mst, 3, 0, {0, 1, 2, 3, 5, 6});
  }

  lemma Has3_4(mst: seq<Edge>)
    requires Out(G3(), mst)
    ensures Edge(1, 6, 4) in mst
  {
    Cut3_4();
    Forced(G3(), mst, 1, 4, {0, 1, 2, 3, 4});
  }

  lemma Has3_5(mst: seq<Edge>)
    requires Out(G3(), mst)
    ensures Edge(2, 6, 6) in mst
  {
    Cut3_5();
    Forced(G3(), mst, 2, 0, {2});
  }

  lemma Distinct3()
    ensures forall i, j :: 0 <= i < j < |Tree3()| ==> Tree3()[i] != Tree3()[j]
  {
    var t := Tree3();
    assert t == [Edge(1, 3, 1), Edge(5, 6, 1), Edge(0, 1, 2), Edge(3, 4, 2), Edge(1, 6, 4), Edge(2, 6, 6)];
  }

  /** Every edge of the expected tree is kept, and nothing else. */
  lemma Kept3(mst: seq<Edge>)
    requires Out(G3(), mst)
    ensures multiset(mst) == multiset(Tree3())
  {
    Has3_0(mst);
    Has3_1(mst);
    Has3_2(mst);
    Has3_3(mst);
    Has3_4(mst);
    Has3_5(mst);
    Distinct3();
    assert forall x :: x in Tree3() ==> x in mst;
    Fill(mst, Tree3());
  }

  lemma Cost3_1()
    ensures Cost([Edge(1, 3, 1)]) == 1
  {
    CostAppend([], Edge(1, 3, 1));
    assert [] + [Edge(1, 3, 1)] == [Edge(1, 3, 1)];
  }

  lemma Cost3_2()
    ensures Cost([Edge(1, 3, 1), Edge(5, 6, 1)]) == 2
  {
    Cost3_1();
    CostAppend([Edge(1, 3, 1)], Edge(5, 6, 1));
    assert [Edge(1, 3, 1)] + [Edge(5, 6, 1)] == [Edge(1, 3, 1), Edge(5, 6, 1)];
  }

  lemma Cost3_3()
    ensures Cost([Edge(1, 3, 1), Edge(5, 6, 1), Edge(0, 1, 2)]) == 4
  {
    Cost3_2();
    CostAppend([Edge(1, 3, 1), Edge(5, 6, 1)], Edge(0, 1, 2));
    assert [Edge(1, 3, 1), Edge(5, 6, 1)] + [Edge(0, 1, 2)] == [Edge(1, 3, 1), Edge(5, 6, 1), Edge(0, 1, 2)];
  }

  lemma Cost3_4()
    ensures Cost([Edge(1, 3, 1), Edge(5, 6, 1), Edge(0, 1, 2), Edge(3, 4, 2)]) == 6
  {
    Cost3_3();
    CostAppend([Edge(1, 3, 1), Edge(5, 6, 1), Edge(0, 1, 2)], Edge(3, 4, 2));
    assert [Edge(1, 3, 1), Edge(5, 6, 1), Edge(0, 1, 2)] + [Edge(3, 4, 2)] == [Edge(1, 3, 1), Edge(5, 6, 1), Edge(0, 1, 2), Edge(3, 4, 2)];
  }

  lemma Cost3_5()
    ensures Cost([Edge(1, 3, 1), Edge(5, 6, 1), Edge(0, 1, 2), Edge(3, 4, 2), Edge(1, 6, 4)]) == 10
  {
    Cost3_4();
    CostAppend([Edge(1, 3, 1), Edge(5, 6, 1), Edge(0, 1, 2), Edge(3, 4, 2)], Edge(1, 6, 4));
    assert [Edge(1, 3, 1), Edge(5, 6, 1), Edge(0, 1, 2), Edge(3, 4, 2)] + [Edge(1, 6, 4)] == [Edge(1, 3, 1), Edge(5, 6, 1), Edge(0, 1, 2), Edge(3, 4, 2), Edge(1, 6, 4)];
  }

  lemma Cost3_6()
    ensures Cost([Edge(1, 3, 1), Edge(5, 6, 1), Edge(0, 1, 2), Edge(3, 4, 2), Edge(1, 6, 4), Edge(2, 6, 6)]) == 16
  {
    Cost3_5();
    CostAppend([Edge(1, 3, 1), Edge(5, 6, 1), Edge(0, 1, 2), Edge(3, 4, 2), Edge(1, 6, 4)], Edge(2, 6, 6));
    assert [Edge(1, 3, 1), Edge(5, 6, 1), Edge(0, 1, 2), Edge(3, 4, 2), Edge(1, 6, 4)] + [Edge(2, 6, 6)] == [Edge(1, 3, 1), Edge(5, 6, 1), Edge(0, 1, 2), Edge(3, 4, 2), Edge(1, 6, 4), Edge(2, 6, 6)];
  }

  lemma Cost3()
    ensures Cost(Tree3()) == 16
  {
    Cost3_6();
  }

  /** The source's `graph3` test, for every order of the map's keys. */
  method KruskalGraph3(keys: seq<nat>) returns (mst: seq<Edge>)
    requires KeyOrder(Built3(), keys)
    ensures |mst| == 6 && Cost(mst) == 16
    ensures forall e :: e in mst <==> e in [Edge(1, 3, 1), Edge(5, 6, 1), Edge(0, 1, 2), Edge(3, 4, 2), Edge(1, 6, 4), Edge(2, 6, 6)]
  {
    BuiltIsG3();
    G3Ends();
    mst := Kruskal.Kruskal(Built3(), keys);
    Kept3(mst);
    assert |multiset(mst)| == |mst|;
    CostPerm(mst, Tree3());
    Cost3();
    assert forall e :: e in mst <==> e in multiset(Tree3());
  }

}
