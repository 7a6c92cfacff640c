/** The `graph1`, `graph2` and `graph3` tests of src/graph/prim.rs: on each
    test graph, built by the symmetric `add_edge`, every result meeting
    `prim`'s contract is the run the tests expect, so `Prim` keeps exactly
    those edges, in pop order, with the asserted count and total cost. */
module PrimTests {
  import opened Graphs
  import opened Prim

  // ----- graph1 (src/graph/prim.rs:83-99) -----

  /** The graph the test's `add_edge` calls build. */
  function Built1(): Graph<nat>
  {
    var g := Graph([1, 2, 3, 4, 5], map[]);
    var g := AddUndirected(g, 0, 1, 1);
    var g := AddUndirected(g, 1, 2, 2);
    var g := AddUndirected(g, 2, 3, 3);
    var g := AddUndirected(g, 3, 4, 4);
    var g := AddUndirected(g, 0, 4, 10);
    AddUndirected(g, 1, 3, 5)
  }

  function G1(): Graph<nat>
  {
    Graph([1, 2, 3, 4, 5],
          map[0 := [Edge(0, 1, 1), Edge(0, 4, 10)],
              1 := [Edge(1, 0, 1), Edge(1, 2, 2), Edge(1, 3, 5)],
              2 := [Edge(2, 1, 2), Edge(2, 3, 3)],
              3 := [Edge(3, 2, 3), Edge(3, 4, 4), Edge(3, 1, 5)],
              4 := [Edge(4, 3, 4), Edge(4, 0, 10)]])
  }

  function H1_1(): Graph<nat>
  {
    Graph([1, 2, 3, 4, 5],
          map[0 := [Edge(0, 1, 1)],
              1 := [Edge(1, 0, 1)]])
  }

  lemma Add1_1()
    ensures AddUndirected(Graph([1, 2, 3, 4, 5], map[]), 0, 1, 1) == H1_1()
  {
    assert [] + [Edge(0, 1, 1)] == [Edge(0, 1, 1)];
    assert [] + [Edge(1, 0, 1)] == [Edge(1, 0, 1)];
  }

  function H1_2(): Graph<nat>
  {
    Graph([1, 2, 3, 4, 5],
          map[0 := [Edge(0, 1, 1)],
              1 := [Edge(1, 0, 1), Edge(1, 2, 2)],
              2 := [Edge(2, 1, 2)]])
  }

  lemma Add1_2()
    ensures AddUndirected(H1_1(), 1, 2, 2) == H1_2()
  {
    assert [Edge(1, 0, 1)] + [Edge(1, 2, 2)] == [Edge(1, 0, 1), Edge(1, 2, 2)];
    assert [] + [Edge(2, 1, 2)] == [Edge(2, 1, 2)];
  }

  function H1_3(): Graph<nat>
  {
    Graph([1, 2, 3, 4, 5],
          map[0 := [Edge(0, 1, 1)],
              1 := [Edge(1, 0, 1), Edge(1, 2, 2)],
              2 := [Edge(2, 1, 2), Edge(2, 3, 3)],
              3 := [Edge(3, 2, 3)]])
  }

  lemma Add1_3()
    ensures AddUndirected(H1_2(), 2, 3, 3) == H1_3()
  {
    assert [Edge(2, 1, 2)] + [Edge(2, 3, 3)] == [Edge(2, 1, 2), Edge(2, 3, 3)];
    assert [] + [Edge(3, 2, 3)] == [Edge(3, 2, 3)];
  }

  function H1_4(): Graph<nat>
  {
    Graph([1, 2, 3, 4, 5],
          map[0 := [Edge(0, 1, 1)],
              1 := [Edge(1, 0, 1), Edge(1, 2, 2)],
              2 := [Edge(2, 1, 2), Edge(2, 3, 3)],
              3 := [Edge(3, 2, 3), Edge(3, 4, 4)],
              4 := [Edge(4, 3, 4)]])
  }

  lemma Add1_4()
    ensures AddUndirected(H1_3(), 3, 4, 4) == H1_4()
  {
    assert [Edge(3, 2, 3)] + [Edge(3, 4, 4)] == [Edge(3, 2, 3), Edge(3, 4, 4)];
    assert [] + [Edge(4, 3, 4)] == [Edge(4, 3, 4)];
  }

  function H1_5(): Graph<nat>
  {
    Graph([1, 2, 3, 4, 5],
          map[0 := [Edge(0, 1, 1), Edge(0, 4, 10)],
              1 := [Edge(1, 0, 1), Edge(1, 2, 2)],
              2 := [Edge(2, 1, 2), Edge(2, 3, 3)],
              3 := [Edge(3, 2, 3), Edge(3, 4, 4)],
              4 := [Edge(4, 3, 4), Edge(4, 0, 10)]])
  }

  lemma Add1_5()
    ensures AddUndirected(H1_4(), 0, 4, 10) == H1_5()
  {
    assert [Edge(0, 1, 1)] + [Edge(0, 4, 10)] == [Edge(0, 1, 1), Edge(0, 4, 10)];
    assert [Edge(4, 3, 4)] + [Edge(4, 0, 10)] == [Edge(4, 3, 4), Edge(4, 0, 10)];
  }

  function H1_6(): Graph<nat>
  {
    Graph([1, 2, 3, 4, 5],
          map[0 := [Edge(0, 1, 1), Edge(0, 4, 10)],
              1 := [Edge(1, 0, 1), Edge(1, 2, 2), Edge(1, 3, 5)],
              2 := [Edge(2, 1, 2), Edge(2, 3, 3)],
              3 := [Edge(3, 2, 3), Edge(3, 4, 4), Edge(3, 1, 5)],
              4 := [Edge(4, 3, 4), Edge(4, 0, 10)]])
  }

  lemma Add1_6()
    ensures AddUndirected(H1_5(), 1, 3, 5) == H1_6()
  {
    assert [Edge(1, 0, 1), Edge(1, 2, 2)] + [Edge(1, 3, 5)] == [Edge(1, 0, 1), Edge(1, 2, 2), Edge(1, 3, 5)];
    assert [Edge(3, 2, 3), Edge(3, 4, 4)] + [Edge(3, 1, 5)] == [Edge(3, 2, 3), Edge(3, 4, 4), Edge(3, 1, 5)];
  }

  lemma BuiltIsG1()
    ensures Built1() == G1()
  {
    Add1_1();
    Add1_2();
    Add1_3();
    Add1_4();
    Add1_5();
    Add1_6();
    assert H1_6() == G1();
  }

  lemma G1Valid()
    ensures ValidIds(G1()) && |G1().nodes| == 5
  {
  }

  /** The run the test expects, and the seen set before each of its edges. */
  function Run1(): seq<Edge>
  {
    [Edge(0, 1, 1), Edge(1, 2, 2), Edge(2, 3, 3), Edge(3, 4, 4)]
  }

  function Sets1(): seq<set<nat>>
  {
    [{0}, {0, 1}, {0, 1, 2}, {0, 1, 2, 3}, {0, 1, 2, 3, 4}]
  }

  lemma Step1_0()
    ensures Crosses(G1(), Sets1()[0], Run1()[0]) && Cheapest(G1(), Sets1()[0], Run1()[0])
  {
    assert Sets1()[0] == {0} && Run1()[0] == Edge(0, 1, 1);
    assert Crossing(G1(), {0}, 0, 0) && Edges(G1(), 0)[0] == Edge(0, 1, 1);
    forall x: nat, i: nat | Crossing(G1(), {0}, x, i) ensures Before(Edge(0, 1, 1), Edges(G1(), x)[i]) {
      if x == 0 {
        assert Edges(G1(), 0) == [Edge(0, 1, 1), Edge(0, 4, 10)];
      }
    }
  }

  lemma Step1_1()
    ensures Crosses(G1(), Sets1()[1], Run1()[1]) && Cheapest(G1(), Sets1()[1], Run1()[1])
  {
    assert Sets1()[1] == {0, 1} && Run1()[1] == Edge(1, 2, 2);
    assert Crossing(G1(), {0, 1}, 1, 1) && Edges(G1(), 1)[1] == Edge(1, 2, 2);
    forall x: nat, i: nat | Crossing(G1(), {0, 1}, x, i) ensures Before(Edge(1, 2, 2), Edges(G1(), x)[i]) {
      if x == 0 {
        assert Edges(G1(), 0) == [Edge(0, 1, 1), Edge(0, 4, 10)];
      } else if x == 1 {
        assert Edges(G1(), 1) == [Edge(1, 0, 1), Edge(1, 2, 2), Edge(1, 3, 5)];
      }
    }
  }

  lemma Step1_2()
    ensures Crosses(G1(), Sets1()[2], Run1()[2]) && Cheapest(G1(), Sets1()[2], Run1()[2])
  {
    assert Sets1()[2] == {0, 1, 2} && Run1()[2] == Edge(2, 3, 3);
    assert Crossing(G1(), {0, 1, 2}, 2, 1) && Edges(G1(), 2)[1] == Edge(2, 3, 3);
    forall x: nat, i: nat | Crossing(G1(), {0, 1, 2}, x, i) ensures Before(Edge(2, 3, 3), Edges(G1(), x)[i]) {
      if x == 0 {
        assert Edges(G1(), 0) == [Edge(0, 1, 1), Edge(0, 4, 10)];
      } else if x == 1 {
        assert Edges(G1(), 1) == [Edge(1, 0, 1), Edge(1, 2, 2), Edge(1, 3, 5)];
      } else if x == 2 {
        assert Edges(G1(), 2) == [Edge(2, 1, 2), Edge(2, 3, 3)];
      }
    }
  }

  lemma Step1_3()
    ensures Crosses(G1(), Sets1()[3], Run1()[3]) && Cheapest(G1(), Sets1()[3], Run1()[3])
  {
    assert Sets1()[3] == {0, 1, 2, 3} && Run1()[3] == Edge(3, 4, 4);
    assert Crossing(G1(), {0, 1, 2, 3}, 3, 1) && Edges(G1(), 3)[1] == Edge(3, 4, 4);
    forall x: nat, i: nat | Crossing(G1(), {0, 1, 2, 3}, x, i) ensures Before(Edge(3, 4, 4), Edges(G1(), x)[i]) {
      if x == 0 {
        assert Edges(G1(), 0) == [Edge(0, 1, 1), Edge(0, 4, 10)];
      } else if x == 3 {
        assert Edges(G1(), 3) == [Edge(3, 2, 3), Edge(3, 4, 4), Edge(3, 1, 5)];
      }
    }
  }

  lemma Enclosed1()
    ensures Enclosed(G1(), {0, 1, 2, 3, 4})
  {
  }

  lemma Sets1Grow()
    ensures |Sets1()| == |Run1()| + 1 && Sets1()[0] == {0}
    ensures forall j :: 0 <= j < |Run1()| ==> Sets1()[j + 1] == Sets1()[j] + {Run1()[j].dst}
  {
  }

  lemma Steps1()
    ensures forall j :: 0 <= j < |Run1()| ==> Crosses(G1(), Sets1()[j], Run1()[j]) && Cheapest(G1(), Sets1()[j], Run1()[j])
  {
    forall j | 0 <= j < |Run1()| ensures Crosses(G1(), Sets1()[j], Run1()[j]) && Cheapest(G1(), Sets1()[j], Run1()[j]) {
      if j == 0 {
        Step1_0();
      } else if j == 1 {
        Step1_1();
      } else if j == 2 {
        Step1_2();
      } else if j == 3 {
        Step1_3();
      }
    }
  }

  lemma Run1IsGreedy()
    ensures GreedyRun(G1(), Run1())
  {
    Sets1Grow();
    Steps1();
    Enclosed1();
    RunBySets(G1(), Run1(), Sets1());
  }

  lemma Cost1_1()
    ensures Cost([Edge(0, 1, 1)]) == 1
  {
    CostAppend([], Edge(0, 1, 1));
    assert [] + [Edge(0, 1, 1)] == [Edge(0, 1, 1)];
  }

  lemma Cost1_2()
    ensures Cost([Edge(0, 1, 1), Edge(1, 2, 2)]) == 3
  {
    Cost1_1();
    CostAppend([Edge(0, 1, 1)], Edge(1, 2, 2));
    assert [Edge(0, 1, 1)] + [Edge(1, 2, 2)] == [Edge(0, 1, 1), Edge(1, 2, 2)];
  }

  lemma Cost1_3()
    ensures Cost([Edge(0, 1, 1), Edge(1, 2, 2), Edge(2, 3, 3)]) == 6
  {
    Cost1_2();
    CostAppend([Edge(0, 1, 1), Edge(1, 2, 2)], Edge(2, 3, 3));
    assert [Edge(0, 1, 1), Edge(1, 2, 2)] + [Edge(2, 3, 3)] == [Edge(0, 1, 1), Edge(1, 2, 2), Edge(2, 3, 3)];
  }

  lemma Cost1_4()
    ensures Cost([Edge(0, 1, 1), Edge(1, 2, 2), Edge(2, 3, 3), Edge(3, 4, 4)]) == 10
  {
    Cost1_3();
    CostAppend([Edge(0, 1, 1), Edge(1, 2, 2), Edge(2, 3, 3)], Edge(3, 4, 4));
    assert [Edge(0, 1, 1), Edge(1, 2, 2), Edge(2, 3, 3)] + [Edge(3, 4, 4)] == [Edge(0, 1, 1), Edge(1, 2, 2), Edge(2, 3, 3), Edge(3, 4, 4)];
  }

  lemma Cost1()
    ensures Cost(Run1()) == 10
  {
    Cost1_4();
  }

  /** The source's `graph1` test. */
  method PrimGraph1() returns (mst: seq<Edge>)
    ensures mst == [Edge(0, 1, 1), Edge(1, 2, 2), Edge(2, 3, 3), Edge(3, 4, 4)]
    ensures |mst| == 4 && Cost(mst) == 10
  {
    mst := Prim.Prim(Built1());
    BuiltIsG1();
    G1Valid();
    Run1IsGreedy();
    RunDetermined(G1(), mst, Run1());
    Cost1();
  }

  // ----- graph2 (src/graph/prim.rs:101-116) -----

  /** The graph the test's `add_edge` calls build. */
  function Built2(): Graph<nat>
  {
    var g := Graph([1, 2, 3, 4], map[]);
    var g := AddUndirected(g, 0, 1, 1);
    var g := AddUndirected(g, 1, 2, 2);
    var g := AddUndirected(g, 2, 3, 3);
    var g := AddUndirected(g, 3, 0, 4);
    AddUndirected(g, 0, 2, 10)
  }

  function G2(): Graph<nat>
  {
    Graph([1, 2, 3, 4],
          map[0 := [Edge(0, 1, 1), Edge(0, 3, 4), Edge(0, 2, 10)],
              1 := [Edge(1, 0, 1), Edge(1, 2, 2)],
              2 := [Edge(2, 1, 2), Edge(2, 3, 3), Edge(2, 0, 10)],
              3 := [Edge(3, 2, 3), Edge(3, 0, 4)]])
  }

  function H2_1(): Graph<nat>
  {
    Graph([1, 2, 3, 4],
          map[0 := [Edge(0, 1, 1)],
              1 := [Edge(1, 0, 1)]])
  }

  lemma Add2_1()
    ensures AddUndirected(Graph([1, 2, 3, 4], map[]), 0, 1, 1) == H2_1()
  {
    assert [] + [Edge(0, 1, 1)] == [Edge(0, 1, 1)];
    assert [] + [Edge(1, 0, 1)] == [Edge(1, 0, 1)];
  }

  function H2_2(): Graph<nat>
  {
    Graph([1, 2, 3, 4],
          map[0 := [Edge(0, 1, 1)],
              1 := [Edge(1, 0, 1), Edge(1, 2, 2)],
              2 := [Edge(2, 1, 2)]])
  }

  lemma Add2_2()
    ensures AddUndirected(H2_1(), 1, 2, 2) == H2_2()
  {
    assert [Edge(1, 0, 1)] + [Edge(1, 2, 2)] == [Edge(1, 0, 1), Edge(1, 2, 2)];
    assert [] + [Edge(2, 1, 2)] == [Edge(2, 1, 2)];
  }

  function H2_3(): Graph<nat>
  {
    Graph([1, 2, 3, 4],
          map[0 := [Edge(0, 1, 1)],
              1 := [Edge(1, 0, 1), Edge(1, 2, 2)],
              2 := [Edge(2, 1, 2), Edge(2, 3, 3)],
              3 := [Edge(3, 2, 3)]])
  }

  lemma Add2_3()
    ensures AddUndirected(H2_2(), 2, 3, 3) == H2_3()
  {
    assert [Edge(2, 1, 2)] + [Edge(2, 3, 3)] == [Edge(2, 1, 2), Edge(2, 3, 3)];
    assert [] + [Edge(3, 2, 3)] == [Edge(3, 2, 3)];
  }

  function H2_4(): Graph<nat>
  {
    Graph([1, 2, 3, 4],
          map[0 := [Edge(0, 1, 1), Edge(0, 3, 4)],
              1 := [Edge(1, 0, 1), Edge(1, 2, 2)],
              2 := [Edge(2, 1, 2), Edge(2, 3, 3)],
              3 := [Edge(3, 2, 3), Edge(3, 0, 4)]])
  }

  lemma Add2_4()
    ensures AddUndirected(H2_3(), 3, 0, 4) == H2_4()
  {
    assert [Edge(3, 2, 3)] + [Edge(3, 0, 4)] == [Edge(3, 2, 3), Edge(3, 0, 4)];
    assert [Edge(0, 1, 1)] + [Edge(0, 3, 4)] == [Edge(0, 1, 1), Edge(0, 3, 4)];
  }

  function H2_5(): Graph<nat>
  {
    Graph([1, 2, 3, 4],
          map[0 := [Edge(0, 1, 1), Edge(0, 3, 4), Edge(0, 2, 10)],
              1 := [Edge(1, 0, 1), Edge(1, 2, 2)],
              2 := [Edge(2, 1, 2), Edge(2, 3, 3), Edge(2, 0, 10)],
              3 := [Edge(3, 2, 3), Edge(3, 0, 4)]])
  }

  lemma Add2_5()
    ensures AddUndirected(H2_4(), 0, 2, 10) == H2_5()
  {
    assert [Edge(0, 1, 1), Edge(0, 3, 4)] + [Edge(0, 2, 10)] == [Edge(0, 1, 1), Edge(0, 3, 4), Edge(0, 2, 10)];
    assert [Edge(2, 1, 2), Edge(2, 3, 3)] + [Edge(2, 0, 10)] == [Edge(2, 1, 2), Edge(2, 3, 3), Edge(2, 0, 10)];
  }

  lemma BuiltIsG2()
    ensures Built2() == G2()
  {
    Add2_1();
    Add2_2();
    Add2_3();
    Add2_4();
    Add2_5();
    assert H2_5() == G2();
  }

  lemma G2Valid()
    ensures ValidIds(G2()) && |G2().nodes| == 4
  {
  }

  /** The run the test expects, and the seen set before each of its edges. */
  function Run2(): seq<Edge>
  {
    [Edge(0, 1, 1), Edge(1, 2, 2), Edge(2, 3, 3)]
  }

  function Sets2(): seq<set<nat>>
  {
    [{0}, {0, 1}, {0, 1, 2}, {0, 1, 2, 3}]
  }

  lemma Step2_0()
    ensures Crosses(G2(), Sets2()[0], Run2()[0]) && Cheapest(G2(), Sets2()[0], Run2()[0])
  {
    assert Sets2()[0] == {0} && Run2()[0] == Edge(0, 1, 1);
    assert Crossing(G2(), {0}, 0, 0) && Edges(G2(), 0)[0] == Edge(0, 1, 1);
    forall x: nat, i: nat | Crossing(G2(), {0}, x, i) ensures Before(Edge(0, 1, 1), Edges(G2(), x)[i]) {
      if x == 0 {
        assert Edges(G2(), 0) == [Edge(0, 1, 1), Edge(0, 3, 4), Edge(0, 2, 10)];
      }
    }
  }

  lemma Step2_1()
    ensures Crosses(G2(), Sets2()[1], Run2()[1]) && Cheapest(G2(), Sets2()[1], Run2()[1])
  {
    assert Sets2()[1] == {0, 1} && Run2()[1] == Edge(1, 2, 2);
    assert Crossing(G2(), {0, 1}, 1, 1) && Edges(G2(), 1)[1] == Edge(1, 2, 2);
    forall x: nat, i: nat | Crossing(G2(), {0, 1}, x, i) ensures Before(Edge(1, 2, 2), Edges(G2(), x)[i]) {
      if x == 0 {
        assert Edges(G2(), 0) == [Edge(0, 1, 1), Edge(0, 3, 4), Edge(0, 2, 10)];
      } else if x == 1 {
        assert Edges(G2(), 1) == [Edge(1, 0, 1), Edge(1, 2, 2)];
      }
    }
  }

  lemma Step2_2()
    ensures Crosses(G2(), Sets2()[2], Run2()[2]) && Cheapest(G2(), Sets2()[2], Run2()[2])
  {
    assert Sets2()[2] == {0, 1, 2} && Run2()[2] == Edge(2, 3, 3);
    assert Crossing(G2(), {0, 1, 2}, 2, 1) && Edges(G2(), 2)[1] == Edge(2, 3, 3);
    forall x: nat, i: nat | Crossing(G2(), {0, 1, 2}, x, i) ensures Before(Edge(2, 3, 3), Edges(G2(), x)[i]) {
      if x == 0 {
        assert Edges(G2(), 0) == [Edge(0, 1, 1), Edge(0, 3, 4), Edge(0, 2, 10)];
      } else if x == 2 {
        assert Edges(G2(), 2) == [Edge(2, 1, 2), Edge(2, 3, 3), Edge(2, 0, 10)];
      }
    }
  }

  lemma Enclosed2()
    ensures Enclosed(G2(), {0, 1, 2, 3})
  {
  }

  lemma Sets2Grow()
    ensures |Sets2()| == |Run2()| + 1 && Sets2()[0] == {0}
    ensures forall j :: 0 <= j < |Run2()| ==> Sets2()[j + 1] == Sets2()[j] + {Run2()[j].dst}
  {
  }

  lemma Steps2()
    ensures forall j :: 0 <= j < |Run2()| ==> Crosses(G2(), Sets2()[j], Run2()[j]) && Cheapest(G2(), Sets2()[j], Run2()[j])
  {
    forall j | 0 <= j < |Run2()| ensures Crosses(G2(), Sets2()[j], Run2()[j]) && Cheapest(G2(), Sets2()[j], Run2()[j]) {
      if j == 0 {
        Step2_0();
      } else if j == 1 {
        Step2_1();
      } else if j == 2 {
        Step2_2();
      }
    }
  }

  lemma Run2IsGreedy()
    ensures GreedyRun(G2(), Run2())
  {
    Sets2Grow();
    Steps2();
    Enclosed2();
    RunBySets(G2(), Run2(), Sets2());
  }

  lemma Cost2_1()
    ensures Cost([Edge(0, 1, 1)]) == 1
  {
    CostAppend([], Edge(0, 1, 1));
    assert [] + [Edge(0, 1, 1)] == [Edge(0, 1, 1)];
  }

  lemma Cost2_2()
    ensures Cost([Edge(0, 1, 1), Edge(1, 2, 2)]) == 3
  {
    Cost2_1();
    CostAppend([Edge(0, 1, 1)], Edge(1, 2, 2));
    assert [Edge(0, 1, 1)] + [Edge(1, 2, 2)] == [Edge(0, 1, 1), Edge(1, 2, 2)];
  }

  lemma Cost2_3()
    ensures Cost([Edge(0, 1, 1), Edge(1, 2, 2), Edge(2, 3, 3)]) == 6
  {
    Cost2_2();
    CostAppend([Edge(0, 1, 1), Edge(1, 2, 2)], Edge(2, 3, 3));
    assert [Edge(0, 1, 1), Edge(1, 2, 2)] + [Edge(2, 3, 3)] == [Edge(0, 1, 1), Edge(1, 2, 2), Edge(2, 3, 3)];
  }

  lemma Cost2()
    ensures Cost(Run2()) == 6
  {
    Cost2_3();
  }

  /** The source's `graph2` test. */
  method PrimGraph2() returns (mst: seq<Edge>)
    ensures mst == [Edge(0, 1, 1), Edge(1, 2, 2), Edge(2, 3, 3)]
    ensures |mst| == 3 && Cost(mst) == 6
  {
    mst := Prim.Prim(Built2());
    BuiltIsG2();
    G2Valid();
    Run2IsGreedy();
    RunDetermined(G2(), mst, Run2());
    Cost2();
  }

  // ----- graph3 (src/graph/prim.rs:118-157) -----

  /** The graph the test's `add_edge` calls build. */
  function Built3(): Graph<nat>
  {
    var g := Graph([0, 1, 2, 3, 4, 5, 6], map[]);
    var g := AddUndirected(g, 0, 1, 2);
    var g := AddUndirected(g, 0, 3, 4);
    var g := AddUndirected(g, 0, 5, 5);
    var g := AddUndirected(g, 1, 3, 1);
    var g := AddUndirected(g, 1, 5, 8);
    var g := AddUndirected(g, 1, 4, 3);
    var g := AddUndirected(g, 1, 2, 7);
    var g := AddUndirected(g, 1, 6, 4);
    var g := AddUndirected(g, 2, 6, 6);
    var g := AddUndirected(g, 2, 4, 10);
    var g := AddUndirected(g, 5, 6, 1);
    AddUndirected(g, 3, 4, 2)
  }

  function G3(): Graph<nat>
  {
    Graph([0, 1, 2, 3, 4, 5, 6],
          map[0 := [Edge(0, 1, 2), Edge(0, 3, 4), Edge(0, 5, 5)],
              1 := [Edge(1, 0, 2), Edge(1, 3, 1), Edge(1, 5, 8), Edge(1, 4, 3), Edge(1, 2, 7), Edge(1, 6, 4)],
              2 := [Edge(2, 1, 7), Edge(2, 6, 6), Edge(2, 4, 10)],
              3 := [Edge(3, 0, 4), Edge(3, 1, 1), Edge(3, 4, 2)],
              4 := [Edge(4, 1, 3), Edge(4, 2, 10), Edge(4, 3, 2)],
              5 := [Edge(5, 0, 5), Edge(5, 1, 8), Edge(5, 6, 1)],
              6 := [Edge(6, 1, 4), Edge(6, 2, 6), Edge(6, 5, 1)]])
  }

  function H3_1(): Graph<nat>
  {
    Graph([0, 1, 2, 3, 4, 5, 6],
          map[0 := [Edge(0, 1, 2)],
              1 := [Edge(1, 0, 2)]])
  }

  lemma Add3_1()
    ensures AddUndirected(Graph([0, 1, 2, 3, 4, 5, 6], map[]), 0, 1, 2) == H3_1()
  {
    assert [] + [Edge(0, 1, 2)] == [Edge(0, 1, 2)];
    assert [] + [Edge(1, 0, 2)] == [Edge(1, 0, 2)];
  }

  function H3_2(): Graph<nat>
  {
    Graph([0, 1, 2, 3, 4, 5, 6],
          map[0 := [Edge(0, 1, 2), Edge(0, 3, 4)],
              1 := [Edge(1, 0, 2)],
              3 := [Edge(3, 0, 4)]])
  }

  lemma Add3_2()
    ensures AddUndirected(H3_1(), 0, 3, 4) == H3_2()
  {
    assert [Edge(0, 1, 2)] + [Edge(0, 3, 4)] == [Edge(0, 1, 2), Edge(0, 3, 4)];
    assert [] + [Edge(3, 0, 4)] == [Edge(3, 0, 4)];
  }

  function H3_3(): Graph<nat>
  {
    Graph([0, 1, 2, 3, 4, 5, 6],
          map[0 := [Edge(0, 1, 2), Edge(0, 3, 4), Edge(0, 5, 5)],
              1 := [Edge(1, 0, 2)],
              3 := [Edge(3, 0, 4)],
              5 := [Edge(5, 0, 5)]])
  }

  lemma Add3_3()
    ensures AddUndirected(H3_2(), 0, 5, 5) == H3_3()
  {
    assert [Edge(0, 1, 2), Edge(0, 3, 4)] + [Edge(0, 5, 5)] == [Edge(0, 1, 2), Edge(0, 3, 4), Edge(0, 5, 5)];
    assert [] + [Edge(5, 0, 5)] == [Edge(5, 0, 5)];
  }

  function H3_4(): Graph<nat>
  {
    Graph([0, 1, 2, 3, 4, 5, 6],
          map[0 := [Edge(0, 1, 2), Edge(0, 3, 4), Edge(0, 5, 5)],
              1 := [Edge(1, 0, 2), Edge(1, 3, 1)],
              3 := [Edge(3, 0, 4), Edge(3, 1, 1)],
              5 := [Edge(5, 0, 5)]])
  }

  lemma Add3_4()
    ensures AddUndirected(H3_3(), 1, 3, 1) == H3_4()
  {
    assert [Edge(1, 0, 2)] + [Edge(1, 3, 1)] == [Edge(1, 0, 2), Edge(1, 3, 1)];
    assert [Edge(3, 0, 4)] + [Edge(3, 1, 1)] == [Edge(3, 0, 4), Edge(3, 1, 1)];
  }

  function H3_5(): Graph<nat>
  {
    Graph([0, 1, 2, 3, 4, 5, 6],
          map[0 := [Edge(0, 1, 2), Edge(0, 3, 4), Edge(0, 5, 5)],
              1 := [Edge(1, 0, 2), Edge(1, 3, 1), Edge(1, 5, 8)],
              3 := [Edge(3, 0, 4), Edge(3, 1, 1)],
              5 := [Edge(5, 0, 5), Edge(5, 1, 8)]])
  }

  lemma Add3_5()
    ensures AddUndirected(H3_4(), 1, 5, 8) == H3_5()
  {
    assert [Edge(1, 0, 2), Edge(1, 3, 1)] + [Edge(1, 5, 8)] == [Edge(1, 0, 2), Edge(1, 3, 1), Edge(1, 5, 8)];
    assert [Edge(5, 0, 5)] + [Edge(5, 1, 8)] == [Edge(5, 0, 5), Edge(5, 1, 8)];
  }

  function H3_6(): Graph<nat>
  {
    Graph([0, 1, 2, 3, 4, 5, 6],
          map[0 := [Edge(0, 1, 2), Edge(0, 3, 4), Edge(0, 5, 5)],
              1 := [Edge(1, 0, 2), Edge(1, 3, 1), Edge(1, 5, 8), Edge(1, 4, 3)],
              3 := [Edge(3, 0, 4), Edge(3, 1, 1)],
              4 := [Edge(4, 1, 3)],
              5 := [Edge(5, 0, 5), Edge(5, 1, 8)]])
  }

  lemma Add3_6()
    ensures AddUndirected(H3_5(), 1, 4, 3) == H3_6()
  {
    assert [Edge(1, 0, 2), Edge(1, 3, 1), Edge(1, 5, 8)] + [Edge(1, 4, 3)] == [Edge(1, 0, 2), Edge(1, 3, 1), Edge(1, 5, 8), Edge(1, 4, 3)];
    assert [] + [Edge(4, 1, 3)] == [Edge(4, 1, 3)];
  }

  function H3_7(): Graph<nat>
  {
    Graph([0, 1, 2, 3, 4, 5, 6],
          map[0 := [Edge(0, 1, 2), Edge(0, 3, 4), Edge(0, 5, 5)],
              1 := [Edge(1, 0, 2), Edge(1, 3, 1), Edge(1, 5, 8), Edge(1, 4, 3), Edge(1, 2, 7)],
              2 := [Edge(2, 1, 7)],
              3 := [Edge(3, 0, 4), Edge(3, 1, 1)],
              4 := [Edge(4, 1, 3)],
              5 := [Edge(5, 0, 5), Edge(5, 1, 8)]])
  }

  lemma Add3_7()
    ensures AddUndirected(H3_6(), 1, 2, 7) == H3_7()
  {
    assert [Edge(1, 0, 2), Edge(1, 3, 1), Edge(1, 5, 8), Edge(1, 4, 3)] + [Edge(1, 2, 7)] == [Edge(1, 0, 2), Edge(1, 3, 1), Edge(1, 5, 8), Edge(1, 4, 3), Edge(1, 2, 7)];
    assert [] + [Edge(2, 1, 7)] == [Edge(2, 1, 7)];
  }

  function H3_8(): Graph<nat>
  {
    Graph([0, 1, 2, 3, 4, 5, 6],
          map[0 := [Edge(0, 1, 2), Edge(0, 3, 4), Edge(0, 5, 5)],
              1 := [Edge(1, 0, 2), Edge(1, 3, 1), Edge(1, 5, 8), Edge(1, 4, 3), Edge(1, 2, 7), Edge(1, 6, 4)],
              2 := [Edge(2, 1, 7)],
              3 := [Edge(3, 0, 4), Edge(3, 1, 1)],
              4 := [Edge(4, 1, 3)],
              5 := [Edge(5, 0, 5), Edge(5, 1, 8)],
              6 := [Edge(6, 1, 4)]])
  }

  lemma Add3_8()
    ensures AddUndirected(H3_7(), 1, 6, 4) == H3_8()
  {
    assert [Edge(1, 0, 2), Edge(1, 3, 1), Edge(1, 5, 8), Edge(1, 4, 3), Edge(1, 2, 7)] + [Edge(1, 6, 4)] == [Edge(1, 0, 2), Edge(1, 3, 1), Edge(1, 5, 8), Edge(1, 4, 3), Edge(1, 2, 7), Edge(1, 6, 4)];
    assert [] + [Edge(6, 1, 4)] == [Edge(6, 1, 4)];
  }

  function H3_9(): Graph<nat>
  {
    Graph([0, 1, 2, 3, 4, 5, 6],
          map[0 := [Edge(0, 1, 2), Edge(0, 3, 4), Edge(0, 5, 5)],
              1 := [Edge(1, 0, 2), Edge(1, 3, 1), Edge(1, 5, 8), Edge(1, 4, 3), Edge(1, 2, 7), Edge(1, 6, 4)],
              2 := [Edge(2, 1, 7), Edge(2, 6, 6)],
              3 := [Edge(3, 0, 4), Edge(3, 1, 1)],
              4 := [Edge(4, 1, 3)],
              5 := [Edge(5, 0, 5), Edge(5, 1, 8)],
              6 := [Edge(6, 1, 4), Edge(6, 2, 6)]])
  }

  lemma Add3_9()
    ensures AddUndirected(H3_8(), 2, 6, 6) == H3_9()
  {
    assert [Edge(2, 1, 7)] + [Edge(2, 6, 6)] == [Edge(2, 1, 7), Edge(2, 6, 6)];
    assert [Edge(6, 1, 4)] + [Edge(6, 2, 6)] == [Edge(6, 1, 4), Edge(6, 2, 6)];
  }

  function H3_10(): Graph<nat>
  {
    Graph([0, 1, 2, 3, 4, 5, 6],
          map[0 := [Edge(0, 1, 2), Edge(0, 3, 4), Edge(0, 5, 5)],
              1 := [Edge(1, 0, 2), Edge(1, 3, 1), Edge(1, 5, 8), Edge(1, 4, 3), Edge(1, 2, 7), Edge(1, 6, 4)],
              2 := [Edge(2, 1, 7), Edge(2, 6, 6), Edge(2, 4, 10)],
              3 := [Edge(3, 0, 4), Edge(3, 1, 1)],
              4 := [Edge(4, 1, 3), Edge(4, 2, 10)],
              5 := [Edge(5, 0, 5), Edge(5, 1, 8)],
              6 := [Edge(6, 1, 4), Edge(6, 2, 6)]])
  }

  lemma Add3_10()
    ensures AddUndirected(H3_9(), 2, 4, 10) == H3_10()
  {
    assert [Edge(2, 1, 7), Edge(2, 6, 6)] + [Edge(2, 4, 10)] == [Edge(2, 1, 7), Edge(2, 6, 6), Edge(2, 4, 10)];
    assert [Edge(4, 1, 3)] + [Edge(4, 2, 10)] == [Edge(4, 1, 3), Edge(4, 2, 10)];
  }

  function H3_11(): Graph<nat>
  {
    Graph([0, 1, 2, 3, 4, 5, 6],
          map[0 := [Edge(0, 1, 2), Edge(0, 3, 4), Edge(0, 5, 5)],
              1 := [Edge(1, 0, 2), Edge(1, 3, 1), Edge(1, 5, 8), Edge(1, 4, 3), Edge(1, 2, 7), Edge(1, 6, 4)],
              2 := [Edge(2, 1, 7), Edge(2, 6, 6), Edge(2, 4, 10)],
              3 := [Edge(3, 0, 4), Edge(3, 1, 1)],
              4 := [Edge(4, 1, 3), Edge(4, 2, 10)],
              5 := [Edge(5, 0, 5), Edge(5, 1, 8), Edge(5, 6, 1)],
              6 := [Edge(6, 1, 4), Edge(6, 2, 6), Edge(6, 5, 1)]])
  }

  lemma Add3_11()
    ensures AddUndirected(H3_10(), 5, 6, 1) == H3_11()
  {
    assert [Edge(5, 0, 5), Edge(5, 1, 8)] + [Edge(5, 6, 1)] == [Edge(5, 0, 5), Edge(5, 1, 8), Edge(5, 6, 1)];
    assert [Edge(6, 1, 4), Edge(6, 2, 6)] + [Edge(6, 5, 1)] == [Edge(6, 1, 4), Edge(6, 2, 6), Edge(6, 5, 1)];
  }

  function H3_12(): Graph<nat>
  {
    Graph([0, 1, 2, 3, 4, 5, 6],
          map[0 := [Edge(0, 1, 2), Edge(0, 3, 4), Edge(0, 5, 5)],
              1 := [Edge(1, 0, 2), Edge(1, 3, 1), Edge(1, 5, 8), Edge(1, 4, 3), Edge(1, 2, 7), Edge(1, 6, 4)],
              2 := [Edge(2, 1, 7), Edge(2, 6, 6), Edge(2, 4, 10)],
              3 := [Edge(3, 0, 4), Edge(3, 1, 1), Edge(3, 4, 2)],
              4 := [Edge(4, 1, 3), Edge(4, 2, 10), Edge(4, 3, 2)],
              5 := [Edge(5, 0, 5), Edge(5, 1, 8), Edge(5, 6, 1)],
              6 := [Edge(6, 1, 4), Edge(6, 2, 6), Edge(6, 5, 1)]])
  }

  lemma Add3_12()
    ensures AddUndirected(H3_11(), 3, 4, 2) == H3_12()
  {
    assert [Edge(3, 0, 4), Edge(3, 1, 1)] + [Edge(3, 4, 2)] == [Edge(3, 0, 4), Edge(3, 1, 1), Edge(3, 4, 2)];
    assert [Edge(4, 1, 3), Edge(4, 2, 10)] + [Edge(4, 3, 2)] == [Edge(4, 1, 3), Edge(4, 2, 10), Edge(4, 3, 2)];
  }

  lemma BuiltIsG3()
    ensures Built3() == G3()
  {
    Add3_1();
    Add3_2();
    Add3_3();
    Add3_4();
    Add3_5();
    Add3_6();
    Add3_7();
    Add3_8();
    Add3_9();
    Add3_10();
    Add3_11();
    Add3_12();
    assert H3_12() == G3();
  }

  lemma G3Valid()
    ensures ValidIds(G3()) && |G3().nodes| == 7
  {
  }

  /** The run the test expects, and the seen set before each of its edges. */
  function Run3(): seq<Edge>
  {
    [Edge(0, 1, 2), Edge(1, 3, 1), Edge(3, 4, 2), Edge(1, 6, 4), Edge(6, 5, 1), Edge(6, 2, 6)]
  }

  function Sets3(): seq<set<nat>>
  {
    [{0}, {0, 1}, {0, 1, 3}, {0, 1, 3, 4}, {0, 1, 3, 4, 6}, {0, 1, 3, 4, 5, 6}, {0, 1, 2, 3, 4, 5, 6}]
  }

  lemma Step3_0()
    ensures Crosses(G3(), Sets3()[0], Run3()[0]) && Cheapest(G3(), Sets3()[0], Run3()[0])
  {
    assert Sets3()[0] == {0} && Run3()[0] == Edge(0, 1, 2);
    assert Crossing(G3(), {0}, 0, 0) && Edges(G3(), 0)[0] == Edge(0, 1, 2);
    forall x: nat, i: nat | Crossing(G3(), {0}, x, i) ensures Before(Edge(0, 1, 2), Edges(G3(), x)[i]) {
      if x == 0 {
        assert Edges(G3(), 0) == [Edge(0, 1, 2), Edge(0, 3, 4), Edge(0, 5, 5)];
      }
    }
  }

  lemma Step3_1()
    ensures Crosses(G3(), Sets3()[1], Run3()[1]) && Cheapest(G3(), Sets3()[1], Run3()[1])
  {
    assert Sets3()[1] == {0, 1} && Run3()[1] == Edge(1, 3, 1);
    assert Crossing(G3(), {0, 1}, 1, 1) && Edges(G3(), 1)[1] == Edge(1, 3, 1);
    forall x: nat, i: nat | Crossing(G3(), {0, 1}, x, i) ensures Before(Edge(1, 3, 1), Edges(G3(), x)[i]) {
      if x == 0 {
        assert Edges(G3(), 0) == [Edge(0, 1, 2), Edge(0, 3, 4), Edge(0, 5, 5)];
      } else if x == 1 {
        assert Edges(G3(), 1) == [Edge(1, 0, 2), Edge(1, 3, 1), Edge(1, 5, 8), Edge(1, 4, 3), Edge(1, 2, 7), Edge(1, 6, 4)];
      }
    }
  }

  lemma Step3_2()
    ensures Crosses(G3(), Sets3()[2], Run3()[2]) && Cheapest(G3(), Sets3()[2], Run3()[2])
  {
    assert Sets3()[2] == {0, 1, 3} && Run3()[2] == Edge(3, 4, 2);
    assert Crossing(G3(), {0, 1, 3}, 3, 2) && Edges(G3(), 3)[2] == Edge(3, 4, 2);
    forall x: nat, i: nat | Crossing(G3(), {0, 1, 3}, x, i) ensures Before(Edge(3, 4, 2), Edges(G3(), x)[i]) {
      if x == 0 {
        assert Edges(G3(), 0) == [Edge(0, 1, 2), Edge(0, 3, 4), Edge(0, 5, 5)];
      } else if x == 1 {
        assert Edges(G3(), 1) == [Edge(1, 0, 2), Edge(1, 3, 1), Edge(1, 5, 8), Edge(1, 4, 3), Edge(1, 2, 7), Edge(1, 6, 4)];
      } else if x == 3 {
        assert Edges(G3(), 3) == [Edge(3, 0, 4), Edge(3, 1, 1), Edge(3, 4, 2)];
      }
    }
  }

  lemma Step3_3()
    ensures Crosses(G3(), Sets3()[3], Run3()[3]) && Cheapest(G3(), Sets3()[3], Run3()[3])
  {
    assert Sets3()[3] == {0, 1, 3, 4} && Run3()[3] == Edge(1, 6, 4);
    assert Crossing(G3(), {0, 1, 3, 4}, 1, 5) && Edges(G3(), 1)[5] == Edge(1, 6, 4);
    forall x: nat, i: nat | Crossing(G3(), {0, 1, 3, 4}, x, i) ensures Before(Edge(1, 6, 4), Edges(G3(), x)[i]) {
      if x == 0 {
        assert Edges(G3(), 0) == [Edge(0, 1, 2), Edge(0, 3, 4), Edge(0, 5, 5)];
      } else if x == 1 {
        assert Edges(G3(), 1) == [Edge(1, 0, 2), Edge(1, 3, 1), Edge(1, 5, 8), Edge(1, 4, 3), Edge(1, 2, 7), Edge(1, 6, 4)];
      } else if x == 4 {
        assert Edges(G3(), 4) == [Edge(4, 1, 3), Edge(4, 2, 10), Edge(4, 3, 2)];
      }
    }
  }

  lemma Step3_4()
    ensures Crosses(G3(), Sets3()[4], Run3()[4]) && Cheapest(G3(), Sets3()[4], Run3()[4])
  {
    assert Sets3()[4] == {0, 1, 3, 4, 6} && Run3()[4] == Edge(6, 5, 1);
    assert Crossing(G3(), {0, 1, 3, 4, 6}, 6, 2) && Edges(G3(), 6)[2] == Edge(6, 5, 1);
    forall x: nat, i: nat | Crossing(G3(), {0, 1, 3, 4, 6}, x, i) ensures Before(Edge(6, 5, 1), Edges(G3(), x)[i]) {
      if x == 0 {
        assert Edges(G3(), 0) == [Edge(0, 1, 2), Edge(0, 3, 4), Edge(0, 5, 5)];
      } else if x == 1 {
        assert Edges(G3(), 1) == [Edge(1, 0, 2), Edge(1, 3, 1), Edge(1, 5, 8), Edge(1, 4, 3), Edge(1, 2, 7), Edge(1, 6, 4)];
      } else if x == 4 {
        assert Edges(G3(), 4) == [Edge(4, 1, 3), Edge(4, 2, 10), Edge(4, 3, 2)];
      } else if x == 6 {
        assert Edges(G3(), 6) == [Edge(6, 1, 4), Edge(6, 2, 6), Edge(6, 5, 1)];
      }
    }
  }

  lemma Step3_5()
    ensures Crosses(G3(), Sets3()[5], Run3()[5]) && Cheapest(G3(), Sets3()[5], Run3()[5])
  {
    assert Sets3()[5] == {0, 1, 3, 4, 5, 6} && Run3()[5] == Edge(6, 2, 6);
    assert Crossing(G3(), {0, 1, 3, 4, 5, 6}, 6, 1) && Edges(G3(), 6)[1] == Edge(6, 2, 6);
    forall x: nat, i: nat | Crossing(G3(), {0, 1, 3, 4, 5, 6}, x, i) ensures Before(Edge(6, 2, 6), Edges(G3(), x)[i]) {
      if x == 1 {
        assert Edges(G3(), 1) == [Edge(1, 0, 2), Edge(1, 3, 1), Edge(1, 5, 8), Edge(1, 4, 3), Edge(1, 2, 7), Edge(1, 6, 4)];
      } else if x == 4 {
        assert Edges(G3(), 4) == [Edge(4, 1, 3), Edge(4, 2, 10), Edge(4, 3, 2)];
      } else if x == 6 {
        assert Edges(G3(), 6) == [Edge(6, 1, 4), Edge(6, 2, 6), Edge(6, 5, 1)];
      }
    }
  }

  lemma Enclosed3()
    ensures Enclosed(G3(), {0, 1, 2, 3, 4, 5, 6})
  {
  }

  lemma Sets3Grow()
    ensures |Sets3()| == |Run3()| + 1 && Sets3()[0] == {0}
    ensures forall j :: 0 <= j < |Run3()| ==> Sets3()[j + 1] == Sets3()[j] + {Run3()[j].dst}
  {
  }

  lemma Steps3()
    ensures forall j :: 0 <= j < |Run3()| ==> Crosses(G3(), Sets3()[j], Run3()[j]) && Cheapest(G3(), Sets3()[j], Run3()[j])
  {
    forall j | 0 <= j < |Run3()| ensures Crosses(G3(), Sets3()[j], Run3()[j]) && Cheapest(G3(), Sets3()[j], Run3()[j]) {
      if j == 0 {
        Step3_0();
      } else if j == 1 {
        Step3_1();
      } else if j == 2 {
        Step3_2();
      } else if j == 3 {
        Step3_3();
      } else if j == 4 {
        Step3_4();
      } else if j == 5 {
        Step3_5();
      }
    }
  }

  lemma Run3IsGreedy()
    ensures GreedyRun(G3(), Run3())
  {
    Sets3Grow();
    Steps3();
    Enclosed3();
    RunBySets(G3(), Run3(), Sets3());
  }

  lemma Cost3_1()
    ensures Cost([Edge(0, 1, 2)]) == 2
  {
    CostAppend([], Edge(0, 1, 2));
    assert [] + [Edge(0, 1, 2)] == [Edge(0, 1, 2)];
  }

  lemma Cost3_2()
    ensures Cost([Edge(0, 1, 2), Edge(1, 3, 1)]) == 3
  {
    Cost3_1();
    CostAppend([Edge(0, 1, 2)], Edge(1, 3, 1));
    assert [Edge(0, 1, 2)] + [Edge(1, 3, 1)] == [Edge(0, 1, 2), Edge(1, 3, 1)];
  }

  lemma Cost3_3()
    ensures Cost([Edge(0, 1, 2), Edge(1, 3, 1), Edge(3, 4, 2)]) == 5
  {
    Cost3_2();
    CostAppend([Edge(0, 1, 2), Edge(1, 3, 1)], Edge(3, 4, 2));
    assert [Edge(0, 1, 2), Edge(1, 3, 1)] + [Edge(3, 4, 2)] == [Edge(0, 1, 2), Edge(1, 3, 1), Edge(3, 4, 2)];
  }

  lemma Cost3_4()
    ensures Cost([Edge(0, 1, 2), Edge(1, 3, 1), Edge(3, 4, 2), Edge(1, 6, 4)]) == 9
  {
    Cost3_3();
    CostAppend([Edge(0, 1, 2), Edge(1, 3, 1), Edge(3, 4, 2)], Edge(1, 6, 4));
    assert [Edge(0, 1, 2), Edge(1, 3, 1), Edge(3, 4, 2)] + [Edge(1, 6, 4)] == [Edge(0, 1, 2), Edge(1, 3, 1), Edge(3, 4, 2), Edge(1, 6, 4)];
  }

  lemma Cost3_5()
    ensures Cost([Edge(0, 1, 2), Edge(1, 3, 1), Edge(3, 4, 2), Edge(1, 6, 4), Edge(6, 5, 1)]) == 10
  {
    Cost3_4();
    CostAppend([Edge(0, 1, 2), Edge(1, 3, 1), Edge(3, 4, 2), Edge(1, 6, 4)], Edge(6, 5, 1));
    assert [Edge(0, 1, 2), Edge(1, 3, 1), Edge(3, 4, 2), Edge(1, 6, 4)] + [Edge(6, 5, 1)] == [Edge(0, 1, 2), Edge(1, 3, 1), Edge(3, 4, 2), Edge(1, 6, 4), Edge(6, 5, 1)];
  }

  lemma Cost3_6()
    ensures Cost([Edge(0, 1, 2), Edge(1, 3, 1), Edge(3, 4, 2), Edge(1, 6, 4), Edge(6, 5, 1), Edge(6, 2, 6)]) == 16
  {
    Cost3_5();
    CostAppend([Edge(0, 1, 2), Edge(1, 3, 1), Edge(3, 4, 2), Edge(1, 6, 4), Edge(6, 5, 1)], Edge(6, 2, 6));
    assert [Edge(0, 1, 2), Edge(1, 3, 1), Edge(3, 4, 2), Edge(1, 6, 4), Edge(6, 5, 1)] + [Edge(6, 2, 6)] == [Edge(0, 1, 2), Edge(1, 3, 1), Edge(3, 4, 2), Edge(1, 6, 4), Edge(6, 5, 1), Edge(6, 2, 6)];
  }

  lemma Cost3()
    ensures Cost(Run3()) == 16
  {
    Cost3_6();
  }

  /** The source's `graph3` test. */
  method PrimGraph3() returns (mst: seq<Edge>)
    ensures mst == [Edge(0, 1, 2), Edge(1, 3, 1), Edge(3, 4, 2), Edge(1, 6, 4), Edge(6, 5, 1), Edge(6, 2, 6)]
    ensures |mst| == 6 && Cost(mst) == 16
  {
    mst := Prim.Prim(Built3());
    BuiltIsG3();
    G3Valid();
    Run3IsGreedy();
    RunDetermined(G3(), mst, Run3());
    Cost3();
  }

}
