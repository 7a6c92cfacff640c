/** Evaluations of the N-Queens search for the boards of the source's
    tests with five and six queens, one lemma per node of the search tree:
    `SearchN_a_b` evaluates the search from the queens `a, b` on an `N` by
    `N` board. */
module NQueensSearch {
  import opened NQueens

  /** The rows of a 5 by 5 board. */
  lemma Rows5()
    ensures RowOf(5, 0) == "Q...."
         && RowOf(5, 1) == ".Q..."
         && RowOf(5, 2) == "..Q.."
         && RowOf(5, 3) == "...Q."
         && RowOf(5, 4) == "....Q"
  {
    assert RowOf(5, 0) == "Q...." by {
      assert forall j :: 0 <= j < 5 ==> RowOf(5, 0)[j] == "Q...."[j];
    }
    assert RowOf(5, 1) == ".Q..." by {
      assert forall j :: 0 <= j < 5 ==> RowOf(5, 1)[j] == ".Q..."[j];
    }
    assert RowOf(5, 2) == "..Q.." by {
      assert forall j :: 0 <= j < 5 ==> RowOf(5, 2)[j] == "..Q.."[j];
    }
    assert RowOf(5, 3) == "...Q." by {
      assert forall j :: 0 <= j < 5 ==> RowOf(5, 3)[j] == "...Q."[j];
    }
    assert RowOf(5, 4) == "....Q" by {
      assert forall j :: 0 <= j < 5 ==> RowOf(5, 4)[j] == "....Q"[j];
    }
  }

  lemma Board5_0(p: seq<nat>)
    requires p == [0, 2, 4, 1, 3]
    ensures Render(5, p) == ["Q....", "..Q..", "....Q", ".Q...", "...Q."]
  {
    Rows5();
    assert Render(5, p) == [RowOf(5, 0), RowOf(5, 2), RowOf(5, 4), RowOf(5, 1), RowOf(5, 3)];
  }

  lemma Board5_1(p: seq<nat>)
    requires p == [0, 3, 1, 4, 2]
    ensures Render(5, p) == ["Q....", "...Q.", ".Q...", "....Q", "..Q.."]
  {
    Rows5();
    assert Render(5, p) == [RowOf(5, 0), RowOf(5, 3), RowOf(5, 1), RowOf(5, 4), RowOf(5, 2)];
  }

  lemma Board5_2(p: seq<nat>)
    requires p == [1, 3, 0, 2, 4]
    ensures Render(5, p) == [".Q...", "...Q.", "Q....", "..Q..", "....Q"]
  {
    Rows5();
    assert Render(5, p) == [RowOf(5, 1), RowOf(5, 3), RowOf(5, 0), RowOf(5, 2), RowOf(5, 4)];
  }

  lemma Board5_3(p: seq<nat>)
    requires p == [1, 4, 2, 0, 3]
    ensures Render(5, p) == [".Q...", "....Q", "..Q..", "Q....", "...Q."]
  {
    Rows5();
    assert Render(5, p) == [RowOf(5, 1), RowOf(5, 4), RowOf(5, 2), RowOf(5, 0), RowOf(5, 3)];
  }

  lemma Board5_4(p: seq<nat>)
    requires p == [2, 0, 3, 1, 4]
    ensures Render(5, p) == ["..Q..", "Q....", "...Q.", ".Q...", "....Q"]
  {
    Rows5();
    assert Render(5, p) == [RowOf(5, 2), RowOf(5, 0), RowOf(5, 3), RowOf(5, 1), RowOf(5, 4)];
  }

  lemma Board5_5(p: seq<nat>)
    requires p == [2, 4, 1, 3, 0]
    ensures Render(5, p) == ["..Q..", "....Q", ".Q...", "...Q.", "Q...."]
  {
    Rows5();
    assert Render(5, p) == [RowOf(5, 2), RowOf(5, 4), RowOf(5, 1), RowOf(5, 3), RowOf(5, 0)];
  }

  lemma Board5_6(p: seq<nat>)
    requires p == [3, 0, 2, 4, 1]
    ensures Render(5, p) == ["...Q.", "Q....", "..Q..", "....Q", ".Q..."]
  {
    Rows5();
    assert Render(5, p) == [RowOf(5, 3), RowOf(5, 0), RowOf(5, 2), RowOf(5, 4), RowOf(5, 1)];
  }

  lemma Board5_7(p: seq<nat>)
    requires p == [3, 1, 4, 2, 0]
    ensures Render(5, p) == ["...Q.", ".Q...", "....Q", "..Q..", "Q...."]
  {
    Rows5();
    assert Render(5, p) == [RowOf(5, 3), RowOf(5, 1), RowOf(5, 4), RowOf(5, 2), RowOf(5, 0)];
  }

  lemma Board5_8(p: seq<nat>)
    requires p == [4, 1, 3, 0, 2]
    ensures Render(5, p) == ["....Q", ".Q...", "...Q.", "Q....", "..Q.."]
  {
    Rows5();
    assert Render(5, p) == [RowOf(5, 4), RowOf(5, 1), RowOf(5, 3), RowOf(5, 0), RowOf(5, 2)];
  }

  lemma Board5_9(p: seq<nat>)
    requires p == [4, 2, 0, 3, 1]
    ensures Render(5, p) == ["....Q", "..Q..", "Q....", "...Q.", ".Q..."]
  {
    Rows5();
    assert Render(5, p) == [RowOf(5, 4), RowOf(5, 2), RowOf(5, 0), RowOf(5, 3), RowOf(5, 1)];
  }

  /** The source's test for 5 queens: 10 boards. */
  lemma Queens5(qs: seq<nat>)
    requires qs == []
    ensures Solve(5, qs) == [[0, 2, 4, 1, 3], [0, 3, 1, 4, 2], [1, 3, 0, 2, 4], [1, 4, 2, 0, 3], [2, 0, 3, 1, 4], [2, 4, 1, 3, 0], [3, 0, 2, 4, 1], [3, 1, 4, 2, 0], [4, 1, 3, 0, 2], [4, 2, 0, 3, 1]]
    ensures RenderAll(5, Solve(5, qs)) ==
      [["Q....", "..Q..", "....Q", ".Q...", "...Q."],
       ["Q....", "...Q.", ".Q...", "....Q", "..Q.."],
       [".Q...", "...Q.", "Q....", "..Q..", "....Q"],
       [".Q...", "....Q", "..Q..", "Q....", "...Q."],
       ["..Q..", "Q....", "...Q.", ".Q...", "....Q"],
       ["..Q..", "....Q", ".Q...", "...Q.", "Q...."],
       ["...Q.", "Q....", "..Q..", "....Q", ".Q..."],
       ["...Q.", ".Q...", "....Q", "..Q..", "Q...."],
       ["....Q", ".Q...", "...Q.", "Q....", "..Q.."],
       ["....Q", "..Q..", "Q....", "...Q.", ".Q..."]]
  {
    Search5(qs);
    var ps: seq<seq<nat>> := [[0, 2, 4, 1, 3], [0, 3, 1, 4, 2], [1, 3, 0, 2, 4], [1, 4, 2, 0, 3], [2, 0, 3, 1, 4], [2, 4, 1, 3, 0], [3, 0, 2, 4, 1], [3, 1, 4, 2, 0], [4, 1, 3, 0, 2], [4, 2, 0, 3, 1]];
    Board5_0(ps[0]);
    Board5_1(ps[1]);
    Board5_2(ps[2]);
    Board5_3(ps[3]);
    Board5_4(ps[4]);
    Board5_5(ps[5]);
    Board5_6(ps[6]);
    Board5_7(ps[7]);
    Board5_8(ps[8]);
    Board5_9(ps[9]);
    assert RenderAll(5, ps) == [["Q....", "..Q..", "....Q", ".Q...", "...Q."], ["Q....", "...Q.", ".Q...", "....Q", "..Q.."], [".Q...", "...Q.", "Q....", "..Q..", "....Q"], [".Q...", "....Q", "..Q..", "Q....", "...Q."], ["..Q..", "Q....", "...Q.", ".Q...", "....Q"], ["..Q..", "....Q", ".Q...", "...Q.", "Q...."], ["...Q.", "Q....", "..Q..", "....Q", ".Q..."], ["...Q.", ".Q...", "....Q", "..Q..", "Q...."], ["....Q", ".Q...", "...Q.", "Q....", "..Q.."], ["....Q", "..Q..", "Q....", "...Q.", ".Q..."]];
  }

  /** The rows of a 6 by 6 board. */
  lemma Rows6()
    ensures RowOf(6, 0) == "Q....."
         && RowOf(6, 1) == ".Q...."
         && RowOf(6, 2) == "..Q..."
         && RowOf(6, 3) == "...Q.."
         && RowOf(6, 4) == "....Q."
         && RowOf(6, 5) == ".....Q"
  {
    assert RowOf(6, 0) == "Q....." by {
      assert forall j :: 0 <= j < 6 ==> RowOf(6, 0)[j] == "Q....."[j];
    }
    assert RowOf(6, 1) == ".Q...." by {
      assert forall j :: 0 <= j < 6 ==> RowOf(6, 1)[j] == ".Q...."[j];
    }
    assert RowOf(6, 2) == "..Q..." by {
      assert forall j :: 0 <= j < 6 ==> RowOf(6, 2)[j] == "..Q..."[j];
    }
    assert RowOf(6, 3) == "...Q.." by {
      assert forall j :: 0 <= j < 6 ==> RowOf(6, 3)[j] == "...Q.."[j];
    }
    assert RowOf(6, 4) == "....Q." by {
      assert forall j :: 0 <= j < 6 ==> RowOf(6, 4)[j] == "....Q."[j];
    }
    assert RowOf(6, 5) == ".....Q" by {
      assert forall j :: 0 <= j < 6 ==> RowOf(6, 5)[j] == ".....Q"[j];
    }
  }

  lemma Board6_0(p: seq<nat>)
    requires p == [1, 3, 5, 0, 2, 4]
    ensures Render(6, p) == [".Q....", "...Q..", ".....Q", "Q.....", "..Q...", "....Q."]
  {
    Rows6();
    assert Render(6, p) == [RowOf(6, 1), RowOf(6, 3), RowOf(6, 5), RowOf(6, 0), RowOf(6, 2), RowOf(6, 4)];
  }

  lemma Board6_1(p: seq<nat>)
    requires p == [2, 5, 1, 4, 0, 3]
    ensures Render(6, p) == ["..Q...", ".....Q", ".Q....", "....Q.", "Q.....", "...Q.."]
  {
    Rows6();
    assert Render(6, p) == [RowOf(6, 2), RowOf(6, 5), RowOf(6, 1), RowOf(6, 4), RowOf(6, 0), RowOf(6, 3)];
  }

  lemma Board6_2(p: seq<nat>)
    requires p == [3, 0, 4, 1, 5, 2]
    ensures Render(6, p) == ["...Q..", "Q.....", "....Q.", ".Q....", ".....Q", "..Q..."]
  {
    Rows6();
    assert Render(6, p) == [RowOf(6, 3), RowOf(6, 0), RowOf(6, 4), RowOf(6, 1), RowOf(6, 5), RowOf(6, 2)];
  }

  lemma Board6_3(p: seq<nat>)
    requires p == [4, 2, 0, 5, 3, 1]
    ensures Render(6, p) == ["....Q.", "..Q...", "Q.....", ".....Q", "...Q..", ".Q...."]
  {
    Rows6();
    assert Render(6, p) == [RowOf(6, 4), RowOf(6, 2), RowOf(6, 0), RowOf(6, 5), RowOf(6, 3), RowOf(6, 1)];
  }

  /** The source's test for 6 queens: 4 boards. */
  lemma Queens6(qs: seq<nat>)
    requires qs == []
    ensures Solve(6, qs) == [[1, 3, 5, 0, 2, 4], [2, 5, 1, 4, 0, 3], [3, 0, 4, 1, 5, 2], [4, 2, 0, 5, 3, 1]]
    ensures RenderAll(6, Solve(6, qs)) ==
      [[".Q....", "...Q..", ".....Q", "Q.....", "..Q...", "....Q."],
       ["..Q...", ".....Q", ".Q....", "....Q.", "Q.....", "...Q.."],
       ["...Q..", "Q.....", "....Q.", ".Q....", ".....Q", "..Q..."],
       ["....Q.", "..Q...", "Q.....", ".....Q", "...Q..", ".Q...."]]
  {
    Search6(qs);
    var ps: seq<seq<nat>> := [[1, 3, 5, 0, 2, 4], [2, 5, 1, 4, 0, 3], [3, 0, 4, 1, 5, 2], [4, 2, 0, 5, 3, 1]];
    Board6_0(ps[0]);
    Board6_1(ps[1]);
    Board6_2(ps[2]);
    Board6_3(ps[3]);
    assert RenderAll(6, ps) == [[".Q....", "...Q..", ".....Q", "Q.....", "..Q...", "....Q."], ["..Q...", ".....Q", ".Q....", "....Q.", "Q.....", "...Q.."], ["...Q..", "Q.....", "....Q.", ".Q....", ".....Q", "..Q..."], ["....Q.", "..Q...", "Q.....", ".....Q", "...Q..", ".Q...."]];
  }

  lemma Search5(qs: seq<nat>)
    requires qs == []
    ensures Solve(5, qs) == [[0, 2, 4, 1, 3], [0, 3, 1, 4, 2], [1, 3, 0, 2, 4], [1, 4, 2, 0, 3], [2, 0, 3, 1, 4], [2, 4, 1, 3, 0], [3, 0, 2, 4, 1], [3, 1, 4, 2, 0], [4, 1, 3, 0, 2], [4, 2, 0, 3, 1]]
  {
    StepFree(5, qs, 0);
    Search5_0(qs + [0]);
    StepFree(5, qs, 1);
    Search5_1(qs + [1]);
    StepFree(5, qs, 2);
    Search5_2(qs + [2]);
    StepFree(5, qs, 3);
    Search5_3(qs + [3]);
    StepFree(5, qs, 4);
    Search5_4(qs + [4]);
  }

  lemma Search5_0(qs: seq<nat>)
    requires qs == [0]
    ensures Solve(5, qs) == [[0, 2, 4, 1, 3], [0, 3, 1, 4, 2]]
  {
    StepAttacked(5, qs, 0, 0);
    StepAttacked(5, qs, 1, 0);
    SafeAt1(qs, 2);
    StepFree(5, qs, 2);
    Search5_0_2(qs + [2]);
    SafeAt1(qs, 3);
    StepFree(5, qs, 3);
    Search5_0_3(qs + [3]);
    SafeAt1(qs, 4);
    StepFree(5, qs, 4);
    Search5_0_4(qs + [4]);
  }

  lemma Search5_0_2(qs: seq<nat>)
    requires qs == [0, 2]
    ensures Solve(5, qs) == [[0, 2, 4, 1, 3]]
  {
    StepAttacked(5, qs, 0, 0);
    StepAttacked(5, qs, 1, 1);
    StepAttacked(5, qs, 2, 0);
    StepAttacked(5, qs, 3, 1);
    SafeAt2(qs, 4);
    StepFree(5, qs, 4);
    Search5_0_2_4(qs + [4]);
  }

  lemma Search5_0_2_4(qs: seq<nat>)
    requires qs == [0, 2, 4]
    ensures Solve(5, qs) == [[0, 2, 4, 1, 3]]
  {
    StepAttacked(5, qs, 0, 0);
    SafeAt3(qs, 1);
    StepFree(5, qs, 1);
    Search5_0_2_4_1(qs + [1]);
    StepAttacked(5, qs, 2, 1);
    StepAttacked(5, qs, 3, 0);
    StepAttacked(5, qs, 4, 1);
  }

  lemma Search5_0_2_4_1(qs: seq<nat>)
    requires qs == [0, 2, 4, 1]
    ensures Solve(5, qs) == [[0, 2, 4, 1, 3]]
  {
    StepAttacked(5, qs, 0, 0);
    StepAttacked(5, qs, 1, 3);
    StepAttacked(5, qs, 2, 1);
    SafeAt4(qs, 3);
    StepFree(5, qs, 3);
    assert qs + [3] == [0, 2, 4, 1, 3];
    StepAttacked(5, qs, 4, 0);
  }

  lemma Search5_0_3(qs: seq<nat>)
    requires qs == [0, 3]
    ensures Solve(5, qs) == [[0, 3, 1, 4, 2]]
  {
    StepAttacked(5, qs, 0, 0);
    SafeAt2(qs, 1);
    StepFree(5, qs, 1);
    Search5_0_3_1(qs + [1]);
    StepAttacked(5, qs, 2, 0);
    StepAttacked(5, qs, 3, 1);
    StepAttacked(5, qs, 4, 1);
  }

  lemma Search5_0_3_1(qs: seq<nat>)
    requires qs == [0, 3, 1]
    ensures Solve(5, qs) == [[0, 3, 1, 4, 2]]
  {
    StepAttacked(5, qs, 0, 0);
    StepAttacked(5, qs, 1, 1);
    StepAttacked(5, qs, 2, 2);
    StepAttacked(5, qs, 3, 0);
    SafeAt3(qs, 4);
    StepFree(5, qs, 4);
    Search5_0_3_1_4(qs + [4]);
  }

  lemma Search5_0_3_1_4(qs: seq<nat>)
    requires qs == [0, 3, 1, 4]
    ensures Solve(5, qs) == [[0, 3, 1, 4, 2]]
  {
    StepAttacked(5, qs, 0, 0);
    StepAttacked(5, qs, 1, 2);
    SafeAt4(qs, 2);
    StepFree(5, qs, 2);
    assert qs + [2] == [0, 3, 1, 4, 2];
    StepAttacked(5, qs, 3, 1);
    StepAttacked(5, qs, 4, 0);
  }

  lemma Search5_0_4(qs: seq<nat>)
    requires qs == [0, 4]
    ensures Solve(5, qs) == []
  {
    StepAttacked(5, qs, 0, 0);
    SafeAt2(qs, 1);
    StepFree(5, qs, 1);
    Search5_0_4_1(qs + [1]);
    StepAttacked(5, qs, 2, 0);
    StepAttacked(5, qs, 3, 1);
    StepAttacked(5, qs, 4, 1);
  }

  lemma Search5_0_4_1(qs: seq<nat>)
    requires qs == [0, 4, 1]
    ensures Solve(5, qs) == []
  {
    StepAttacked(5, qs, 0, 0);
    StepAttacked(5, qs, 1, 2);
    StepAttacked(5, qs, 2, 1);
    StepAttacked(5, qs, 3, 0);
    StepAttacked(5, qs, 4, 1);
  }

  lemma Search5_1(qs: seq<nat>)
    requires qs == [1]
    ensures Solve(5, qs) == [[1, 3, 0, 2, 4], [1, 4, 2, 0, 3]]
  {
    StepAttacked(5, qs, 0, 0);
    StepAttacked(5, qs, 1, 0);
    StepAttacked(5, qs, 2, 0);
    SafeAt1(qs, 3);
    StepFree(5, qs, 3);
    Search5_1_3(qs + [3]);
    SafeAt1(qs, 4);
    StepFree(5, qs, 4);
    Search5_1_4(qs + [4]);
  }

  lemma Search5_1_3(qs: seq<nat>)
    requires qs == [1, 3]
    ensures Solve(5, qs) == [[1, 3, 0, 2, 4]]
  {
    SafeAt2(qs, 0);
    StepFree(5, qs, 0);
    Search5_1_3_0(qs + [0]);
    StepAttacked(5, qs, 1, 0);
    StepAttacked(5, qs, 2, 1);
    StepAttacked(5, qs, 3, 0);
    StepAttacked(5, qs, 4, 1);
  }

  lemma Search5_1_3_0(qs: seq<nat>)
    requires qs == [1, 3, 0]
    ensures Solve(5, qs) == [[1, 3, 0, 2, 4]]
  {
    StepAttacked(5, qs, 0, 2);
    StepAttacked(5, qs, 1, 0);
    SafeAt3(qs, 2);
    StepFree(5, qs, 2);
    Search5_1_3_0_2(qs + [2]);
    StepAttacked(5, qs, 3, 1);
    StepAttacked(5, qs, 4, 0);
  }

  lemma Search5_1_3_0_2(qs: seq<nat>)
    requires qs == [1, 3, 0, 2]
    ensures Solve(5, qs) == [[1, 3, 0, 2, 4]]
  {
    StepAttacked(5, qs, 0, 1);
    StepAttacked(5, qs, 1, 0);
    StepAttacked(5, qs, 2, 2);
    StepAttacked(5, qs, 3, 1);
    SafeAt4(qs, 4);
    StepFree(5, qs, 4);
    assert qs + [4] == [1, 3, 0, 2, 4];
  }

  lemma Search5_1_4(qs: seq<nat>)
    requires qs == [1, 4]
    ensures Solve(5, qs) == [[1, 4, 2, 0, 3]]
  {
    SafeAt2(qs, 0);
    StepFree(5, qs, 0);
    Search5_1_4_0(qs + [0]);
    StepAttacked(5, qs, 1, 0);
    SafeAt2(qs, 2);
    StepFree(5, qs, 2);
    Search5_1_4_2(qs + [2]);
    StepAttacked(5, qs, 3, 0);
    StepAttacked(5, qs, 4, 1);
  }

  lemma Search5_1_4_0(qs: seq<nat>)
    requires qs == [1, 4, 0]
    ensures Solve(5, qs) == []
  {
    StepAttacked(5, qs, 0, 2);
    StepAttacked(5, qs, 1, 0);
    StepAttacked(5, qs, 2, 1);
    SafeAt3(qs, 3);
    StepFree(5, qs, 3);
    Search5_1_4_0_3(qs + [3]);
    StepAttacked(5, qs, 4, 0);
  }

  lemma Search5_1_4_0_3(qs: seq<nat>)
    requires qs == [1, 4, 0, 3]
    ensures Solve(5, qs) == []
  {
    StepAttacked(5, qs, 0, 2);
    StepAttacked(5, qs, 1, 0);
    StepAttacked(5, qs, 2, 2);
    StepAttacked(5, qs, 3, 3);
    StepAttacked(5, qs, 4, 1);
  }

  lemma Search5_1_4_2(qs: seq<nat>)
    requires qs == [1, 4, 2]
    ensures Solve(5, qs) == [[1, 4, 2, 0, 3]]
  {
    SafeAt3(qs, 0);
    StepFree(5, qs, 0);
    Search5_1_4_2_0(qs + [0]);
    StepAttacked(5, qs, 1, 0);
    StepAttacked(5, qs, 2, 1);
    StepAttacked(5, qs, 3, 2);
    StepAttacked(5, qs, 4, 0);
  }

  lemma Search5_1_4_2_0(qs: seq<nat>)
    requires qs == [1, 4, 2, 0]
    ensures Solve(5, qs) == [[1, 4, 2, 0, 3]]
  {
    StepAttacked(5, qs, 0, 2);
    StepAttacked(5, qs, 1, 0);
    StepAttacked(5, qs, 2, 2);
    SafeAt4(qs, 3);
    StepFree(5, qs, 3);
    assert qs + [3] == [1, 4, 2, 0, 3];
    StepAttacked(5, qs, 4, 1);
  }

  lemma Search5_2(qs: seq<nat>)
    requires qs == [2]
    ensures Solve(5, qs) == [[2, 0, 3, 1, 4], [2, 4, 1, 3, 0]]
  {
    SafeAt1(qs, 0);
    StepFree(5, qs, 0);
    Search5_2_0(qs + [0]);
    StepAttacked(5, qs, 1, 0);
    StepAttacked(5, qs, 2, 0);
    StepAttacked(5, qs, 3, 0);
    SafeAt1(qs, 4);
    StepFree(5, qs, 4);
    Search5_2_4(qs + [4]);
  }

  lemma Search5_2_0(qs: seq<nat>)
    requires qs == [2, 0]
    ensures Solve(5, qs) == [[2, 0, 3, 1, 4]]
  {
    StepAttacked(5, qs, 0, 0);
    StepAttacked(5, qs, 1, 1);
    StepAttacked(5, qs, 2, 0);
    SafeAt2(qs, 3);
    StepFree(5, qs, 3);
    Search5_2_0_3(qs + [3]);
    StepAttacked(5, qs, 4, 0);
  }

  lemma Search5_2_0_3(qs: seq<nat>)
    requires qs == [2, 0, 3]
    ensures Solve(5, qs) == [[2, 0, 3, 1, 4]]
  {
    StepAttacked(5, qs, 0, 1);
    SafeAt3(qs, 1);
    StepFree(5, qs, 1);
    Search5_2_0_3_1(qs + [1]);
    StepAttacked(5, qs, 2, 0);
    StepAttacked(5, qs, 3, 2);
    StepAttacked(5, qs, 4, 2);
  }

  lemma Search5_2_0_3_1(qs: seq<nat>)
    requires qs == [2, 0, 3, 1]
    ensures Solve(5, qs) == [[2, 0, 3, 1, 4]]
  {
    StepAttacked(5, qs, 0, 1);
    StepAttacked(5, qs, 1, 2);
    StepAttacked(5, qs, 2, 0);
    StepAttacked(5, qs, 3, 1);
    SafeAt4(qs, 4);
    StepFree(5, qs, 4);
    assert qs + [4] == [2, 0, 3, 1, 4];
  }

  lemma Search5_2_4(qs: seq<nat>)
    requires qs == [2, 4]
    ensures Solve(5, qs) == [[2, 4, 1, 3, 0]]
  {
    StepAttacked(5, qs, 0, 0);
    SafeAt2(qs, 1);
    StepFree(5, qs, 1);
    Search5_2_4_1(qs + [1]);
    StepAttacked(5, qs, 2, 0);
    StepAttacked(5, qs, 3, 1);
    StepAttacked(5, qs, 4, 0);
  }

  lemma Search5_2_4_1(qs: seq<nat>)
    requires qs == [2, 4, 1]
    ensures Solve(5, qs) == [[2, 4, 1, 3, 0]]
  {
    StepAttacked(5, qs, 0, 2);
    StepAttacked(5, qs, 1, 2);
    StepAttacked(5, qs, 2, 0);
    SafeAt3(qs, 3);
    StepFree(5, qs, 3);
    Search5_2_4_1_3(qs + [3]);
    StepAttacked(5, qs, 4, 1);
  }

  lemma Search5_2_4_1_3(qs: seq<nat>)
    requires qs == [2, 4, 1, 3]
    ensures Solve(5, qs) == [[2, 4, 1, 3, 0]]
  {
    SafeAt4(qs, 0);
    StepFree(5, qs, 0);
    assert qs + [0] == [2, 4, 1, 3, 0];
    StepAttacked(5, qs, 1, 1);
    StepAttacked(5, qs, 2, 0);
    StepAttacked(5, qs, 3, 2);
    StepAttacked(5, qs, 4, 1);
  }

  lemma Search5_3(qs: seq<nat>)
    requires qs == [3]
    ensures Solve(5, qs) == [[3, 0, 2, 4, 1], [3, 1, 4, 2, 0]]
  {
    SafeAt1(qs, 0);
    StepFree(5, qs, 0);
    Search5_3_0(qs + [0]);
    SafeAt1(qs, 1);
    StepFree(5, qs, 1);
    Search5_3_1(qs + [1]);
    StepAttacked(5, qs, 2, 0);
    StepAttacked(5, qs, 3, 0);
    StepAttacked(5, qs, 4, 0);
  }

  lemma Search5_3_0(qs: seq<nat>)
    requires qs == [3, 0]
    ensures Solve(5, qs) == [[3, 0, 2, 4, 1]]
  {
    StepAttacked(5, qs, 0, 1);
    StepAttacked(5, qs, 1, 0);
    SafeAt2(qs, 2);
    StepFree(5, qs, 2);
    Search5_3_0_2(qs + [2]);
    StepAttacked(5, qs, 3, 0);
    SafeAt2(qs, 4);
    StepFree(5, qs, 4);
    Search5_3_0_4(qs + [4]);
  }

  lemma Search5_3_0_2(qs: seq<nat>)
    requires qs == [3, 0, 2]
    ensures Solve(5, qs) == [[3, 0, 2, 4, 1]]
  {
    StepAttacked(5, qs, 0, 0);
    StepAttacked(5, qs, 1, 2);
    StepAttacked(5, qs, 2, 1);
    StepAttacked(5, qs, 3, 0);
    SafeAt3(qs, 4);
    StepFree(5, qs, 4);
    Search5_3_0_2_4(qs + [4]);
  }

  lemma Search5_3_0_2_4(qs: seq<nat>)
    requires qs == [3, 0, 2, 4]
    ensures Solve(5, qs) == [[3, 0, 2, 4, 1]]
  {
    StepAttacked(5, qs, 0, 1);
    SafeAt4(qs, 1);
    StepFree(5, qs, 1);
    assert qs + [1] == [3, 0, 2, 4, 1];
    StepAttacked(5, qs, 2, 2);
    StepAttacked(5, qs, 3, 0);
    StepAttacked(5, qs, 4, 2);
  }

  lemma Search5_3_0_4(qs: seq<nat>)
    requires qs == [3, 0, 4]
    ensures Solve(5, qs) == []
  {
    StepAttacked(5, qs, 0, 0);
    SafeAt3(qs, 1);
    StepFree(5, qs, 1);
    Search5_3_0_4_1(qs + [1]);
    StepAttacked(5, qs, 2, 1);
    StepAttacked(5, qs, 3, 0);
    StepAttacked(5, qs, 4, 2);
  }

  lemma Search5_3_0_4_1(qs: seq<nat>)
    requires qs == [3, 0, 4, 1]
    ensures Solve(5, qs) == []
  {
    StepAttacked(5, qs, 0, 1);
    StepAttacked(5, qs, 1, 3);
    StepAttacked(5, qs, 2, 2);
    StepAttacked(5, qs, 3, 0);
    StepAttacked(5, qs, 4, 2);
  }

  lemma Search5_3_1(qs: seq<nat>)
    requires qs == [3, 1]
    ensures Solve(5, qs) == [[3, 1, 4, 2, 0]]
  {
    StepAttacked(5, qs, 0, 1);
    StepAttacked(5, qs, 1, 0);
    StepAttacked(5, qs, 2, 1);
    StepAttacked(5, qs, 3, 0);
    SafeAt2(qs, 4);
    StepFree(5, qs, 4);
    Search5_3_1_4(qs + [4]);
  }

  lemma Search5_3_1_4(qs: seq<nat>)
    requires qs == [3, 1, 4]
    ensures Solve(5, qs) == [[3, 1, 4, 2, 0]]
  {
    StepAttacked(5, qs, 0, 0);
    StepAttacked(5, qs, 1, 1);
    SafeAt3(qs, 2);
    StepFree(5, qs, 2);
    Search5_3_1_4_2(qs + [2]);
    StepAttacked(5, qs, 3, 0);
    StepAttacked(5, qs, 4, 2);
  }

  lemma Search5_3_1_4_2(qs: seq<nat>)
    requires qs == [3, 1, 4, 2]
    ensures Solve(5, qs) == [[3, 1, 4, 2, 0]]
  {
    SafeAt4(qs, 0);
    StepFree(5, qs, 0);
    assert qs + [0] == [3, 1, 4, 2, 0];
    StepAttacked(5, qs, 1, 1);
    StepAttacked(5, qs, 2, 2);
    StepAttacked(5, qs, 3, 0);
    StepAttacked(5, qs, 4, 1);
  }

  lemma Search5_4(qs: seq<nat>)
    requires qs == [4]
    ensures Solve(5, qs) == [[4, 1, 3, 0, 2], [4, 2, 0, 3, 1]]
  {
    SafeAt1(qs, 0);
    StepFree(5, qs, 0);
    Search5_4_0(qs + [0]);
    SafeAt1(qs, 1);
    StepFree(5, qs, 1);
    Search5_4_1(qs + [1]);
    SafeAt1(qs, 2);
    StepFree(5, qs, 2);
    Search5_4_2(qs + [2]);
    StepAttacked(5, qs, 3, 0);
    StepAttacked(5, qs, 4, 0);
  }

  lemma Search5_4_0(qs: seq<nat>)
    requires qs == [4, 0]
    ensures Solve(5, qs) == []
  {
    StepAttacked(5, qs, 0, 1);
    StepAttacked(5, qs, 1, 1);
    StepAttacked(5, qs, 2, 0);
    SafeAt2(qs, 3);
    StepFree(5, qs, 3);
    Search5_4_0_3(qs + [3]);
    StepAttacked(5, qs, 4, 0);
  }

  lemma Search5_4_0_3(qs: seq<nat>)
    requires qs == [4, 0, 3]
    ensures Solve(5, qs) == []
  {
    StepAttacked(5, qs, 0, 1);
    StepAttacked(5, qs, 1, 0);
    StepAttacked(5, qs, 2, 1);
    StepAttacked(5, qs, 3, 2);
    StepAttacked(5, qs, 4, 0);
  }

  lemma Search5_4_1(qs: seq<nat>)
    requires qs == [4, 1]
    ensures Solve(5, qs) == [[4, 1, 3, 0, 2]]
  {
    StepAttacked(5, qs, 0, 1);
    StepAttacked(5, qs, 1, 1);
    StepAttacked(5, qs, 2, 0);
    SafeAt2(qs, 3);
    StepFree(5, qs, 3);
    Search5_4_1_3(qs + [3]);
    StepAttacked(5, qs, 4, 0);
  }

  lemma Search5_4_1_3(qs: seq<nat>)
    requires qs == [4, 1, 3]
    ensures Solve(5, qs) == [[4, 1, 3, 0, 2]]
  {
    SafeAt3(qs, 0);
    StepFree(5, qs, 0);
    Search5_4_1_3_0(qs + [0]);
    StepAttacked(5, qs, 1, 0);
    StepAttacked(5, qs, 2, 2);
    StepAttacked(5, qs, 3, 1);
    StepAttacked(5, qs, 4, 0);
  }

  lemma Search5_4_1_3_0(qs: seq<nat>)
    requires qs == [4, 1, 3, 0]
    ensures Solve(5, qs) == [[4, 1, 3, 0, 2]]
  {
    StepAttacked(5, qs, 0, 0);
    StepAttacked(5, qs, 1, 1);
    SafeAt4(qs, 2);
    StepFree(5, qs, 2);
    assert qs + [2] == [4, 1, 3, 0, 2];
    StepAttacked(5, qs, 3, 2);
    StepAttacked(5, qs, 4, 0);
  }

  lemma Search5_4_2(qs: seq<nat>)
    requires qs == [4, 2]
    ensures Solve(5, qs) == [[4, 2, 0, 3, 1]]
  {
    SafeAt2(qs, 0);
    StepFree(5, qs, 0);
    Search5_4_2_0(qs + [0]);
    StepAttacked(5, qs, 1, 1);
    StepAttacked(5, qs, 2, 0);
    StepAttacked(5, qs, 3, 1);
    StepAttacked(5, qs, 4, 0);
  }

  lemma Search5_4_2_0(qs: seq<nat>)
    requires qs == [4, 2, 0]
    ensures Solve(5, qs) == [[4, 2, 0, 3, 1]]
  {
    StepAttacked(5, qs, 0, 1);
    StepAttacked(5, qs, 1, 0);
    StepAttacked(5, qs, 2, 1);
    SafeAt3(qs, 3);
    StepFree(5, qs, 3);
    Search5_4_2_0_3(qs + [3]);
    StepAttacked(5, qs, 4, 0);
  }

  lemma Search5_4_2_0_3(qs: seq<nat>)
    requires qs == [4, 2, 0, 3]
    ensures Solve(5, qs) == [[4, 2, 0, 3, 1]]
  {
    StepAttacked(5, qs, 0, 0);
    SafeAt4(qs, 1);
    StepFree(5, qs, 1);
    assert qs + [1] == [4, 2, 0, 3, 1];
    StepAttacked(5, qs, 2, 1);
    StepAttacked(5, qs, 3, 3);
    StepAttacked(5, qs, 4, 0);
  }

  lemma Search6(qs: seq<nat>)
    requires qs == []
    ensures Solve(6, qs) == [[1, 3, 5, 0, 2, 4], [2, 5, 1, 4, 0, 3], [3, 0, 4, 1, 5, 2], [4, 2, 0, 5, 3, 1]]
  {
    StepFree(6, qs, 0);
    Search6_0(qs + [0]);
    StepFree(6, qs, 1);
    Search6_1(qs + [1]);
    StepFree(6, qs, 2);
    Search6_2(qs + [2]);
    StepFree(6, qs, 3);
    Search6_3(qs + [3]);
    StepFree(6, qs, 4);
    Search6_4(qs + [4]);
    StepFree(6, qs, 5);
    Search6_5(qs + [5]);
  }

  lemma Search6_0(qs: seq<nat>)
    requires qs == [0]
    ensures Solve(6, qs) == []
  {
    StepAttacked(6, qs, 0, 0);
    StepAttacked(6, qs, 1, 0);
    SafeAt1(qs, 2);
    StepFree(6, qs, 2);
    Search6_0_2(qs + [2]);
    SafeAt1(qs, 3);
    StepFree(6, qs, 3);
    Search6_0_3(qs + [3]);
    SafeAt1(qs, 4);
    StepFree(6, qs, 4);
    Search6_0_4(qs + [4]);
    SafeAt1(qs, 5);
    StepFree(6, qs, 5);
    Search6_0_5(qs + [5]);
  }

  lemma Search6_0_2(qs: seq<nat>)
    requires qs == [0, 2]
    ensures Solve(6, qs) == []
  {
    StepAttacked(6, qs, 0, 0);
    StepAttacked(6, qs, 1, 1);
    StepAttacked(6, qs, 2, 0);
    StepAttacked(6, qs, 3, 1);
    SafeAt2(qs, 4);
    StepFree(6, qs, 4);
    Search6_0_2_4(qs + [4]);
    SafeAt2(qs, 5);
    StepFree(6, qs, 5);
    Search6_0_2_5(qs + [5]);
  }

  lemma Search6_0_2_4(qs: seq<nat>)
    requires qs == [0, 2, 4]
    ensures Solve(6, qs) == []
  {
    StepAttacked(6, qs, 0, 0);
    SafeAt3(qs, 1);
    StepFree(6, qs, 1);
    Search6_0_2_4_1(qs + [1]);
    StepAttacked(6, qs, 2, 1);
    StepAttacked(6, qs, 3, 0);
    StepAttacked(6, qs, 4, 1);
    StepAttacked(6, qs, 5, 2);
  }

  lemma Search6_0_2_4_1(qs: seq<nat>)
    requires qs == [0, 2, 4, 1]
    ensures Solve(6, qs) == []
  {
    StepAttacked(6, qs, 0, 0);
    StepAttacked(6, qs, 1, 3);
    StepAttacked(6, qs, 2, 1);
    SafeAt4(qs, 3);
    StepFree(6, qs, 3);
    Search6_0_2_4_1_3(qs + [3]);
    StepAttacked(6, qs, 4, 0);
    StepAttacked(6, qs, 5, 1);
  }

  lemma Search6_0_2_4_1_3(qs: seq<nat>)
    requires qs == [0, 2, 4, 1, 3]
    ensures Solve(6, qs) == []
  {
    StepAttacked(6, qs, 0, 0);
    StepAttacked(6, qs, 1, 2);
    StepAttacked(6, qs, 2, 1);
    StepAttacked(6, qs, 3, 3);
    StepAttacked(6, qs, 4, 2);
    StepAttacked(6, qs, 5, 0);
  }

  lemma Search6_0_2_5(qs: seq<nat>)
    requires qs == [0, 2, 5]
    ensures Solve(6, qs) == []
  {
    StepAttacked(6, qs, 0, 0);
    SafeAt3(qs, 1);
    StepFree(6, qs, 1);
    Search6_0_2_5_1(qs + [1]);
    StepAttacked(6, qs, 2, 1);
    StepAttacked(6, qs, 3, 0);
    StepAttacked(6, qs, 4, 1);
    StepAttacked(6, qs, 5, 2);
  }

  lemma Search6_0_2_5_1(qs: seq<nat>)
    requires qs == [0, 2, 5, 1]
    ensures Solve(6, qs) == []
  {
    StepAttacked(6, qs, 0, 0);
    StepAttacked(6, qs, 1, 3);
    StepAttacked(6, qs, 2, 1);
    StepAttacked(6, qs, 3, 2);
    StepAttacked(6, qs, 4, 0);
    StepAttacked(6, qs, 5, 1);
  }

  lemma Search6_0_3(qs: seq<nat>)
    requires qs == [0, 3]
    ensures Solve(6, qs) == []
  {
    StepAttacked(6, qs, 0, 0);
    SafeAt2(qs, 1);
    StepFree(6, qs, 1);
    Search6_0_3_1(qs + [1]);
    StepAttacked(6, qs, 2, 0);
    StepAttacked(6, qs, 3, 1);
    StepAttacked(6, qs, 4, 1);
    SafeAt2(qs, 5);
    StepFree(6, qs, 5);
    Search6_0_3_5(qs + [5]);
  }

  lemma Search6_0_3_1(qs: seq<nat>)
    requires qs == [0, 3, 1]
    ensures Solve(6, qs) == []
  {
    StepAttacked(6, qs, 0, 0);
    StepAttacked(6, qs, 1, 1);
    StepAttacked(6, qs, 2, 2);
    StepAttacked(6, qs, 3, 0);
    SafeAt3(qs, 4);
    StepFree(6, qs, 4);
    Search6_0_3_1_4(qs + [4]);
    StepAttacked(6, qs, 5, 1);
  }

  lemma Search6_0_3_1_4(qs: seq<nat>)
    requires qs == [0, 3, 1, 4]
    ensures Solve(6, qs) == []
  {
    StepAttacked(6, qs, 0, 0);
    StepAttacked(6, qs, 1, 2);
    SafeAt4(qs, 2);
    StepFree(6, qs, 2);
    Search6_0_3_1_4_2(qs + [2]);
    StepAttacked(6, qs, 3, 1);
    StepAttacked(6, qs, 4, 0);
    StepAttacked(6, qs, 5, 3);
  }

  lemma Search6_0_3_1_4_2(qs: seq<nat>)
    requires qs == [0, 3, 1, 4, 2]
    ensures Solve(6, qs) == []
  {
    StepAttacked(6, qs, 0, 0);
    StepAttacked(6, qs, 1, 2);
    StepAttacked(6, qs, 2, 3);
    StepAttacked(6, qs, 3, 1);
    StepAttacked(6, qs, 4, 2);
    StepAttacked(6, qs, 5, 0);
  }

  lemma Search6_0_3_5(qs: seq<nat>)
    requires qs == [0, 3, 5]
    ensures Solve(6, qs) == []
  {
    StepAttacked(6, qs, 0, 0);
    StepAttacked(6, qs, 1, 1);
    SafeAt3(qs, 2);
    StepFree(6, qs, 2);
    Search6_0_3_5_2(qs + [2]);
    StepAttacked(6, qs, 3, 0);
    StepAttacked(6, qs, 4, 2);
    StepAttacked(6, qs, 5, 1);
  }

  lemma Search6_0_3_5_2(qs: seq<nat>)
    requires qs == [0, 3, 5, 2]
    ensures Solve(6, qs) == []
  {
    StepAttacked(6, qs, 0, 0);
    StepAttacked(6, qs, 1, 3);
    StepAttacked(6, qs, 2, 3);
    StepAttacked(6, qs, 3, 1);
    StepAttacked(6, qs, 4, 0);
    StepAttacked(6, qs, 5, 2);
  }

  lemma Search6_0_4(qs: seq<nat>)
    requires qs == [0, 4]
    ensures Solve(6, qs) == []
  {
    StepAttacked(6, qs, 0, 0);
    SafeAt2(qs, 1);
    StepFree(6, qs, 1);
    Search6_0_4_1(qs + [1]);
    StepAttacked(6, qs, 2, 0);
    StepAttacked(6, qs, 3, 1);
    StepAttacked(6, qs, 4, 1);
    StepAttacked(6, qs, 5, 1);
  }

  lemma Search6_0_4_1(qs: seq<nat>)
    requires qs == [0, 4, 1]
    ensures Solve(6, qs) == []
  {
    StepAttacked(6, qs, 0, 0);
    StepAttacked(6, qs, 1, 2);
    StepAttacked(6, qs, 2, 1);
    StepAttacked(6, qs, 3, 0);
    StepAttacked(6, qs, 4, 1);
    SafeAt3(qs, 5);
    StepFree(6, qs, 5);
    Search6_0_4_1_5(qs + [5]);
  }

  lemma Search6_0_4_1_5(qs: seq<nat>)
    requires qs == [0, 4, 1, 5]
    ensures Solve(6, qs) == []
  {
    StepAttacked(6, qs, 0, 0);
    StepAttacked(6, qs, 1, 1);
    SafeAt4(qs, 2);
    StepFree(6, qs, 2);
    Search6_0_4_1_5_2(qs + [2]);
    StepAttacked(6, qs, 3, 2);
    StepAttacked(6, qs, 4, 0);
    StepAttacked(6, qs, 5, 3);
  }

  lemma Search6_0_4_1_5_2(qs: seq<nat>)
    requires qs == [0, 4, 1, 5, 2]
    ensures Solve(6, qs) == []
  {
    StepAttacked(6, qs, 0, 0);
    StepAttacked(6, qs, 1, 2);
    StepAttacked(6, qs, 2, 4);
    StepAttacked(6, qs, 3, 3);
    StepAttacked(6, qs, 4, 1);
    StepAttacked(6, qs, 5, 0);
  }

  lemma Search6_0_5(qs: seq<nat>)
    requires qs == [0, 5]
    ensures Solve(6, qs) == []
  {
    StepAttacked(6, qs, 0, 0);
    SafeAt2(qs, 1);
    StepFree(6, qs, 1);
    Search6_0_5_1(qs + [1]);
    StepAttacked(6, qs, 2, 0);
    SafeAt2(qs, 3);
    StepFree(6, qs, 3);
    Search6_0_5_3(qs + [3]);
    StepAttacked(6, qs, 4, 1);
    StepAttacked(6, qs, 5, 1);
  }

  lemma Search6_0_5_1(qs: seq<nat>)
    requires qs == [0, 5, 1]
    ensures Solve(6, qs) == []
  {
    StepAttacked(6, qs, 0, 0);
    StepAttacked(6, qs, 1, 2);
    StepAttacked(6, qs, 2, 2);
    StepAttacked(6, qs, 3, 0);
    SafeAt3(qs, 4);
    StepFree(6, qs, 4);
    Search6_0_5_1_4(qs + [4]);
    StepAttacked(6, qs, 5, 1);
  }

  lemma Search6_0_5_1_4(qs: seq<nat>)
    requires qs == [0, 5, 1, 4]
    ensures Solve(6, qs) == []
  {
    StepAttacked(6, qs, 0, 0);
    StepAttacked(6, qs, 1, 2);
    StepAttacked(6, qs, 2, 1);
    StepAttacked(6, qs, 3, 2);
    StepAttacked(6, qs, 4, 0);
    StepAttacked(6, qs, 5, 1);
  }

  lemma Search6_0_5_3(qs: seq<nat>)
    requires qs == [0, 5, 3]
    ensures Solve(6, qs) == []
  {
    StepAttacked(6, qs, 0, 0);
    SafeAt3(qs, 1);
    StepFree(6, qs, 1);
    Search6_0_5_3_1(qs + [1]);
    StepAttacked(6, qs, 2, 2);
    StepAttacked(6, qs, 3, 0);
    StepAttacked(6, qs, 4, 2);
    StepAttacked(6, qs, 5, 1);
  }

  lemma Search6_0_5_3_1(qs: seq<nat>)
    requires qs == [0, 5, 3, 1]
    ensures Solve(6, qs) == []
  {
    StepAttacked(6, qs, 0, 0);
    StepAttacked(6, qs, 1, 2);
    StepAttacked(6, qs, 2, 1);
    StepAttacked(6, qs, 3, 2);
    StepAttacked(6, qs, 4, 0);
    StepAttacked(6, qs, 5, 1);
  }

  lemma Search6_1(qs: seq<nat>)
    requires qs == [1]
    ensures Solve(6, qs) == [[1, 3, 5, 0, 2, 4]]
  {
    StepAttacked(6, qs, 0, 0);
    StepAttacked(6, qs, 1, 0);
    StepAttacked(6, qs, 2, 0);
    SafeAt1(qs, 3);
    StepFree(6, qs, 3);
    Search6_1_3(qs + [3]);
    SafeAt1(qs, 4);
    StepFree(6, qs, 4);
    Search6_1_4(qs + [4]);
    SafeAt1(qs, 5);
    StepFree(6, qs, 5);
    Search6_1_5(qs + [5]);
  }

  lemma Search6_1_3(qs: seq<nat>)
    requires qs == [1, 3]
    ensures Solve(6, qs) == [[1, 3, 5, 0, 2, 4]]
  {
    SafeAt2(qs, 0);
    StepFree(6, qs, 0);
    Search6_1_3_0(qs + [0]);
    StepAttacked(6, qs, 1, 0);
    StepAttacked(6, qs, 2, 1);
    StepAttacked(6, qs, 3, 0);
    StepAttacked(6, qs, 4, 1);
    SafeAt2(qs, 5);
    StepFree(6, qs, 5);
    Search6_1_3_5(qs + [5]);
  }

  lemma Search6_1_3_0(qs: seq<nat>)
    requires qs == [1, 3, 0]
    ensures Solve(6, qs) == []
  {
    StepAttacked(6, qs, 0, 2);
    StepAttacked(6, qs, 1, 0);
    SafeAt3(qs, 2);
    StepFree(6, qs, 2);
    Search6_1_3_0_2(qs + [2]);
    StepAttacked(6, qs, 3, 1);
    StepAttacked(6, qs, 4, 0);
    StepAttacked(6, qs, 5, 1);
  }

  lemma Search6_1_3_0_2(qs: seq<nat>)
    requires qs == [1, 3, 0, 2]
    ensures Solve(6, qs) == []
  {
    StepAttacked(6, qs, 0, 1);
    StepAttacked(6, qs, 1, 0);
    StepAttacked(6, qs, 2, 2);
    StepAttacked(6, qs, 3, 1);
    SafeAt4(qs, 4);
    StepFree(6, qs, 4);
    Search6_1_3_0_2_4(qs + [4]);
    StepAttacked(6, qs, 5, 0);
  }

  lemma Search6_1_3_0_2_4(qs: seq<nat>)
    requires qs == [1, 3, 0, 2, 4]
    ensures Solve(6, qs) == []
  {
    StepAttacked(6, qs, 0, 2);
    StepAttacked(6, qs, 1, 0);
    StepAttacked(6, qs, 2, 3);
    StepAttacked(6, qs, 3, 1);
    StepAttacked(6, qs, 4, 3);
    StepAttacked(6, qs, 5, 4);
  }

  lemma Search6_1_3_5(qs: seq<nat>)
    requires qs == [1, 3, 5]
    ensures Solve(6, qs) == [[1, 3, 5, 0, 2, 4]]
  {
    SafeAt3(qs, 0);
    StepFree(6, qs, 0);
    Search6_1_3_5_0(qs + [0]);
    StepAttacked(6, qs, 1, 0);
    SafeAt3(qs, 2);
    StepFree(6, qs, 2);
    Search6_1_3_5_2(qs + [2]);
    StepAttacked(6, qs, 3, 1);
    StepAttacked(6, qs, 4, 0);
    StepAttacked(6, qs, 5, 1);
  }

  lemma Search6_1_3_5_0(qs: seq<nat>)
    requires qs == [1, 3, 5, 0]
    ensures Solve(6, qs) == [[1, 3, 5, 0, 2, 4]]
  {
    StepAttacked(6, qs, 0, 1);
    StepAttacked(6, qs, 1, 0);
    SafeAt4(qs, 2);
    StepFree(6, qs, 2);
    Search6_1_3_5_0_2(qs + [2]);
    StepAttacked(6, qs, 3, 1);
    SafeAt4(qs, 4);
    StepFree(6, qs, 4);
    Search6_1_3_5_0_4(qs + [4]);
    StepAttacked(6, qs, 5, 0);
  }

  lemma Search6_1_3_5_0_2(qs: seq<nat>)
    requires qs == [1, 3, 5, 0, 2]
    ensures Solve(6, qs) == [[1, 3, 5, 0, 2, 4]]
  {
    StepAttacked(6, qs, 0, 3);
    StepAttacked(6, qs, 1, 0);
    StepAttacked(6, qs, 2, 2);
    StepAttacked(6, qs, 3, 1);
    SafeAt5(qs, 4);
    StepFree(6, qs, 4);
    assert qs + [4] == [1, 3, 5, 0, 2, 4];
    StepAttacked(6, qs, 5, 2);
  }

  lemma Search6_1_3_5_0_4(qs: seq<nat>)
    requires qs == [1, 3, 5, 0, 4]
    ensures Solve(6, qs) == []
  {
    StepAttacked(6, qs, 0, 3);
    StepAttacked(6, qs, 1, 0);
    StepAttacked(6, qs, 2, 2);
    StepAttacked(6, qs, 3, 1);
    StepAttacked(6, qs, 4, 4);
    StepAttacked(6, qs, 5, 2);
  }

  lemma Search6_1_3_5_2(qs: seq<nat>)
    requires qs == [1, 3, 5, 2]
    ensures Solve(6, qs) == []
  {
    StepAttacked(6, qs, 0, 1);
    StepAttacked(6, qs, 1, 0);
    StepAttacked(6, qs, 2, 3);
    StepAttacked(6, qs, 3, 1);
    SafeAt4(qs, 4);
    StepFree(6, qs, 4);
    Search6_1_3_5_2_4(qs + [4]);
    StepAttacked(6, qs, 5, 0);
  }

  lemma Search6_1_3_5_2_4(qs: seq<nat>)
    requires qs == [1, 3, 5, 2, 4]
    ensures Solve(6, qs) == []
  {
    StepAttacked(6, qs, 0, 3);
    StepAttacked(6, qs, 1, 0);
    StepAttacked(6, qs, 2, 2);
    StepAttacked(6, qs, 3, 1);
    StepAttacked(6, qs, 4, 3);
    StepAttacked(6, qs, 5, 2);
  }

  lemma Search6_1_4(qs: seq<nat>)
    requires qs == [1, 4]
    ensures Solve(6, qs) == []
  {
    SafeAt2(qs, 0);
    StepFree(6, qs, 0);
    Search6_1_4_0(qs + [0]);
    StepAttacked(6, qs, 1, 0);
    SafeAt2(qs, 2);
    StepFree(6, qs, 2);
    Search6_1_4_2(qs + [2]);
    StepAttacked(6, qs, 3, 0);
    StepAttacked(6, qs, 4, 1);
    StepAttacked(6, qs, 5, 1);
  }

  lemma Search6_1_4_0(qs: seq<nat>)
    requires qs == [1, 4, 0]
    ensures Solve(6, qs) == []
  {
    StepAttacked(6, qs, 0, 2);
    StepAttacked(6, qs, 1, 0);
    StepAttacked(6, qs, 2, 1);
    SafeAt3(qs, 3);
    StepFree(6, qs, 3);
    Search6_1_4_0_3(qs + [3]);
    StepAttacked(6, qs, 4, 0);
    SafeAt3(qs, 5);
    StepFree(6, qs, 5);
    Search6_1_4_0_5(qs + [5]);
  }

  lemma Search6_1_4_0_3(qs: seq<nat>)
    requires qs == [1, 4, 0, 3]
    ensures Solve(6, qs) == []
  {
    StepAttacked(6, qs, 0, 2);
    StepAttacked(6, qs, 1, 0);
    StepAttacked(6, qs, 2, 2);
    StepAttacked(6, qs, 3, 3);
    StepAttacked(6, qs, 4, 1);
    StepAttacked(6, qs, 5, 0);
  }

  lemma Search6_1_4_0_5(qs: seq<nat>)
    requires qs == [1, 4, 0, 5]
    ensures Solve(6, qs) == []
  {
    StepAttacked(6, qs, 0, 2);
    StepAttacked(6, qs, 1, 0);
    StepAttacked(6, qs, 2, 2);
    SafeAt4(qs, 3);
    StepFree(6, qs, 3);
    Search6_1_4_0_5_3(qs + [3]);
    StepAttacked(6, qs, 4, 1);
    StepAttacked(6, qs, 5, 0);
  }

  lemma Search6_1_4_0_5_3(qs: seq<nat>)
    requires qs == [1, 4, 0, 5, 3]
    ensures Solve(6, qs) == []
  {
    StepAttacked(6, qs, 0, 1);
    StepAttacked(6, qs, 1, 0);
    StepAttacked(6, qs, 2, 4);
    StepAttacked(6, qs, 3, 2);
    StepAttacked(6, qs, 4, 1);
    StepAttacked(6, qs, 5, 3);
  }

  lemma Search6_1_4_2(qs: seq<nat>)
    requires qs == [1, 4, 2]
    ensures Solve(6, qs) == []
  {
    SafeAt3(qs, 0);
    StepFree(6, qs, 0);
    Search6_1_4_2_0(qs + [0]);
    StepAttacked(6, qs, 1, 0);
    StepAttacked(6, qs, 2, 1);
    StepAttacked(6, qs, 3, 2);
    StepAttacked(6, qs, 4, 0);
    SafeAt3(qs, 5);
    StepFree(6, qs, 5);
    Search6_1_4_2_5(qs + [5]);
  }

  lemma Search6_1_4_2_0(qs: seq<nat>)
    requires qs == [1, 4, 2, 0]
    ensures Solve(6, qs) == []
  {
    StepAttacked(6, qs, 0, 2);
    StepAttacked(6, qs, 1, 0);
    StepAttacked(6, qs, 2, 2);
    SafeAt4(qs, 3);
    StepFree(6, qs, 3);
    Search6_1_4_2_0_3(qs + [3]);
    StepAttacked(6, qs, 4, 1);
    StepAttacked(6, qs, 5, 0);
  }

  lemma Search6_1_4_2_0_3(qs: seq<nat>)
    requires qs == [1, 4, 2, 0, 3]
    ensures Solve(6, qs) == []
  {
    StepAttacked(6, qs, 0, 1);
    StepAttacked(6, qs, 1, 0);
    StepAttacked(6, qs, 2, 2);
    StepAttacked(6, qs, 3, 4);
    StepAttacked(6, qs, 4, 1);
    StepAttacked(6, qs, 5, 2);
  }

  lemma Search6_1_4_2_5(qs: seq<nat>)
    requires qs == [1, 4, 2, 5]
    ensures Solve(6, qs) == []
  {
    StepAttacked(6, qs, 0, 2);
    StepAttacked(6, qs, 1, 0);
    StepAttacked(6, qs, 2, 2);
    SafeAt4(qs, 3);
    StepFree(6, qs, 3);
    Search6_1_4_2_5_3(qs + [3]);
    StepAttacked(6, qs, 4, 1);
    StepAttacked(6, qs, 5, 0);
  }

  lemma Search6_1_4_2_5_3(qs: seq<nat>)
    requires qs == [1, 4, 2, 5, 3]
    ensures Solve(6, qs) == []
  {
    StepAttacked(6, qs, 0, 1);
    StepAttacked(6, qs, 1, 0);
    StepAttacked(6, qs, 2, 2);
    StepAttacked(6, qs, 3, 3);
    StepAttacked(6, qs, 4, 1);
    StepAttacked(6, qs, 5, 2);
  }

  lemma Search6_1_5(qs: seq<nat>)
    requires qs == [1, 5]
    ensures Solve(6, qs) == []
  {
    SafeAt2(qs, 0);
    StepFree(6, qs, 0);
    Search6_1_5_0(qs + [0]);
    StepAttacked(6, qs, 1, 0);
    SafeAt2(qs, 2);
    StepFree(6, qs, 2);
    Search6_1_5_2(qs + [2]);
    StepAttacked(6, qs, 3, 0);
    StepAttacked(6, qs, 4, 1);
    StepAttacked(6, qs, 5, 1);
  }

  lemma Search6_1_5_0(qs: seq<nat>)
    requires qs == [1, 5, 0]
    ensures Solve(6, qs) == []
  {
    StepAttacked(6, qs, 0, 2);
    StepAttacked(6, qs, 1, 0);
    SafeAt3(qs, 2);
    StepFree(6, qs, 2);
    Search6_1_5_0_2(qs + [2]);
    StepAttacked(6, qs, 3, 1);
    StepAttacked(6, qs, 4, 0);
    StepAttacked(6, qs, 5, 1);
  }

  lemma Search6_1_5_0_2(qs: seq<nat>)
    requires qs == [1, 5, 0, 2]
    ensures Solve(6, qs) == []
  {
    StepAttacked(6, qs, 0, 2);
    StepAttacked(6, qs, 1, 0);
    StepAttacked(6, qs, 2, 1);
    StepAttacked(6, qs, 3, 3);
    SafeAt4(qs, 4);
    StepFree(6, qs, 4);
    Search6_1_5_0_2_4(qs + [4]);
    StepAttacked(6, qs, 5, 0);
  }

  lemma Search6_1_5_0_2_4(qs: seq<nat>)
    requires qs == [1, 5, 0, 2, 4]
    ensures Solve(6, qs) == []
  {
    StepAttacked(6, qs, 0, 2);
    StepAttacked(6, qs, 1, 0);
    StepAttacked(6, qs, 2, 3);
    StepAttacked(6, qs, 3, 2);
    StepAttacked(6, qs, 4, 3);
    StepAttacked(6, qs, 5, 1);
  }

  lemma Search6_1_5_2(qs: seq<nat>)
    requires qs == [1, 5, 2]
    ensures Solve(6, qs) == []
  {
    SafeAt3(qs, 0);
    StepFree(6, qs, 0);
    Search6_1_5_2_0(qs + [0]);
    StepAttacked(6, qs, 1, 0);
    StepAttacked(6, qs, 2, 2);
    StepAttacked(6, qs, 3, 1);
    StepAttacked(6, qs, 4, 0);
    StepAttacked(6, qs, 5, 1);
  }

  lemma Search6_1_5_2_0(qs: seq<nat>)
    requires qs == [1, 5, 2, 0]
    ensures Solve(6, qs) == []
  {
    StepAttacked(6, qs, 0, 2);
    StepAttacked(6, qs, 1, 0);
    StepAttacked(6, qs, 2, 1);
    SafeAt4(qs, 3);
    StepFree(6, qs, 3);
    Search6_1_5_2_0_3(qs + [3]);
    StepAttacked(6, qs, 4, 2);
    StepAttacked(6, qs, 5, 0);
  }

  lemma Search6_1_5_2_0_3(qs: seq<nat>)
    requires qs == [1, 5, 2, 0, 3]
    ensures Solve(6, qs) == []
  {
    StepAttacked(6, qs, 0, 3);
    StepAttacked(6, qs, 1, 0);
    StepAttacked(6, qs, 2, 2);
    StepAttacked(6, qs, 3, 4);
    StepAttacked(6, qs, 4, 4);
    StepAttacked(6, qs, 5, 1);
  }

  lemma Search6_2(qs: seq<nat>)
    requires qs == [2]
    ensures Solve(6, qs) == [[2, 5, 1, 4, 0, 3]]
  {
    SafeAt1(qs, 0);
    StepFree(6, qs, 0);
    Search6_2_0(qs + [0]);
    StepAttacked(6, qs, 1, 0);
    StepAttacked(6, qs, 2, 0);
    StepAttacked(6, qs, 3, 0);
    SafeAt1(qs, 4);
    StepFree(6, qs, 4);
    Search6_2_4(qs + [4]);
    SafeAt1(qs, 5);
    StepFree(6, qs, 5);
    Search6_2_5(qs + [5]);
  }

  lemma Search6_2_0(qs: seq<nat>)
    requires qs == [2, 0]
    ensures Solve(6, qs) == []
  {
    StepAttacked(6, qs, 0, 0);
    StepAttacked(6, qs, 1, 1);
    StepAttacked(6, qs, 2, 0);
    SafeAt2(qs, 3);
    StepFree(6, qs, 3);
    Search6_2_0_3(qs + [3]);
    StepAttacked(6, qs, 4, 0);
    SafeAt2(qs, 5);
    StepFree(6, qs, 5);
    Search6_2_0_5(qs + [5]);
  }

  lemma Search6_2_0_3(qs: seq<nat>)
    requires qs == [2, 0, 3]
    ensures Solve(6, qs) == []
  {
    StepAttacked(6, qs, 0, 1);
    SafeAt3(qs, 1);
    StepFree(6, qs, 1);
    Search6_2_0_3_1(qs + [1]);
    StepAttacked(6, qs, 2, 0);
    StepAttacked(6, qs, 3, 2);
    StepAttacked(6, qs, 4, 2);
    StepAttacked(6, qs, 5, 0);
  }

  lemma Search6_2_0_3_1(qs: seq<nat>)
    requires qs == [2, 0, 3, 1]
    ensures Solve(6, qs) == []
  {
    StepAttacked(6, qs, 0, 1);
    StepAttacked(6, qs, 1, 2);
    StepAttacked(6, qs, 2, 0);
    StepAttacked(6, qs, 3, 1);
    SafeAt4(qs, 4);
    StepFree(6, qs, 4);
    Search6_2_0_3_1_4(qs + [4]);
    StepAttacked(6, qs, 5, 2);
  }

  lemma Search6_2_0_3_1_4(qs: seq<nat>)
    requires qs == [2, 0, 3, 1, 4]
    ensures Solve(6, qs) == []
  {
    StepAttacked(6, qs, 0, 1);
    StepAttacked(6, qs, 1, 3);
    StepAttacked(6, qs, 2, 0);
    StepAttacked(6, qs, 3, 2);
    StepAttacked(6, qs, 4, 1);
    StepAttacked(6, qs, 5, 4);
  }

  lemma Search6_2_0_5(qs: seq<nat>)
    requires qs == [2, 0, 5]
    ensures Solve(6, qs) == []
  {
    StepAttacked(6, qs, 0, 1);
    SafeAt3(qs, 1);
    StepFree(6, qs, 1);
    Search6_2_0_5_1(qs + [1]);
    StepAttacked(6, qs, 2, 0);
    SafeAt3(qs, 3);
    StepFree(6, qs, 3);
    Search6_2_0_5_3(qs + [3]);
    StepAttacked(6, qs, 4, 2);
    StepAttacked(6, qs, 5, 0);
  }

  lemma Search6_2_0_5_1(qs: seq<nat>)
    requires qs == [2, 0, 5, 1]
    ensures Solve(6, qs) == []
  {
    StepAttacked(6, qs, 0, 1);
    StepAttacked(6, qs, 1, 3);
    StepAttacked(6, qs, 2, 0);
    StepAttacked(6, qs, 3, 1);
    SafeAt4(qs, 4);
    StepFree(6, qs, 4);
    Search6_2_0_5_1_4(qs + [4]);
    StepAttacked(6, qs, 5, 2);
  }

  lemma Search6_2_0_5_1_4(qs: seq<nat>)
    requires qs == [2, 0, 5, 1, 4]
    ensures Solve(6, qs) == []
  {
    StepAttacked(6, qs, 0, 1);
    StepAttacked(6, qs, 1, 3);
    StepAttacked(6, qs, 2, 0);
    StepAttacked(6, qs, 3, 3);
    StepAttacked(6, qs, 4, 1);
    StepAttacked(6, qs, 5, 2);
  }

  lemma Search6_2_0_5_3(qs: seq<nat>)
    requires qs == [2, 0, 5, 3]
    ensures Solve(6, qs) == []
  {
    StepAttacked(6, qs, 0, 1);
    SafeAt4(qs, 1);
    StepFree(6, qs, 1);
    Search6_2_0_5_3_1(qs + [1]);
    StepAttacked(6, qs, 2, 0);
    StepAttacked(6, qs, 3, 1);
    StepAttacked(6, qs, 4, 3);
    StepAttacked(6, qs, 5, 2);
  }

  lemma Search6_2_0_5_3_1(qs: seq<nat>)
    requires qs == [2, 0, 5, 3, 1]
    ensures Solve(6, qs) == []
  {
    StepAttacked(6, qs, 0, 1);
    StepAttacked(6, qs, 1, 3);
    StepAttacked(6, qs, 2, 0);
    StepAttacked(6, qs, 3, 3);
    StepAttacked(6, qs, 4, 1);
    StepAttacked(6, qs, 5, 2);
  }

  lemma Search6_2_4(qs: seq<nat>)
    requires qs == [2, 4]
    ensures Solve(6, qs) == []
  {
    StepAttacked(6, qs, 0, 0);
    SafeAt2(qs, 1);
    StepFree(6, qs, 1);
    Search6_2_4_1(qs + [1]);
    StepAttacked(6, qs, 2, 0);
    StepAttacked(6, qs, 3, 1);
    StepAttacked(6, qs, 4, 0);
    StepAttacked(6, qs, 5, 1);
  }

  lemma Search6_2_4_1(qs: seq<nat>)
    requires qs == [2, 4, 1]
    ensures Solve(6, qs) == []
  {
    StepAttacked(6, qs, 0, 2);
    StepAttacked(6, qs, 1, 2);
    StepAttacked(6, qs, 2, 0);
    SafeAt3(qs, 3);
    StepFree(6, qs, 3);
    Search6_2_4_1_3(qs + [3]);
    StepAttacked(6, qs, 4, 1);
    StepAttacked(6, qs, 5, 0);
  }

  lemma Search6_2_4_1_3(qs: seq<nat>)
    requires qs == [2, 4, 1, 3]
    ensures Solve(6, qs) == []
  {
    SafeAt4(qs, 0);
    StepFree(6, qs, 0);
    Search6_2_4_1_3_0(qs + [0]);
    StepAttacked(6, qs, 1, 1);
    StepAttacked(6, qs, 2, 0);
    StepAttacked(6, qs, 3, 2);
    StepAttacked(6, qs, 4, 1);
    SafeAt4(qs, 5);
    StepFree(6, qs, 5);
    Search6_2_4_1_3_5(qs + [5]);
  }

  lemma Search6_2_4_1_3_0(qs: seq<nat>)
    requires qs == [2, 4, 1, 3, 0]
    ensures Solve(6, qs) == []
  {
    StepAttacked(6, qs, 0, 1);
    StepAttacked(6, qs, 1, 2);
    StepAttacked(6, qs, 2, 0);
    StepAttacked(6, qs, 3, 3);
    StepAttacked(6, qs, 4, 1);
    StepAttacked(6, qs, 5, 3);
  }

  lemma Search6_2_4_1_3_5(qs: seq<nat>)
    requires qs == [2, 4, 1, 3, 5]
    ensures Solve(6, qs) == []
  {
    StepAttacked(6, qs, 0, 1);
    StepAttacked(6, qs, 1, 2);
    StepAttacked(6, qs, 2, 0);
    StepAttacked(6, qs, 3, 3);
    StepAttacked(6, qs, 4, 1);
    StepAttacked(6, qs, 5, 3);
  }

  lemma Search6_2_5(qs: seq<nat>)
    requires qs == [2, 5]
    ensures Solve(6, qs) == [[2, 5, 1, 4, 0, 3]]
  {
    StepAttacked(6, qs, 0, 0);
    SafeAt2(qs, 1);
    StepFree(6, qs, 1);
    Search6_2_5_1(qs + [1]);
    StepAttacked(6, qs, 2, 0);
    SafeAt2(qs, 3);
    StepFree(6, qs, 3);
    Search6_2_5_3(qs + [3]);
    StepAttacked(6, qs, 4, 0);
    StepAttacked(6, qs, 5, 1);
  }

  lemma Search6_2_5_1(qs: seq<nat>)
    requires qs == [2, 5, 1]
    ensures Solve(6, qs) == [[2, 5, 1, 4, 0, 3]]
  {
    StepAttacked(6, qs, 0, 2);
    StepAttacked(6, qs, 1, 2);
    StepAttacked(6, qs, 2, 0);
    StepAttacked(6, qs, 3, 1);
    SafeAt3(qs, 4);
    StepFree(6, qs, 4);
    Search6_2_5_1_4(qs + [4]);
    StepAttacked(6, qs, 5, 0);
  }

  lemma Search6_2_5_1_4(qs: seq<nat>)
    requires qs == [2, 5, 1, 4]
    ensures Solve(6, qs) == [[2, 5, 1, 4, 0, 3]]
  {
    SafeAt4(qs, 0);
    StepFree(6, qs, 0);
    Search6_2_5_1_4_0(qs + [0]);
    StepAttacked(6, qs, 1, 2);
    StepAttacked(6, qs, 2, 0);
    StepAttacked(6, qs, 3, 2);
    StepAttacked(6, qs, 4, 3);
    StepAttacked(6, qs, 5, 1);
  }

  lemma Search6_2_5_1_4_0(qs: seq<nat>)
    requires qs == [2, 5, 1, 4, 0]
    ensures Solve(6, qs) == [[2, 5, 1, 4, 0, 3]]
  {
    StepAttacked(6, qs, 0, 4);
    StepAttacked(6, qs, 1, 1);
    StepAttacked(6, qs, 2, 0);
    SafeAt5(qs, 3);
    StepFree(6, qs, 3);
    assert qs + [3] == [2, 5, 1, 4, 0, 3];
    StepAttacked(6, qs, 4, 2);
    StepAttacked(6, qs, 5, 1);
  }

  lemma Search6_2_5_3(qs: seq<nat>)
    requires qs == [2, 5, 3]
    ensures Solve(6, qs) == []
  {
    SafeAt3(qs, 0);
    StepFree(6, qs, 0);
    Search6_2_5_3_0(qs + [0]);
    SafeAt3(qs, 1);
    StepFree(6, qs, 1);
    Search6_2_5_3_1(qs + [1]);
    StepAttacked(6, qs, 2, 0);
    StepAttacked(6, qs, 3, 1);
    StepAttacked(6, qs, 4, 2);
    StepAttacked(6, qs, 5, 0);
  }

  lemma Search6_2_5_3_0(qs: seq<nat>)
    requires qs == [2, 5, 3, 0]
    ensures Solve(6, qs) == []
  {
    StepAttacked(6, qs, 0, 3);
    StepAttacked(6, qs, 1, 2);
    StepAttacked(6, qs, 2, 0);
    StepAttacked(6, qs, 3, 2);
    SafeAt4(qs, 4);
    StepFree(6, qs, 4);
    Search6_2_5_3_0_4(qs + [4]);
    StepAttacked(6, qs, 5, 1);
  }

  lemma Search6_2_5_3_0_4(qs: seq<nat>)
    requires qs == [2, 5, 3, 0, 4]
    ensures Solve(6, qs) == []
  {
    StepAttacked(6, qs, 0, 2);
    StepAttacked(6, qs, 1, 1);
    StepAttacked(6, qs, 2, 0);
    StepAttacked(6, qs, 3, 2);
    StepAttacked(6, qs, 4, 4);
    StepAttacked(6, qs, 5, 1);
  }

  lemma Search6_2_5_3_1(qs: seq<nat>)
    requires qs == [2, 5, 3, 1]
    ensures Solve(6, qs) == []
  {
    StepAttacked(6, qs, 0, 3);
    StepAttacked(6, qs, 1, 2);
    StepAttacked(6, qs, 2, 0);
    StepAttacked(6, qs, 3, 2);
    SafeAt4(qs, 4);
    StepFree(6, qs, 4);
    Search6_2_5_3_1_4(qs + [4]);
    StepAttacked(6, qs, 5, 1);
  }

  lemma Search6_2_5_3_1_4(qs: seq<nat>)
    requires qs == [2, 5, 3, 1, 4]
    ensures Solve(6, qs) == []
  {
    StepAttacked(6, qs, 0, 2);
    StepAttacked(6, qs, 1, 1);
    StepAttacked(6, qs, 2, 0);
    StepAttacked(6, qs, 3, 2);
    StepAttacked(6, qs, 4, 4);
    StepAttacked(6, qs, 5, 1);
  }

  lemma Search6_3(qs: seq<nat>)
    requires qs == [3]
    ensures Solve(6, qs) == [[3, 0, 4, 1, 5, 2]]
  {
    SafeAt1(qs, 0);
    StepFree(6, qs, 0);
    Search6_3_0(qs + [0]);
    SafeAt1(qs, 1);
    StepFree(6, qs, 1);
    Search6_3_1(qs + [1]);
    StepAttacked(6, qs, 2, 0);
    StepAttacked(6, qs, 3, 0);
    StepAttacked(6, qs, 4, 0);
    SafeAt1(qs, 5);
    StepFree(6, qs, 5);
    Search6_3_5(qs + [5]);
  }

  lemma Search6_3_0(qs: seq<nat>)
    requires qs == [3, 0]
    ensures Solve(6, qs) == [[3, 0, 4, 1, 5, 2]]
  {
    StepAttacked(6, qs, 0, 1);
    StepAttacked(6, qs, 1, 0);
    SafeAt2(qs, 2);
    StepFree(6, qs, 2);
    Search6_3_0_2(qs + [2]);
    StepAttacked(6, qs, 3, 0);
    SafeAt2(qs, 4);
    StepFree(6, qs, 4);
    Search6_3_0_4(qs + [4]);
    StepAttacked(6, qs, 5, 0);
  }

  lemma Search6_3_0_2(qs: seq<nat>)
    requires qs == [3, 0, 2]
    ensures Solve(6, qs) == []
  {
    StepAttacked(6, qs, 0, 0);
    StepAttacked(6, qs, 1, 2);
    StepAttacked(6, qs, 2, 1);
    StepAttacked(6, qs, 3, 0);
    SafeAt3(qs, 4);
    StepFree(6, qs, 4);
    Search6_3_0_2_4(qs + [4]);
    SafeAt3(qs, 5);
    StepFree(6, qs, 5);
    Search6_3_0_2_5(qs + [5]);
  }

  lemma Search6_3_0_2_4(qs: seq<nat>)
    requires qs == [3, 0, 2, 4]
    ensures Solve(6, qs) == []
  {
    StepAttacked(6, qs, 0, 1);
    SafeAt4(qs, 1);
    StepFree(6, qs, 1);
    Search6_3_0_2_4_1(qs + [1]);
    StepAttacked(6, qs, 2, 2);
    StepAttacked(6, qs, 3, 0);
    StepAttacked(6, qs, 4, 2);
    StepAttacked(6, qs, 5, 3);
  }

  lemma Search6_3_0_2_4_1(qs: seq<nat>)
    requires qs == [3, 0, 2, 4, 1]
    ensures Solve(6, qs) == []
  {
    StepAttacked(6, qs, 0, 1);
    StepAttacked(6, qs, 1, 4);
    StepAttacked(6, qs, 2, 2);
    StepAttacked(6, qs, 3, 0);
    StepAttacked(6, qs, 4, 1);
    StepAttacked(6, qs, 5, 2);
  }

  lemma Search6_3_0_2_5(qs: seq<nat>)
    requires qs == [3, 0, 2, 5]
    ensures Solve(6, qs) == []
  {
    StepAttacked(6, qs, 0, 1);
    SafeAt4(qs, 1);
    StepFree(6, qs, 1);
    Search6_3_0_2_5_1(qs + [1]);
    StepAttacked(6, qs, 2, 2);
    StepAttacked(6, qs, 3, 0);
    StepAttacked(6, qs, 4, 2);
    StepAttacked(6, qs, 5, 3);
  }

  lemma Search6_3_0_2_5_1(qs: seq<nat>)
    requires qs == [3, 0, 2, 5, 1]
    ensures Solve(6, qs) == []
  {
    StepAttacked(6, qs, 0, 1);
    StepAttacked(6, qs, 1, 4);
    StepAttacked(6, qs, 2, 2);
    StepAttacked(6, qs, 3, 0);
    StepAttacked(6, qs, 4, 1);
    StepAttacked(6, qs, 5, 2);
  }

  lemma Search6_3_0_4(qs: seq<nat>)
    requires qs == [3, 0, 4]
    ensures Solve(6, qs) == [[3, 0, 4, 1, 5, 2]]
  {
    StepAttacked(6, qs, 0, 0);
    SafeAt3(qs, 1);
    StepFree(6, qs, 1);
    Search6_3_0_4_1(qs + [1]);
    StepAttacked(6, qs, 2, 1);
    StepAttacked(6, qs, 3, 0);
    StepAttacked(6, qs, 4, 2);
    StepAttacked(6, qs, 5, 2);
  }

  lemma Search6_3_0_4_1(qs: seq<nat>)
    requires qs == [3, 0, 4, 1]
    ensures Solve(6, qs) == [[3, 0, 4, 1, 5, 2]]
  {
    StepAttacked(6, qs, 0, 1);
    StepAttacked(6, qs, 1, 3);
    StepAttacked(6, qs, 2, 2);
    StepAttacked(6, qs, 3, 0);
    StepAttacked(6, qs, 4, 2);
    SafeAt4(qs, 5);
    StepFree(6, qs, 5);
    Search6_3_0_4_1_5(qs + [5]);
  }

  lemma Search6_3_0_4_1_5(qs: seq<nat>)
    requires qs == [3, 0, 4, 1, 5]
    ensures Solve(6, qs) == [[3, 0, 4, 1, 5, 2]]
  {
    StepAttacked(6, qs, 0, 1);
    StepAttacked(6, qs, 1, 2);
    SafeAt5(qs, 2);
    StepFree(6, qs, 2);
    assert qs + [2] == [3, 0, 4, 1, 5, 2];
    StepAttacked(6, qs, 3, 0);
    StepAttacked(6, qs, 4, 1);
    StepAttacked(6, qs, 5, 4);
  }

  lemma Search6_3_1(qs: seq<nat>)
    requires qs == [3, 1]
    ensures Solve(6, qs) == []
  {
    StepAttacked(6, qs, 0, 1);
    StepAttacked(6, qs, 1, 0);
    StepAttacked(6, qs, 2, 1);
    StepAttacked(6, qs, 3, 0);
    SafeAt2(qs, 4);
    StepFree(6, qs, 4);
    Search6_3_1_4(qs + [4]);
    StepAttacked(6, qs, 5, 0);
  }

  lemma Search6_3_1_4(qs: seq<nat>)
    requires qs == [3, 1, 4]
    ensures Solve(6, qs) == []
  {
    StepAttacked(6, qs, 0, 0);
    StepAttacked(6, qs, 1, 1);
    SafeAt3(qs, 2);
    StepFree(6, qs, 2);
    Search6_3_1_4_2(qs + [2]);
    StepAttacked(6, qs, 3, 0);
    StepAttacked(6, qs, 4, 2);
    StepAttacked(6, qs, 5, 2);
  }

  lemma Search6_3_1_4_2(qs: seq<nat>)
    requires qs == [3, 1, 4, 2]
    ensures Solve(6, qs) == []
  {
    SafeAt4(qs, 0);
    StepFree(6, qs, 0);
    Search6_3_1_4_2_0(qs + [0]);
    StepAttacked(6, qs, 1, 1);
    StepAttacked(6, qs, 2, 2);
    StepAttacked(6, qs, 3, 0);
    StepAttacked(6, qs, 4, 1);
    SafeAt4(qs, 5);
    StepFree(6, qs, 5);
    Search6_3_1_4_2_5(qs + [5]);
  }

  lemma Search6_3_1_4_2_0(qs: seq<nat>)
    requires qs == [3, 1, 4, 2, 0]
    ensures Solve(6, qs) == []
  {
    StepAttacked(6, qs, 0, 3);
    StepAttacked(6, qs, 1, 1);
    StepAttacked(6, qs, 2, 3);
    StepAttacked(6, qs, 3, 0);
    StepAttacked(6, qs, 4, 2);
    StepAttacked(6, qs, 5, 1);
  }

  lemma Search6_3_1_4_2_5(qs: seq<nat>)
    requires qs == [3, 1, 4, 2, 5]
    ensures Solve(6, qs) == []
  {
    StepAttacked(6, qs, 0, 3);
    StepAttacked(6, qs, 1, 1);
    StepAttacked(6, qs, 2, 3);
    StepAttacked(6, qs, 3, 0);
    StepAttacked(6, qs, 4, 2);
    StepAttacked(6, qs, 5, 1);
  }

  lemma Search6_3_5(qs: seq<nat>)
    requires qs == [3, 5]
    ensures Solve(6, qs) == []
  {
    SafeAt2(qs, 0);
    StepFree(6, qs, 0);
    Search6_3_5_0(qs + [0]);
    StepAttacked(6, qs, 1, 0);
    SafeAt2(qs, 2);
    StepFree(6, qs, 2);
    Search6_3_5_2(qs + [2]);
    StepAttacked(6, qs, 3, 0);
    StepAttacked(6, qs, 4, 1);
    StepAttacked(6, qs, 5, 0);
  }

  lemma Search6_3_5_0(qs: seq<nat>)
    requires qs == [3, 5, 0]
    ensures Solve(6, qs) == []
  {
    StepAttacked(6, qs, 0, 0);
    StepAttacked(6, qs, 1, 2);
    SafeAt3(qs, 2);
    StepFree(6, qs, 2);
    Search6_3_5_0_2(qs + [2]);
    StepAttacked(6, qs, 3, 0);
    SafeAt3(qs, 4);
    StepFree(6, qs, 4);
    Search6_3_5_0_4(qs + [4]);
    StepAttacked(6, qs, 5, 1);
  }

  lemma Search6_3_5_0_2(qs: seq<nat>)
    requires qs == [3, 5, 0, 2]
    ensures Solve(6, qs) == []
  {
    StepAttacked(6, qs, 0, 2);
    StepAttacked(6, qs, 1, 3);
    StepAttacked(6, qs, 2, 1);
    StepAttacked(6, qs, 3, 0);
    SafeAt4(qs, 4);
    StepFree(6, qs, 4);
    Search6_3_5_0_2_4(qs + [4]);
    StepAttacked(6, qs, 5, 1);
  }

  lemma Search6_3_5_0_2_4(qs: seq<nat>)
    requires qs == [3, 5, 0, 2, 4]
    ensures Solve(6, qs) == []
  {
    StepAttacked(6, qs, 0, 2);
    StepAttacked(6, qs, 1, 1);
    StepAttacked(6, qs, 2, 3);
    StepAttacked(6, qs, 3, 0);
    StepAttacked(6, qs, 4, 3);
    StepAttacked(6, qs, 5, 1);
  }

  lemma Search6_3_5_0_4(qs: seq<nat>)
    requires qs == [3, 5, 0, 4]
    ensures Solve(6, qs) == []
  {
    StepAttacked(6, qs, 0, 2);
    SafeAt4(qs, 1);
    StepFree(6, qs, 1);
    Search6_3_5_0_4_1(qs + [1]);
    StepAttacked(6, qs, 2, 1);
    StepAttacked(6, qs, 3, 0);
    StepAttacked(6, qs, 4, 3);
    StepAttacked(6, qs, 5, 1);
  }

  lemma Search6_3_5_0_4_1(qs: seq<nat>)
    requires qs == [3, 5, 0, 4, 1]
    ensures Solve(6, qs) == []
  {
    StepAttacked(6, qs, 0, 2);
    StepAttacked(6, qs, 1, 1);
    StepAttacked(6, qs, 2, 3);
    StepAttacked(6, qs, 3, 0);
    StepAttacked(6, qs, 4, 3);
    StepAttacked(6, qs, 5, 1);
  }

  lemma Search6_3_5_2(qs: seq<nat>)
    requires qs == [3, 5, 2]
    ensures Solve(6, qs) == []
  {
    StepAttacked(6, qs, 0, 0);
    StepAttacked(6, qs, 1, 2);
    StepAttacked(6, qs, 2, 2);
    StepAttacked(6, qs, 3, 0);
    SafeAt3(qs, 4);
    StepFree(6, qs, 4);
    Search6_3_5_2_4(qs + [4]);
    StepAttacked(6, qs, 5, 1);
  }

  lemma Search6_3_5_2_4(qs: seq<nat>)
    requires qs == [3, 5, 2, 4]
    ensures Solve(6, qs) == []
  {
    StepAttacked(6, qs, 0, 2);
    SafeAt4(qs, 1);
    StepFree(6, qs, 1);
    Search6_3_5_2_4_1(qs + [1]);
    StepAttacked(6, qs, 2, 1);
    StepAttacked(6, qs, 3, 0);
    StepAttacked(6, qs, 4, 2);
    StepAttacked(6, qs, 5, 1);
  }

  lemma Search6_3_5_2_4_1(qs: seq<nat>)
    requires qs == [3, 5, 2, 4, 1]
    ensures Solve(6, qs) == []
  {
    StepAttacked(6, qs, 0, 4);
    StepAttacked(6, qs, 1, 1);
    StepAttacked(6, qs, 2, 2);
    StepAttacked(6, qs, 3, 0);
    StepAttacked(6, qs, 4, 3);
    StepAttacked(6, qs, 5, 1);
  }

  lemma Search6_4(qs: seq<nat>)
    requires qs == [4]
    ensures Solve(6, qs) == [[4, 2, 0, 5, 3, 1]]
  {
    SafeAt1(qs, 0);
    StepFree(6, qs, 0);
    Search6_4_0(qs + [0]);
    SafeAt1(qs, 1);
    StepFree(6, qs, 1);
    Search6_4_1(qs + [1]);
    SafeAt1(qs, 2);
    StepFree(6, qs, 2);
    Search6_4_2(qs + [2]);
    StepAttacked(6, qs, 3, 0);
    StepAttacked(6, qs, 4, 0);
    StepAttacked(6, qs, 5, 0);
  }

  lemma Search6_4_0(qs: seq<nat>)
    requires qs == [4, 0]
    ensures Solve(6, qs) == []
  {
    StepAttacked(6, qs, 0, 1);
    StepAttacked(6, qs, 1, 1);
    StepAttacked(6, qs, 2, 0);
    SafeAt2(qs, 3);
    StepFree(6, qs, 3);
    Search6_4_0_3(qs + [3]);
    StepAttacked(6, qs, 4, 0);
    SafeAt2(qs, 5);
    StepFree(6, qs, 5);
    Search6_4_0_5(qs + [5]);
  }

  lemma Search6_4_0_3(qs: seq<nat>)
    requires qs == [4, 0, 3]
    ensures Solve(6, qs) == []
  {
    StepAttacked(6, qs, 0, 1);
    StepAttacked(6, qs, 1, 0);
    StepAttacked(6, qs, 2, 1);
    StepAttacked(6, qs, 3, 2);
    StepAttacked(6, qs, 4, 0);
    SafeAt3(qs, 5);
    StepFree(6, qs, 5);
    Search6_4_0_3_5(qs + [5]);
  }

  lemma Search6_4_0_3_5(qs: seq<nat>)
    requires qs == [4, 0, 3, 5]
    ensures Solve(6, qs) == []
  {
    StepAttacked(6, qs, 0, 0);
    StepAttacked(6, qs, 1, 2);
    SafeAt4(qs, 2);
    StepFree(6, qs, 2);
    Search6_4_0_3_5_2(qs + [2]);
    StepAttacked(6, qs, 3, 1);
    StepAttacked(6, qs, 4, 0);
    StepAttacked(6, qs, 5, 2);
  }

  lemma Search6_4_0_3_5_2(qs: seq<nat>)
    requires qs == [4, 0, 3, 5, 2]
    ensures Solve(6, qs) == []
  {
    StepAttacked(6, qs, 0, 1);
    StepAttacked(6, qs, 1, 4);
    StepAttacked(6, qs, 2, 4);
    StepAttacked(6, qs, 3, 2);
    StepAttacked(6, qs, 4, 0);
    StepAttacked(6, qs, 5, 3);
  }

  lemma Search6_4_0_5(qs: seq<nat>)
    requires qs == [4, 0, 5]
    ensures Solve(6, qs) == []
  {
    StepAttacked(6, qs, 0, 1);
    StepAttacked(6, qs, 1, 0);
    StepAttacked(6, qs, 2, 1);
    SafeAt3(qs, 3);
    StepFree(6, qs, 3);
    Search6_4_0_5_3(qs + [3]);
    StepAttacked(6, qs, 4, 0);
    StepAttacked(6, qs, 5, 2);
  }

  lemma Search6_4_0_5_3(qs: seq<nat>)
    requires qs == [4, 0, 5, 3]
    ensures Solve(6, qs) == []
  {
    StepAttacked(6, qs, 0, 0);
    SafeAt4(qs, 1);
    StepFree(6, qs, 1);
    Search6_4_0_5_3_1(qs + [1]);
    StepAttacked(6, qs, 2, 3);
    StepAttacked(6, qs, 3, 1);
    StepAttacked(6, qs, 4, 0);
    StepAttacked(6, qs, 5, 2);
  }

  lemma Search6_4_0_5_3_1(qs: seq<nat>)
    requires qs == [4, 0, 5, 3, 1]
    ensures Solve(6, qs) == []
  {
    StepAttacked(6, qs, 0, 1);
    StepAttacked(6, qs, 1, 3);
    StepAttacked(6, qs, 2, 2);
    StepAttacked(6, qs, 3, 3);
    StepAttacked(6, qs, 4, 0);
    StepAttacked(6, qs, 5, 2);
  }

  lemma Search6_4_1(qs: seq<nat>)
    requires qs == [4, 1]
    ensures Solve(6, qs) == []
  {
    StepAttacked(6, qs, 0, 1);
    StepAttacked(6, qs, 1, 1);
    StepAttacked(6, qs, 2, 0);
    SafeAt2(qs, 3);
    StepFree(6, qs, 3);
    Search6_4_1_3(qs + [3]);
    StepAttacked(6, qs, 4, 0);
    SafeAt2(qs, 5);
    StepFree(6, qs, 5);
    Search6_4_1_5(qs + [5]);
  }

  lemma Search6_4_1_3(qs: seq<nat>)
    requires qs == [4, 1, 3]
    ensures Solve(6, qs) == []
  {
    SafeAt3(qs, 0);
    StepFree(6, qs, 0);
    Search6_4_1_3_0(qs + [0]);
    StepAttacked(6, qs, 1, 0);
    StepAttacked(6, qs, 2, 2);
    StepAttacked(6, qs, 3, 1);
    StepAttacked(6, qs, 4, 0);
    SafeAt3(qs, 5);
    StepFree(6, qs, 5);
    Search6_4_1_3_5(qs + [5]);
  }

  lemma Search6_4_1_3_0(qs: seq<nat>)
    requires qs == [4, 1, 3, 0]
    ensures Solve(6, qs) == []
  {
    StepAttacked(6, qs, 0, 0);
    StepAttacked(6, qs, 1, 1);
    SafeAt4(qs, 2);
    StepFree(6, qs, 2);
    Search6_4_1_3_0_2(qs + [2]);
    StepAttacked(6, qs, 3, 2);
    StepAttacked(6, qs, 4, 0);
    StepAttacked(6, qs, 5, 2);
  }

  lemma Search6_4_1_3_0_2(qs: seq<nat>)
    requires qs == [4, 1, 3, 0, 2]
    ensures Solve(6, qs) == []
  {
    StepAttacked(6, qs, 0, 2);
    StepAttacked(6, qs, 1, 1);
    StepAttacked(6, qs, 2, 3);
    StepAttacked(6, qs, 3, 2);
    StepAttacked(6, qs, 4, 0);
    StepAttacked(6, qs, 5, 1);
  }

  lemma Search6_4_1_3_5(qs: seq<nat>)
    requires qs == [4, 1, 3, 5]
    ensures Solve(6, qs) == []
  {
    StepAttacked(6, qs, 0, 0);
    StepAttacked(6, qs, 1, 1);
    SafeAt4(qs, 2);
    StepFree(6, qs, 2);
    Search6_4_1_3_5_2(qs + [2]);
    StepAttacked(6, qs, 3, 2);
    StepAttacked(6, qs, 4, 0);
    StepAttacked(6, qs, 5, 2);
  }

  lemma Search6_4_1_3_5_2(qs: seq<nat>)
    requires qs == [4, 1, 3, 5, 2]
    ensures Solve(6, qs) == []
  {
    StepAttacked(6, qs, 0, 2);
    StepAttacked(6, qs, 1, 1);
    StepAttacked(6, qs, 2, 4);
    StepAttacked(6, qs, 3, 2);
    StepAttacked(6, qs, 4, 0);
    StepAttacked(6, qs, 5, 1);
  }

  lemma Search6_4_1_5(qs: seq<nat>)
    requires qs == [4, 1, 5]
    ensures Solve(6, qs) == []
  {
    SafeAt3(qs, 0);
    StepFree(6, qs, 0);
    Search6_4_1_5_0(qs + [0]);
    StepAttacked(6, qs, 1, 0);
    SafeAt3(qs, 2);
    StepFree(6, qs, 2);
    Search6_4_1_5_2(qs + [2]);
    StepAttacked(6, qs, 3, 1);
    StepAttacked(6, qs, 4, 0);
    StepAttacked(6, qs, 5, 2);
  }

  lemma Search6_4_1_5_0(qs: seq<nat>)
    requires qs == [4, 1, 5, 0]
    ensures Solve(6, qs) == []
  {
    StepAttacked(6, qs, 0, 0);
    StepAttacked(6, qs, 1, 1);
    SafeAt4(qs, 2);
    StepFree(6, qs, 2);
    Search6_4_1_5_0_2(qs + [2]);
    StepAttacked(6, qs, 3, 2);
    StepAttacked(6, qs, 4, 0);
    StepAttacked(6, qs, 5, 2);
  }

  lemma Search6_4_1_5_0_2(qs: seq<nat>)
    requires qs == [4, 1, 5, 0, 2]
    ensures Solve(6, qs) == []
  {
    StepAttacked(6, qs, 0, 3);
    StepAttacked(6, qs, 1, 1);
    StepAttacked(6, qs, 2, 2);
    StepAttacked(6, qs, 3, 4);
    StepAttacked(6, qs, 4, 0);
    StepAttacked(6, qs, 5, 1);
  }

  lemma Search6_4_1_5_2(qs: seq<nat>)
    requires qs == [4, 1, 5, 2]
    ensures Solve(6, qs) == []
  {
    StepAttacked(6, qs, 0, 0);
    StepAttacked(6, qs, 1, 1);
    StepAttacked(6, qs, 2, 3);
    StepAttacked(6, qs, 3, 2);
    StepAttacked(6, qs, 4, 0);
    StepAttacked(6, qs, 5, 2);
  }

  lemma Search6_4_2(qs: seq<nat>)
    requires qs == [4, 2]
    ensures Solve(6, qs) == [[4, 2, 0, 5, 3, 1]]
  {
    SafeAt2(qs, 0);
    StepFree(6, qs, 0);
    Search6_4_2_0(qs + [0]);
    StepAttacked(6, qs, 1, 1);
    StepAttacked(6, qs, 2, 0);
    StepAttacked(6, qs, 3, 1);
    StepAttacked(6, qs, 4, 0);
    SafeAt2(qs, 5);
    StepFree(6, qs, 5);
    Search6_4_2_5(qs + [5]);
  }

  lemma Search6_4_2_0(qs: seq<nat>)
    requires qs == [4, 2, 0]
    ensures Solve(6, qs) == [[4, 2, 0, 5, 3, 1]]
  {
    StepAttacked(6, qs, 0, 1);
    StepAttacked(6, qs, 1, 0);
    StepAttacked(6, qs, 2, 1);
    SafeAt3(qs, 3);
    StepFree(6, qs, 3);
    Search6_4_2_0_3(qs + [3]);
    StepAttacked(6, qs, 4, 0);
    SafeAt3(qs, 5);
    StepFree(6, qs, 5);
    Search6_4_2_0_5(qs + [5]);
  }

  lemma Search6_4_2_0_3(qs: seq<nat>)
    requires qs == [4, 2, 0, 3]
    ensures Solve(6, qs) == []
  {
    StepAttacked(6, qs, 0, 0);
    SafeAt4(qs, 1);
    StepFree(6, qs, 1);
    Search6_4_2_0_3_1(qs + [1]);
    StepAttacked(6, qs, 2, 1);
    StepAttacked(6, qs, 3, 3);
    StepAttacked(6, qs, 4, 0);
    StepAttacked(6, qs, 5, 1);
  }

  lemma Search6_4_2_0_3_1(qs: seq<nat>)
    requires qs == [4, 2, 0, 3, 1]
    ensures Solve(6, qs) == []
  {
    StepAttacked(6, qs, 0, 2);
    StepAttacked(6, qs, 1, 3);
    StepAttacked(6, qs, 2, 1);
    StepAttacked(6, qs, 3, 2);
    StepAttacked(6, qs, 4, 0);
    StepAttacked(6, qs, 5, 3);
  }

  lemma Search6_4_2_0_5(qs: seq<nat>)
    requires qs == [4, 2, 0, 5]
    ensures Solve(6, qs) == [[4, 2, 0, 5, 3, 1]]
  {
    StepAttacked(6, qs, 0, 0);
    SafeAt4(qs, 1);
    StepFree(6, qs, 1);
    Search6_4_2_0_5_1(qs + [1]);
    StepAttacked(6, qs, 2, 1);
    SafeAt4(qs, 3);
    StepFree(6, qs, 3);
    Search6_4_2_0_5_3(qs + [3]);
    StepAttacked(6, qs, 4, 0);
    StepAttacked(6, qs, 5, 1);
  }

  lemma Search6_4_2_0_5_1(qs: seq<nat>)
    requires qs == [4, 2, 0, 5, 1]
    ensures Solve(6, qs) == []
  {
    StepAttacked(6, qs, 0, 2);
    StepAttacked(6, qs, 1, 4);
    StepAttacked(6, qs, 2, 1);
    StepAttacked(6, qs, 3, 2);
    StepAttacked(6, qs, 4, 0);
    StepAttacked(6, qs, 5, 3);
  }

  lemma Search6_4_2_0_5_3(qs: seq<nat>)
    requires qs == [4, 2, 0, 5, 3]
    ensures Solve(6, qs) == [[4, 2, 0, 5, 3, 1]]
  {
    StepAttacked(6, qs, 0, 2);
    SafeAt5(qs, 1);
    StepFree(6, qs, 1);
    assert qs + [1] == [4, 2, 0, 5, 3, 1];
    StepAttacked(6, qs, 2, 1);
    StepAttacked(6, qs, 3, 2);
    StepAttacked(6, qs, 4, 0);
    StepAttacked(6, qs, 5, 3);
  }

  lemma Search6_4_2_5(qs: seq<nat>)
    requires qs == [4, 2, 5]
    ensures Solve(6, qs) == []
  {
    StepAttacked(6, qs, 0, 1);
    StepAttacked(6, qs, 1, 0);
    StepAttacked(6, qs, 2, 1);
    SafeAt3(qs, 3);
    StepFree(6, qs, 3);
    Search6_4_2_5_3(qs + [3]);
    StepAttacked(6, qs, 4, 0);
    StepAttacked(6, qs, 5, 2);
  }

  lemma Search6_4_2_5_3(qs: seq<nat>)
    requires qs == [4, 2, 5, 3]
    ensures Solve(6, qs) == []
  {
    StepAttacked(6, qs, 0, 0);
    SafeAt4(qs, 1);
    StepFree(6, qs, 1);
    Search6_4_2_5_3_1(qs + [1]);
    StepAttacked(6, qs, 2, 1);
    StepAttacked(6, qs, 3, 2);
    StepAttacked(6, qs, 4, 0);
    StepAttacked(6, qs, 5, 1);
  }

  lemma Search6_4_2_5_3_1(qs: seq<nat>)
    requires qs == [4, 2, 5, 3, 1]
    ensures Solve(6, qs) == []
  {
    StepAttacked(6, qs, 0, 4);
    StepAttacked(6, qs, 1, 3);
    StepAttacked(6, qs, 2, 1);
    StepAttacked(6, qs, 3, 3);
    StepAttacked(6, qs, 4, 0);
    StepAttacked(6, qs, 5, 2);
  }

  lemma Search6_5(qs: seq<nat>)
    requires qs == [5]
    ensures Solve(6, qs) == []
  {
    SafeAt1(qs, 0);
    StepFree(6, qs, 0);
    Search6_5_0(qs + [0]);
    SafeAt1(qs, 1);
    StepFree(6, qs, 1);
    Search6_5_1(qs + [1]);
    SafeAt1(qs, 2);
    StepFree(6, qs, 2);
    Search6_5_2(qs + [2]);
    SafeAt1(qs, 3);
    StepFree(6, qs, 3);
    Search6_5_3(qs + [3]);
    StepAttacked(6, qs, 4, 0);
    StepAttacked(6, qs, 5, 0);
  }

  lemma Search6_5_0(qs: seq<nat>)
    requires qs == [5, 0]
    ensures Solve(6, qs) == []
  {
    StepAttacked(6, qs, 0, 1);
    StepAttacked(6, qs, 1, 1);
    SafeAt2(qs, 2);
    StepFree(6, qs, 2);
    Search6_5_0_2(qs + [2]);
    StepAttacked(6, qs, 3, 0);
    SafeAt2(qs, 4);
    StepFree(6, qs, 4);
    Search6_5_0_4(qs + [4]);
    StepAttacked(6, qs, 5, 0);
  }

  lemma Search6_5_0_2(qs: seq<nat>)
    requires qs == [5, 0, 2]
    ensures Solve(6, qs) == []
  {
    StepAttacked(6, qs, 0, 1);
    StepAttacked(6, qs, 1, 2);
    StepAttacked(6, qs, 2, 0);
    StepAttacked(6, qs, 3, 2);
    SafeAt3(qs, 4);
    StepFree(6, qs, 4);
    Search6_5_0_2_4(qs + [4]);
    StepAttacked(6, qs, 5, 0);
  }

  lemma Search6_5_0_2_4(qs: seq<nat>)
    requires qs == [5, 0, 2, 4]
    ensures Solve(6, qs) == []
  {
    StepAttacked(6, qs, 0, 1);
    StepAttacked(6, qs, 1, 0);
    StepAttacked(6, qs, 2, 2);
    StepAttacked(6, qs, 3, 1);
    StepAttacked(6, qs, 4, 2);
    StepAttacked(6, qs, 5, 0);
  }

  lemma Search6_5_0_4(qs: seq<nat>)
    requires qs == [5, 0, 4]
    ensures Solve(6, qs) == []
  {
    StepAttacked(6, qs, 0, 1);
    SafeAt3(qs, 1);
    StepFree(6, qs, 1);
    Search6_5_0_4_1(qs + [1]);
    StepAttacked(6, qs, 2, 0);
    StepAttacked(6, qs, 3, 2);
    StepAttacked(6, qs, 4, 2);
    StepAttacked(6, qs, 5, 0);
  }

  lemma Search6_5_0_4_1(qs: seq<nat>)
    requires qs == [5, 0, 4, 1]
    ensures Solve(6, qs) == []
  {
    StepAttacked(6, qs, 0, 1);
    StepAttacked(6, qs, 1, 0);
    StepAttacked(6, qs, 2, 2);
    StepAttacked(6, qs, 3, 1);
    StepAttacked(6, qs, 4, 2);
    StepAttacked(6, qs, 5, 0);
  }

  lemma Search6_5_1(qs: seq<nat>)
    requires qs == [5, 1]
    ensures Solve(6, qs) == []
  {
    StepAttacked(6, qs, 0, 1);
    StepAttacked(6, qs, 1, 1);
    StepAttacked(6, qs, 2, 1);
    StepAttacked(6, qs, 3, 0);
    SafeAt2(qs, 4);
    StepFree(6, qs, 4);
    Search6_5_1_4(qs + [4]);
    StepAttacked(6, qs, 5, 0);
  }

  lemma Search6_5_1_4(qs: seq<nat>)
    requires qs == [5, 1, 4]
    ensures Solve(6, qs) == []
  {
    SafeAt3(qs, 0);
    StepFree(6, qs, 0);
    Search6_5_1_4_0(qs + [0]);
    StepAttacked(6, qs, 1, 1);
    StepAttacked(6, qs, 2, 0);
    StepAttacked(6, qs, 3, 1);
    StepAttacked(6, qs, 4, 2);
    StepAttacked(6, qs, 5, 0);
  }

  lemma Search6_5_1_4_0(qs: seq<nat>)
    requires qs == [5, 1, 4, 0]
    ensures Solve(6, qs) == []
  {
    StepAttacked(6, qs, 0, 3);
    StepAttacked(6, qs, 1, 0);
    StepAttacked(6, qs, 2, 2);
    SafeAt4(qs, 3);
    StepFree(6, qs, 3);
    Search6_5_1_4_0_3(qs + [3]);
    StepAttacked(6, qs, 4, 1);
    StepAttacked(6, qs, 5, 0);
  }

  lemma Search6_5_1_4_0_3(qs: seq<nat>)
    requires qs == [5, 1, 4, 0, 3]
    ensures Solve(6, qs) == []
  {
    StepAttacked(6, qs, 0, 0);
    StepAttacked(6, qs, 1, 1);
    StepAttacked(6, qs, 2, 3);
    StepAttacked(6, qs, 3, 4);
    StepAttacked(6, qs, 4, 2);
    StepAttacked(6, qs, 5, 0);
  }

  lemma Search6_5_2(qs: seq<nat>)
    requires qs == [5, 2]
    ensures Solve(6, qs) == []
  {
    SafeAt2(qs, 0);
    StepFree(6, qs, 0);
    Search6_5_2_0(qs + [0]);
    StepAttacked(6, qs, 1, 1);
    StepAttacked(6, qs, 2, 1);
    StepAttacked(6, qs, 3, 0);
    SafeAt2(qs, 4);
    StepFree(6, qs, 4);
    Search6_5_2_4(qs + [4]);
    StepAttacked(6, qs, 5, 0);
  }

  lemma Search6_5_2_0(qs: seq<nat>)
    requires qs == [5, 2, 0]
    ensures Solve(6, qs) == []
  {
    StepAttacked(6, qs, 0, 1);
    StepAttacked(6, qs, 1, 2);
    StepAttacked(6, qs, 2, 0);
    SafeAt3(qs, 3);
    StepFree(6, qs, 3);
    Search6_5_2_0_3(qs + [3]);
    StepAttacked(6, qs, 4, 1);
    StepAttacked(6, qs, 5, 0);
  }

  lemma Search6_5_2_0_3(qs: seq<nat>)
    requires qs == [5, 2, 0, 3]
    ensures Solve(6, qs) == []
  {
    StepAttacked(6, qs, 0, 2);
    StepAttacked(6, qs, 1, 0);
    StepAttacked(6, qs, 2, 1);
    StepAttacked(6, qs, 3, 3);
    StepAttacked(6, qs, 4, 3);
    StepAttacked(6, qs, 5, 0);
  }

  lemma Search6_5_2_4(qs: seq<nat>)
    requires qs == [5, 2, 4]
    ensures Solve(6, qs) == []
  {
    StepAttacked(6, qs, 0, 1);
    SafeAt3(qs, 1);
    StepFree(6, qs, 1);
    Search6_5_2_4_1(qs + [1]);
    StepAttacked(6, qs, 2, 0);
    StepAttacked(6, qs, 3, 2);
    StepAttacked(6, qs, 4, 1);
    StepAttacked(6, qs, 5, 0);
  }

  lemma Search6_5_2_4_1(qs: seq<nat>)
    requires qs == [5, 2, 4, 1]
    ensures Solve(6, qs) == []
  {
    StepAttacked(6, qs, 0, 3);
    StepAttacked(6, qs, 1, 0);
    StepAttacked(6, qs, 2, 1);
    SafeAt4(qs, 3);
    StepFree(6, qs, 3);
    Search6_5_2_4_1_3(qs + [3]);
    StepAttacked(6, qs, 4, 2);
    StepAttacked(6, qs, 5, 0);
  }

  lemma Search6_5_2_4_1_3(qs: seq<nat>)
    requires qs == [5, 2, 4, 1, 3]
    ensures Solve(6, qs) == []
  {
    StepAttacked(6, qs, 0, 0);
    StepAttacked(6, qs, 1, 2);
    StepAttacked(6, qs, 2, 1);
    StepAttacked(6, qs, 3, 3);
    StepAttacked(6, qs, 4, 2);
    StepAttacked(6, qs, 5, 0);
  }

  lemma Search6_5_3(qs: seq<nat>)
    requires qs == [5, 3]
    ensures Solve(6, qs) == []
  {
    SafeAt2(qs, 0);
    StepFree(6, qs, 0);
    Search6_5_3_0(qs + [0]);
    SafeAt2(qs, 1);
    StepFree(6, qs, 1);
    Search6_5_3_1(qs + [1]);
    StepAttacked(6, qs, 2, 1);
    StepAttacked(6, qs, 3, 0);
    StepAttacked(6, qs, 4, 1);
    StepAttacked(6, qs, 5, 0);
  }

  lemma Search6_5_3_0(qs: seq<nat>)
    requires qs == [5, 3, 0]
    ensures Solve(6, qs) == []
  {
    StepAttacked(6, qs, 0, 2);
    StepAttacked(6, qs, 1, 1);
    StepAttacked(6, qs, 2, 0);
    StepAttacked(6, qs, 3, 1);
    SafeAt3(qs, 4);
    StepFree(6, qs, 4);
    Search6_5_3_0_4(qs + [4]);
    StepAttacked(6, qs, 5, 0);
  }

  lemma Search6_5_3_0_4(qs: seq<nat>)
    requires qs == [5, 3, 0, 4]
    ensures Solve(6, qs) == []
  {
    StepAttacked(6, qs, 0, 1);
    StepAttacked(6, qs, 1, 0);
    StepAttacked(6, qs, 2, 2);
    StepAttacked(6, qs, 3, 1);
    StepAttacked(6, qs, 4, 3);
    StepAttacked(6, qs, 5, 0);
  }

  lemma Search6_5_3_1(qs: seq<nat>)
    requires qs == [5, 3, 1]
    ensures Solve(6, qs) == []
  {
    StepAttacked(6, qs, 0, 2);
    StepAttacked(6, qs, 1, 1);
    StepAttacked(6, qs, 2, 0);
    StepAttacked(6, qs, 3, 1);
    SafeAt3(qs, 4);
    StepFree(6, qs, 4);
    Search6_5_3_1_4(qs + [4]);
    StepAttacked(6, qs, 5, 0);
  }

  lemma Search6_5_3_1_4(qs: seq<nat>)
    requires qs == [5, 3, 1, 4]
    ensures Solve(6, qs) == []
  {
    StepAttacked(6, qs, 0, 1);
    StepAttacked(6, qs, 1, 0);
    SafeAt4(qs, 2);
    StepFree(6, qs, 2);
    Search6_5_3_1_4_2(qs + [2]);
    StepAttacked(6, qs, 3, 1);
    StepAttacked(6, qs, 4, 3);
    StepAttacked(6, qs, 5, 0);
  }

  lemma Search6_5_3_1_4_2(qs: seq<nat>)
    requires qs == [5, 3, 1, 4, 2]
    ensures Solve(6, qs) == []
  {
    StepAttacked(6, qs, 0, 0);
    StepAttacked(6, qs, 1, 2);
    StepAttacked(6, qs, 2, 3);
    StepAttacked(6, qs, 3, 1);
    StepAttacked(6, qs, 4, 2);
    StepAttacked(6, qs, 5, 0);
  }

}
