/** src/general/n_queens.rs: backtracking over an `n` by `n` board of
    booleans, one queen per row, emitting every complete board as strings
    of `'Q'` and `'.'`.  The search is specified on placements: `qs[i]` is
    the column of the queen in row `i`. */
module NQueens {

  /** A queen at (`i`, `j`) does not share a column or a diagonal with one
      at (`row`, `col`). */
  predicate Free(row: int, col: int, i: int, j: int)
  {
    j != col && row - i != col - j && row - i != j - col
  }

  /** A queen in column `c` of the next row is attacked by none of `qs`. */
  predicate Safe(qs: seq<nat>, c: nat)
  {
    forall i :: 0 <= i < |qs| ==> Free(|qs|, c, i, qs[i])
  }

  /** Queens on the board, no two sharing a column or a diagonal. */
  predicate Placement(n: nat, p: seq<nat>)
  {
    (forall i :: 0 <= i < |p| ==> p[i] < n) &&
    forall i, j :: 0 <= i < j < |p| ==> Free(j, p[j], i, p[i])
  }

  lemma PlacementExtend(n: nat, qs: seq<nat>, c: nat)
    ensures Placement(n, qs + [c]) <==> Placement(n, qs) && c < n && Safe(qs, c)
  {
    var p := qs + [c];
    assert forall i :: 0 <= i < |qs| ==> p[i] == qs[i];
    assert p[|qs|] == c;
    if Placement(n, qs) && c < n && Safe(qs, c) {
      forall i, j | 0 <= i < j < |p| ensures Free(j, p[j], i, p[i]) {
        if j == |qs| {
          assert Free(|qs|, c, i, qs[i]);
        } else {
          assert Free(j, qs[j], i, qs[i]);
        }
      }
    }
  }

  /** The solutions `_backtrack_n_queens` emits from the rows placed in
      `qs`: `qs` itself once every row holds a queen, otherwise those of
      every free column of the next row, left to right. */
  function Solve(n: nat, qs: seq<nat>): seq<seq<nat>>
    requires |qs| <= n
    decreases n - |qs|, 1, 0
  {
    if |qs| == n then [qs] else Columns(n, qs, n)
  }

  /** The solutions through the columns `0..c` of the next row. */
  function Columns(n: nat, qs: seq<nat>, c: nat): seq<seq<nat>>
    requires |qs| < n && c <= n
    decreases n - |qs|, 0, c
  {
    if c == 0 then []
    else Columns(n, qs, c - 1) + (if Safe(qs, c - 1) then Solve(n, qs + [c - 1]) else [])
  }

  /** Every solution is complete and extends the rows already placed. */
  lemma {:induction false} SolveExtends(n: nat, qs: seq<nat>)
    requires |qs| <= n
    ensures forall p :: p in Solve(n, qs) ==> |p| == n && p[..|qs|] == qs
    decreases n - |qs|, 1, 0
  {
    if |qs| < n {
      ColumnsExtends(n, qs, n);
    }
  }

  lemma {:induction false} ColumnsExtends(n: nat, qs: seq<nat>, c: nat)
    requires |qs| < n && c <= n
    ensures forall p :: p in Columns(n, qs, c) ==>
              |p| == n && p[..|qs|] == qs && p[|qs|] < c && Safe(qs, p[|qs|])
    decreases n - |qs|, 0, c
  {
    if c > 0 {
      ColumnsExtends(n, qs, c - 1);
      if Safe(qs, c - 1) {
        var q := qs + [c - 1];
        SolveExtends(n, q);
        forall p | p in Solve(n, q) ensures p[..|qs|] == qs && p[|qs|] == c - 1 {
          assert p[..|q|] == q;
          assert p[..|qs|] == q[..|qs|];
        }
      }
    }
  }

  /** Every solution is a full placement. */
  lemma SolveSound(n: nat, p: seq<nat>)
    requires p in Solve(n, [])
    ensures |p| == n && Placement(n, p)
  {
    SolveExtends(n, []);
    forall k | 0 <= k <= n ensures Placement(n, p[..k]) {
      PrefixSound(n, p, k);
    }
    assert p[..n] == p;
  }

  lemma {:induction false} PrefixSound(n: nat, p: seq<nat>, k: nat)
    requires p in Solve(n, []) && k <= n
    ensures |p| == n && Placement(n, p[..k])
  {
    assert |p| == n by {
      SolveExtends(n, []);
    }
    if k > 0 {
      PrefixSound(n, p, k - 1);
      var qs, c := p[..k - 1], p[k - 1];
      assert c < n && Safe(qs, c) by {
        ReachesPrefix(n, p, k - 1);
        ColumnsExtends(n, qs, n);
      }
      assert p[..k] == qs + [c];
      PlacementExtend(n, qs, c);
    }
  }

  /** A solution of the whole search is, for each `k < n`, one of the
      solutions through the free columns after its first `k` rows. */
  lemma {:induction false} ReachesPrefix(n: nat, p: seq<nat>, k: nat)
    requires p in Solve(n, []) && k < n == |p|
    ensures p in Columns(n, p[..k], n)
  {
    SolveExtends(n, []);
    if k == 0 {
      assert p[..0] == [];
    } else {
      ReachesPrefix(n, p, k - 1);
      var qs := p[..k - 1];
      ColumnsExtends(n, qs, n);
      var c := p[k - 1];
      assert p[..k] == qs + [c];
      ColumnsSplit(n, qs, n, p);
      assert p[..k] == qs + [c];
    }
  }

  /** A member of `Columns(n, qs, c)` comes from the branch of its own
      column. */
  lemma {:induction false} ColumnsSplit(n: nat, qs: seq<nat>, c: nat, p: seq<nat>)
    requires |qs| < n && c <= n && p in Columns(n, qs, c) && |qs| + 1 < n == |p|
    ensures p in Columns(n, p[..|qs| + 1], n)
    decreases c
  {
    ColumnsExtends(n, qs, c);
    if c > 0 {
      if p in Columns(n, qs, c - 1) {
        ColumnsSplit(n, qs, c - 1, p);
      } else {
        var q := qs + [c - 1];
        SolveExtends(n, q);
        assert p[..|qs| + 1] == q by {
          assert p[..|q|] == q;
        }
      }
    }
  }

  /** Every full placement extending `qs` is a solution from `qs`. */
  lemma {:induction false} SolveComplete(n: nat, qs: seq<nat>, p: seq<nat>)
    requires |qs| <= n == |p| && Placement(n, p) && p[..|qs|] == qs
    ensures p in Solve(n, qs)
    decreases n - |qs|
  {
    if |qs| == n {
      assert p == p[..|qs|];
    } else {
      var c := p[|qs|];
      var q := qs + [c];
      assert p[..|q|] == q;
      PlacementPrefix(n, p, |q|);
      PlacementExtend(n, qs, c);
      SolveComplete(n, q, p);
      ColumnsHas(n, qs, c, n, p);
    }
  }

  lemma PlacementPrefix(n: nat, p: seq<nat>, k: nat)
    requires Placement(n, p) && k <= |p|
    ensures Placement(n, p[..k])
  {
  }

  lemma {:induction false} ColumnsHas(n: nat, qs: seq<nat>, c: nat, d: nat, p: seq<nat>)
    requires |qs| < n && c < d <= n && Safe(qs, c) && p in Solve(n, qs + [c])
    ensures p in Columns(n, qs, d)
    decreases d
  {
    if c < d - 1 {
      ColumnsHas(n, qs, c, d - 1, p);
      ColumnsGrow(n, qs, d - 1, p);
    } else {
      StepFree(n, qs, c);
    }
  }

  lemma ColumnsGrow(n: nat, qs: seq<nat>, c: nat, p: seq<nat>)
    requires |qs| < n && c < n && p in Columns(n, qs, c)
    ensures p in Columns(n, qs, c + 1)
  {
  }

  /** The search emits exactly the full placements. */
  lemma SolveExactly(n: nat, p: seq<nat>)
    ensures p in Solve(n, []) <==> |p| == n && Placement(n, p)
  {
    if p in Solve(n, []) {
      SolveSound(n, p);
    } else if |p| == n && Placement(n, p) {
      SolveComplete(n, [], p);
    }
  }

  /** `a` comes before `b` in column-lexicographic order: they agree up to
      a row where `a`'s queen is further left. */
  predicate LexBefore(a: seq<nat>, b: seq<nat>)
  {
    exists k :: 0 <= k < |a| && k < |b| && a[..k] == b[..k] && a[k] < b[k]
  }

  ghost predicate LexOrdered(ps: seq<seq<nat>>)
  {
    forall i, j :: 0 <= i < j < |ps| ==> LexBefore(ps[i], ps[j])
  }

  /** The solutions come out in strictly increasing column-lexicographic
      order, so none is emitted twice. */
  lemma {:induction false} SolveOrdered(n: nat, qs: seq<nat>)
    requires |qs| <= n
    ensures LexOrdered(Solve(n, qs))
    decreases n - |qs|, 1, 0
  {
    if |qs| < n {
      ColumnsOrdered(n, qs, n);
    }
  }

  lemma {:induction false} ColumnsOrdered(n: nat, qs: seq<nat>, c: nat)
    requires |qs| < n && c <= n
    ensures LexOrdered(Columns(n, qs, c))
    decreases n - |qs|, 0, c
  {
    if c > 0 {
      ColumnsOrdered(n, qs, c - 1);
      ColumnsExtends(n, qs, c - 1);
      if Safe(qs, c - 1) {
        var q := qs + [c - 1];
        SolveOrdered(n, q);
        SolveExtends(n, q);
        forall y | y in Solve(n, q) ensures y[..|qs|] == qs && y[|qs|] == c - 1 {
          assert y[..|q|] == q;
          assert y[..|qs|] == q[..|qs|];
        }
        ConcatOrdered(Columns(n, qs, c - 1), Solve(n, q), qs, c - 1);
      } else {
        assert Columns(n, qs, c) == Columns(n, qs, c - 1) + [];
      }
    }
  }

  /** Sequences of solutions that all extend `qs`, the first through columns
      left of `c` and the second through `c`, concatenate in order. */
  lemma ConcatOrdered(a: seq<seq<nat>>, b: seq<seq<nat>>, qs: seq<nat>, c: nat)
    requires LexOrdered(a) && LexOrdered(b)
    requires forall x :: x in a ==> |x| > |qs| && x[..|qs|] == qs && x[|qs|] < c
    requires forall y :: y in b ==> |y| > |qs| && y[..|qs|] == qs && y[|qs|] == c
    ensures LexOrdered(a + b)
  {
    forall i, j | 0 <= i < j < |a + b| ensures LexBefore((a + b)[i], (a + b)[j]) {
      if j < |a| {
        assert (a + b)[i] == a[i] && (a + b)[j] == a[j];
      } else if i >= |a| {
        assert (a + b)[i] == b[i - |a|] && (a + b)[j] == b[j - |a|];
      } else {
        var x, y := a[i], b[j - |a|];
        assert (a + b)[i] == x && (a + b)[j] == y;
        assert x in a && y in b;
        var k := |qs|;
        assert 0 <= k < |x| && k < |y| && x[..k] == y[..k] && x[k] < y[k];
      }
    }
  }

  /** Board `board` holds exactly the queens of `qs`. */
  ghost predicate Encodes(board: array2<bool>, n: nat, qs: seq<nat>)
    reads board
  {
    board.Length0 == n && board.Length1 == n && |qs| <= n &&
    (forall i :: 0 <= i < |qs| ==> qs[i] < n) &&
    forall i, j :: 0 <= i < n && 0 <= j < n ==> (board[i, j] <==> i < |qs| && qs[i] == j)
  }

  /** `is_valid(board, row, col)`: no queen in the rows above `row` shares
      a column or a diagonal with (`row`, `col`).  Only those rows are read.
      */
  method IsValid(board: array2<bool>, row: nat, col: nat) returns (ok: bool)
    requires board.Length0 == board.Length1 && row <= board.Length0 && col < board.Length1
    ensures ok <==> forall i, j :: 0 <= i < row && 0 <= j < board.Length1 && board[i, j] ==> Free(row, col, i, j)
  {
    var n := board.Length0;
    for i := 0 to row
      invariant forall i', j :: 0 <= i' < i && 0 <= j < n && board[i', j] ==> Free(row, col, i', j)
    {
      var d := row - i;
      if board[i, col] || (d <= col && board[i, col - d]) || (col + d < n && board[i, col + d]) {
        if board[i, col] {
          assert !Free(row, col, i, col);
        } else if d <= col && board[i, col - d] {
          assert !Free(row, col, i, col - d);
        } else {
          assert !Free(row, col, i, col + d);
        }
        return false;
      }
      forall j | 0 <= j < n && board[i, j] ensures Free(row, col, i, j) {
        assert j != col && j != col - d && j != col + d;
      }
    }
    return true;
  }

  /** On a board holding `qs`, `is_valid` decides `Safe`. */
  lemma ValidIsSafe(board: array2<bool>, n: nat, qs: seq<nat>, col: nat)
    requires Encodes(board, n, qs) && |qs| < n && col < n
    ensures (forall i, j :: 0 <= i < |qs| && 0 <= j < n && board[i, j] ==> Free(|qs|, col, i, j)) <==> Safe(qs, col)
  {
    if Safe(qs, col) {
      forall i, j | 0 <= i < |qs| && 0 <= j < n && board[i, j] ensures Free(|qs|, col, i, j) {
        assert qs[i] == j;
      }
    } else {
      var i :| 0 <= i < |qs| && !Free(|qs|, col, i, qs[i]);
      assert board[i, qs[i]];
    }
  }

  /** The row strings of a board. */
  function RowString(board: array2<bool>, i: nat): (r: string)
    requires i < board.Length0
    reads board
    ensures |r| == board.Length1
    ensures forall j :: 0 <= j < board.Length1 ==> (r[j] == 'Q' <==> board[i, j]) && r[j] in "Q."
  {
    seq(board.Length1, j requires 0 <= j < board.Length1 reads board => if board[i, j] then 'Q' else '.')
  }

  /** `board_to_string`: one string per row, `'Q'` for a queen and `'.'`
      for an empty square. */
  function BoardToString(board: array2<bool>): (r: seq<string>)
    reads board
    ensures |r| == board.Length0
    ensures forall i :: 0 <= i < board.Length0 ==> r[i] == RowString(board, i)
  {
    seq(board.Length0, i requires 0 <= i < board.Length0 reads board => RowString(board, i))
  }

  /** The strings of a full placement. */
  function Render(n: nat, p: seq<nat>): (r: seq<string>)
    ensures |r| == |p| && forall i :: 0 <= i < |p| ==> r[i] == RowOf(n, p[i])
  {
    seq(|p|, i requires 0 <= i < |p| => RowOf(n, p[i]))
  }

  /** A row of `n` squares with a queen in column `c`. */
  function RowOf(n: nat, c: nat): (r: string)
    ensures |r| == n && forall j :: 0 <= j < n ==> r[j] == if j == c then 'Q' else '.'
  {
    seq(n, j => if j == c then 'Q' else '.')
  }

  /** Each rendered row has `n` squares and, for a placement, exactly one
      queen, in the column the placement gives. */
  lemma RenderRows(n: nat, p: seq<nat>)
    requires Placement(n, p)
    ensures forall i :: 0 <= i < |p| ==> |Render(n, p)[i]| == n && Render(n, p)[i][p[i]] == 'Q'
    ensures forall i, j :: 0 <= i < |p| && 0 <= j < n && j != p[i] ==> Render(n, p)[i][j] == '.'
  {
  }

  /** Rendering tells placements apart, so distinct solutions give distinct
      boards. */
  lemma RenderInjective(n: nat, p: seq<nat>, q: seq<nat>)
    requires Placement(n, p) && Placement(n, q) && Render(n, p) == Render(n, q)
    ensures p == q
  {
    assert |p| == |q|;
    forall i | 0 <= i < |p| ensures p[i] == q[i] {
      assert Render(n, p)[i][p[i]] == 'Q';
      assert Render(n, q)[i][p[i]] == 'Q';
    }
  }

  function RenderAll(n: nat, ps: seq<seq<nat>>): (r: seq<seq<string>>)
    ensures |r| == |ps| && forall k :: 0 <= k < |ps| ==> r[k] == Render(n, ps[k])
  {
    seq(|ps|, k requires 0 <= k < |ps| => Render(n, ps[k]))
  }

  lemma RenderAllConcat(n: nat, ps: seq<seq<nat>>, qs: seq<seq<nat>>)
    ensures RenderAll(n, ps + qs) == RenderAll(n, ps) + RenderAll(n, qs)
  {
  }

  /** A full board renders as its placement. */
  lemma BoardRenders(board: array2<bool>, n: nat, qs: seq<nat>)
    requires Encodes(board, n, qs) && |qs| == n
    ensures BoardToString(board) == Render(n, qs)
  {
    var r := BoardToString(board);
    forall i | 0 <= i < n ensures r[i] == Render(n, qs)[i] {
      forall j | 0 <= j < n ensures r[i][j] == Render(n, qs)[i][j] {
        assert RowString(board, i)[j] == 'Q' <==> board[i, j];
      }
    }
  }

  /** `board[cur_row][col] = true`: the queen of the next row goes in
      column `col`. */
  method PlaceQueen(board: array2<bool>, n: nat, row: nat, ghost qs: seq<nat>, col: nat)
    requires Encodes(board, n, qs) && row == |qs| < n && col < n
    modifies board
    ensures Encodes(board, n, qs + [col])
  {
    board[row, col] := true;
    forall i, j | 0 <= i < n && 0 <= j < n
      ensures board[i, j] <==> i < |qs + [col]| && (qs + [col])[i] == j
    {
      if i < |qs| {
        assert (qs + [col])[i] == qs[i];
      }
    }
  }

  /** `board[cur_row][col] = false`: the placement is undone. */
  method RemoveQueen(board: array2<bool>, n: nat, row: nat, ghost qs: seq<nat>, col: nat)
    requires row == |qs| < n && col < n && Encodes(board, n, qs + [col])
    modifies board
    ensures Encodes(board, n, qs)
  {
    board[row, col] := false;
    forall i, j | 0 <= i < n && 0 <= j < n
      ensures board[i, j] <==> i < |qs| && qs[i] == j
    {
      if i < |qs| {
        assert (qs + [col])[i] == qs[i];
      }
    }
    assert forall i :: 0 <= i < |qs| ==> qs[i] == (qs + [col])[i];
  }

  /** `_backtrack_n_queens`: appends the rendered solutions from the rows
      placed so far and leaves the board as it found it. */
  method Backtrack(n: nat, curRow: nat, board: array2<bool>, solutions: seq<seq<string>>, ghost qs: seq<nat>)
    returns (solutions': seq<seq<string>>)
    requires Encodes(board, n, qs) && curRow == |qs|
    modifies board
    ensures Encodes(board, n, qs)
    ensures solutions' == solutions + RenderAll(n, Solve(n, qs))
    decreases n - curRow
  {
    if curRow == n {
      BoardRenders(board, n, qs);
      return solutions + [BoardToString(board)];
    }
    solutions' := solutions;
    for col := 0 to n
      invariant Encodes(board, n, qs)
      invariant solutions' == solutions + RenderAll(n, Columns(n, qs, col))
    {
      var ok := IsValid(board, curRow, col);
      ValidIsSafe(board, n, qs, col);
      if ok {
        PlaceQueen(board, n, curRow, qs, col);
        solutions' := Backtrack(n, curRow + 1, board, solutions', qs + [col]);
        RemoveQueen(board, n, curRow, qs, col);
      }
      RenderAllConcat(n, Columns(n, qs, col), if ok then Solve(n, qs + [col]) else []);
    }
  }

  /** `solve_n_queens`: the rendered full placements, in column-lexicographic
      order. */
  method SolveNQueens(n: nat) returns (solutions: seq<seq<string>>)
    ensures solutions == RenderAll(n, Solve(n, []))
  {
    var board := new bool[n, n]((i, j) => false);
    solutions := Backtrack(n, 0, board, [], []);
  }

  /** The source's tests for `n <= 4`. */
  lemma NoQueens()
    ensures Solve(0, []) == [[]] && RenderAll(0, Solve(0, [])) == [[]]
  {
  }

  lemma OneQueen()
    ensures Solve(1, []) == [[0]] && RenderAll(1, Solve(1, [])) == [["Q"]]
  {
    assert [] + [0] == [0];
    assert Solve(1, [0]) == [[0]];
    assert Columns(1, [], 1) == Columns(1, [], 0) + Solve(1, [0]);
    assert Render(1, [0]) == ["Q"] by {
      assert Render(1, [0])[0] == "Q";
    }
    assert RenderAll(1, [[0]]) == [["Q"]];
  }

  /** One column of the search, for evaluating it on small boards: a free
      column adds its solutions, an attacked one adds nothing. */
  lemma StepFree(n: nat, qs: seq<nat>, c: nat)
    requires |qs| < n && c < n && Safe(qs, c)
    ensures Columns(n, qs, c + 1) == Columns(n, qs, c) + Solve(n, qs + [c])
  {
  }

  lemma StepAttacked(n: nat, qs: seq<nat>, c: nat, i: nat)
    requires |qs| < n && c < n && i < |qs| && !Free(|qs|, c, i, qs[i])
    ensures Columns(n, qs, c + 1) == Columns(n, qs, c)
  {
  }

  lemma SafeAt1(qs: seq<nat>, c: nat)
    requires |qs| == 1 && Free(1, c, 0, qs[0])
    ensures Safe(qs, c)
  {
  }

  lemma SafeAt2(qs: seq<nat>, c: nat)
    requires |qs| == 2 && Free(2, c, 0, qs[0]) && Free(2, c, 1, qs[1])
    ensures Safe(qs, c)
  {
  }

  lemma SafeAt3(qs: seq<nat>, c: nat)
    requires |qs| == 3 && Free(3, c, 0, qs[0]) && Free(3, c, 1, qs[1]) && Free(3, c, 2, qs[2])
    ensures Safe(qs, c)
  {
  }

  lemma SafeAt4(qs: seq<nat>, c: nat)
    requires |qs| == 4 && Free(4, c, 0, qs[0]) && Free(4, c, 1, qs[1]) && Free(4, c, 2, qs[2]) && Free(4, c, 3, qs[3])
    ensures Safe(qs, c)
  {
  }

  lemma SafeAt5(qs: seq<nat>, c: nat)
    requires |qs| == 5 && Free(5, c, 0, qs[0]) && Free(5, c, 1, qs[1]) && Free(5, c, 2, qs[2]) && Free(5, c, 3, qs[3]) && Free(5, c, 4, qs[4])
    ensures Safe(qs, c)
  {
  }

  /** The source's tests for two and three queens: no solution. */
  lemma NoSolutionsTwoThree()
    ensures Solve(2, []) == [] && Solve(3, []) == []
  {
    Search2([]);
    Search3([]);
  }

  /** The source's test for four queens: two boards. */
  lemma FourQueens()
    ensures Solve(4, []) == [[1, 3, 0, 2], [2, 0, 3, 1]]
    ensures RenderAll(4, Solve(4, [])) ==
              [[".Q..", "...Q", "Q...", "..Q."], ["..Q.", "Q...", "...Q", ".Q.."]]
  {
    Search4([]);
    var r := RenderAll(4, [[1, 3, 0, 2], [2, 0, 3, 1]]);
    assert r[0] == [".Q..", "...Q", "Q...", "..Q."] by {
      assert r[0][0] == ".Q.." && r[0][1] == "...Q" && r[0][2] == "Q..." && r[0][3] == "..Q.";
    }
    assert r[1] == ["..Q.", "Q...", "...Q", ".Q.."] by {
      assert r[1][0] == "..Q." && r[1][1] == "Q..." && r[1][2] == "...Q" && r[1][3] == ".Q..";
    }
  }

  lemma Search2(qs: seq<nat>)
    requires qs == []
    ensures Solve(2, qs) == []
  {
    StepFree(2, qs, 0);
    Search2_0(qs + [0]);
    StepFree(2, qs, 1);
    Search2_1(qs + [1]);
  }

  lemma Search2_0(qs: seq<nat>)
    requires qs == [0]
    ensures Solve(2, qs) == []
  {
    StepAttacked(2, qs, 0, 0);
    StepAttacked(2, qs, 1, 0);
  }

  lemma Search2_1(qs: seq<nat>)
    requires qs == [1]
    ensures Solve(2, qs) == []
  {
    StepAttacked(2, qs, 0, 0);
    StepAttacked(2, qs, 1, 0);
  }

  lemma Search3(qs: seq<nat>)
    requires qs == []
    ensures Solve(3, qs) == []
  {
    StepFree(3, qs, 0);
    Search3_0(qs + [0]);
    StepFree(3, qs, 1);
    Search3_1(qs + [1]);
    StepFree(3, qs, 2);
    Search3_2(qs + [2]);
  }

  lemma Search3_0(qs: seq<nat>)
    requires qs == [0]
    ensures Solve(3, qs) == []
  {
    StepAttacked(3, qs, 0, 0);
    StepAttacked(3, qs, 1, 0);
    SafeAt1(qs, 2);
    StepFree(3, qs, 2);
    Search3_0_2(qs + [2]);
  }

  lemma Search3_0_2(qs: seq<nat>)
    requires qs == [0, 2]
    ensures Solve(3, qs) == []
  {
    StepAttacked(3, qs, 0, 0);
    StepAttacked(3, qs, 1, 1);
    StepAttacked(3, qs, 2, 0);
  }

  lemma Search3_1(qs: seq<nat>)
    requires qs == [1]
    ensures Solve(3, qs) == []
  {
    StepAttacked(3, qs, 0, 0);
    StepAttacked(3, qs, 1, 0);
    StepAttacked(3, qs, 2, 0);
  }

  lemma Search3_2(qs: seq<nat>)
    requires qs == [2]
    ensures Solve(3, qs) == []
  {
    SafeAt1(qs, 0);
    StepFree(3, qs, 0);
    Search3_2_0(qs + [0]);
    StepAttacked(3, qs, 1, 0);
    StepAttacked(3, qs, 2, 0);
  }

  lemma Search3_2_0(qs: seq<nat>)
    requires qs == [2, 0]
    ensures Solve(3, qs) == []
  {
    StepAttacked(3, qs, 0, 0);
    StepAttacked(3, qs, 1, 1);
    StepAttacked(3, qs, 2, 0);
  }

  lemma Search4(qs: seq<nat>)
    requires qs == []
    ensures Solve(4, qs) == [[1, 3, 0, 2], [2, 0, 3, 1]]
  {
    StepFree(4, qs, 0);
    Search4_0(qs + [0]);
    StepFree(4, qs, 1);
    Search4_1(qs + [1]);
    StepFree(4, qs, 2);
    Search4_2(qs + [2]);
    StepFree(4, qs, 3);
    Search4_3(qs + [3]);
  }

  lemma Search4_0(qs: seq<nat>)
    requires qs == [0]
    ensures Solve(4, qs) == []
  {
    StepAttacked(4, qs, 0, 0);
    StepAttacked(4, qs, 1, 0);
    SafeAt1(qs, 2);
    StepFree(4, qs, 2);
    Search4_0_2(qs + [2]);
    SafeAt1(qs, 3);
    StepFree(4, qs, 3);
    Search4_0_3(qs + [3]);
  }

  lemma Search4_0_2(qs: seq<nat>)
    requires qs == [0, 2]
    ensures Solve(4, qs) == []
  {
    StepAttacked(4, qs, 0, 0);
    StepAttacked(4, qs, 1, 1);
    StepAttacked(4, qs, 2, 0);
    StepAttacked(4, qs, 3, 1);
  }

  lemma Search4_0_3(qs: seq<nat>)
    requires qs == [0, 3]
    ensures Solve(4, qs) == []
  {
    StepAttacked(4, qs, 0, 0);
    SafeAt2(qs, 1);
    StepFree(4, qs, 1);
    Search4_0_3_1(qs + [1]);
    StepAttacked(4, qs, 2, 0);
    StepAttacked(4, qs, 3, 1);
  }

  lemma Search4_0_3_1(qs: seq<nat>)
    requires qs == [0, 3, 1]
    ensures Solve(4, qs) == []
  {
    StepAttacked(4, qs, 0, 0);
    StepAttacked(4, qs, 1, 1);
    StepAttacked(4, qs, 2, 2);
    StepAttacked(4, qs, 3, 0);
  }

  lemma Search4_1(qs: seq<nat>)
    requires qs == [1]
    ensures Solve(4, qs) == [[1, 3, 0, 2]]
  {
    StepAttacked(4, qs, 0, 0);
    StepAttacked(4, qs, 1, 0);
    StepAttacked(4, qs, 2, 0);
    SafeAt1(qs, 3);
    StepFree(4, qs, 3);
    Search4_1_3(qs + [3]);
  }

  lemma Search4_1_3(qs: seq<nat>)
    requires qs == [1, 3]
    ensures Solve(4, qs) == [[1, 3, 0, 2]]
  {
    SafeAt2(qs, 0);
    StepFree(4, qs, 0);
    Search4_1_3_0(qs + [0]);
    StepAttacked(4, qs, 1, 0);
    StepAttacked(4, qs, 2, 1);
    StepAttacked(4, qs, 3, 0);
  }

  lemma Search4_1_3_0(qs: seq<nat>)
    requires qs == [1, 3, 0]
    ensures Solve(4, qs) == [[1, 3, 0, 2]]
  {
    StepAttacked(4, qs, 0, 2);
    StepAttacked(4, qs, 1, 0);
    SafeAt3(qs, 2);
    StepFree(4, qs, 2);
    assert qs + [2] == [1, 3, 0, 2];
    StepAttacked(4, qs, 3, 1);
  }

  lemma Search4_2(qs: seq<nat>)
    requires qs == [2]
    ensures Solve(4, qs) == [[2, 0, 3, 1]]
  {
    SafeAt1(qs, 0);
    StepFree(4, qs, 0);
    Search4_2_0(qs + [0]);
    StepAttacked(4, qs, 1, 0);
    StepAttacked(4, qs, 2, 0);
    StepAttacked(4, qs, 3, 0);
  }

  lemma Search4_2_0(qs: seq<nat>)
    requires qs == [2, 0]
    ensures Solve(4, qs) == [[2, 0, 3, 1]]
  {
    StepAttacked(4, qs, 0, 0);
    StepAttacked(4, qs, 1, 1);
    StepAttacked(4, qs, 2, 0);
    SafeAt2(qs, 3);
    StepFree(4, qs, 3);
    Search4_2_0_3(qs + [3]);
  }

  lemma Search4_2_0_3(qs: seq<nat>)
    requires qs == [2, 0, 3]
    ensures Solve(4, qs) == [[2, 0, 3, 1]]
  {
    StepAttacked(4, qs, 0, 1);
    SafeAt3(qs, 1);
    StepFree(4, qs, 1);
    assert qs + [1] == [2, 0, 3, 1];
    StepAttacked(4, qs, 2, 0);
    StepAttacked(4, qs, 3, 2);
  }

  lemma Search4_3(qs: seq<nat>)
    requires qs == [3]
    ensures Solve(4, qs) == []
  {
    SafeAt1(qs, 0);
    StepFree(4, qs, 0);
    Search4_3_0(qs + [0]);
    SafeAt1(qs, 1);
    StepFree(4, qs, 1);
    Search4_3_1(qs + [1]);
    StepAttacked(4, qs, 2, 0);
    StepAttacked(4, qs, 3, 0);
  }

  lemma Search4_3_0(qs: seq<nat>)
    requires qs == [3, 0]
    ensures Solve(4, qs) == []
  {
    StepAttacked(4, qs, 0, 1);
    StepAttacked(4, qs, 1, 0);
    SafeAt2(qs, 2);
    StepFree(4, qs, 2);
    Search4_3_0_2(qs + [2]);
    StepAttacked(4, qs, 3, 0);
  }

  lemma Search4_3_0_2(qs: seq<nat>)
    requires qs == [3, 0, 2]
    ensures Solve(4, qs) == []
  {
    StepAttacked(4, qs, 0, 0);
    StepAttacked(4, qs, 1, 2);
    StepAttacked(4, qs, 2, 1);
    StepAttacked(4, qs, 3, 0);
  }

  lemma Search4_3_1(qs: seq<nat>)
    requires qs == [3, 1]
    ensures Solve(4, qs) == []
  {
    StepAttacked(4, qs, 0, 1);
    StepAttacked(4, qs, 1, 0);
    StepAttacked(4, qs, 2, 1);
    StepAttacked(4, qs, 3, 0);
  }

}
