/** `insertion_sort` of src/sorting/insertion_sort.rs, as written.  Its inner
    loop copies `input[j - 1]` over `input[j]` instead of swapping the two,
    so the element being inserted is lost: each turn of the outer loop
    leaves at `i` the larger of `input[i - 1]` and `input[i]`, and the slice
    ends as the running maximum of the input.  (The file is not declared
    in src/sorting/mod.rs, so its test is never compiled.) */
module InsertionSort {
  import opened Base

  /** The running maximum: element `i` is the largest of `s[..i + 1]`. */
  function RunMax(s: seq<nat>): (r: seq<nat>)
    ensures |r| == |s|
  {
    if s == [] then []
    else
      var p := RunMax(s[..|s| - 1]);
      var x := s[|s| - 1];
      p + [if p != [] && p[|p| - 1] > x then p[|p| - 1] else x]
  }

  /** Each entry of the running maximum bounds the prefix up to it and is
      one of its elements. */
  lemma {:induction false} RunMaxIsMax(s: seq<nat>)
    ensures forall i, k :: 0 <= k <= i < |s| ==> s[k] <= RunMax(s)[i]
    ensures forall i :: 0 <= i < |s| ==> RunMax(s)[i] in s[..i + 1]
  {
    if s != [] {
      var n := |s| - 1;
      var t := s[..n];
      RunMaxIsMax(t);
      var r, rt := RunMax(s), RunMax(t);
      assert r == rt + [r[n]];
      assert n > 0 ==> s[n] <= r[n] && rt[n - 1] <= r[n];
      forall i, k | 0 <= k <= i < |s| ensures s[k] <= r[i] {
        if i < n {
          assert r[i] == rt[i] && s[k] == t[k];
        } else if k < n {
          assert s[k] == t[k] && t[k] <= rt[n - 1];
        }
      }
      forall i | 0 <= i < |s| ensures r[i] in s[..i + 1] {
        if i < n {
          assert r[i] == rt[i] && s[..i + 1] == t[..i + 1];
        } else if r[n] != s[n] {
          assert r[n] == rt[n - 1] && rt[n - 1] in t[..n];
          assert t[..n] == s[..n];
        }
      }
    }
  }

  lemma {:induction false} RunMaxSorted(s: seq<nat>)
    ensures Sorted(RunMax(s))
  {
    if s != [] {
      var t := s[..|s| - 1];
      RunMaxSorted(t);
      var r := RunMax(s);
      assert forall i :: 0 <= i < |t| ==> r[i] == RunMax(t)[i];
    }
  }

  /** Extending the input extends the running maximum. */
  lemma RunMaxPrefix(s: seq<nat>, i: nat)
    requires i < |s|
    ensures RunMax(s[..i + 1]) == RunMax(s[..i]) + [if i > 0 && RunMax(s[..i])[i - 1] > s[i] then RunMax(s[..i])[i - 1] else s[i]]
  {
    assert s[..i + 1][..i] == s[..i];
  }

  /** The input comes back unchanged exactly when it is already sorted. */
  lemma {:induction false} RunMaxFixesSorted(s: seq<nat>)
    ensures RunMax(s) == s <==> Sorted(s)
  {
    RunMaxSorted(s);
    if Sorted(s) && s != [] {
      var t := s[..|s| - 1];
      assert Sorted(t);
      RunMaxFixesSorted(t);
      if |t| > 0 {
        assert t[|t| - 1] <= s[|s| - 1];
      }
      assert s == t + [s[|s| - 1]];
    }
  }

  /** One turn of the outer loop, on values: the larger of the entries at
      `i - 1` and `i` extends the running maximum by one. */
  lemma RunMaxStep(s: seq<nat>, i: nat, b: seq<nat>)
    requires 1 <= i < |s| && b == RunMax(s[..i]) + s[i..]
    ensures b[i := if b[i - 1] > b[i] then b[i - 1] else b[i]] == RunMax(s[..i + 1]) + s[i + 1..]
  {
    RunMaxPrefix(s, i);
    assert s[i..] == [s[i]] + s[i + 1..];
    assert b[i - 1] == RunMax(s[..i])[i - 1] && b[i] == s[i];
  }

  /** The inner `while` loop on a prefix already in order: it copies at
      most once, leaving at `i` the larger of `a[i - 1]` and `a[i]`. */
  method Shift(a: array<nat>, i: nat)
    requires 1 <= i < a.Length && Sorted(a[..i])
    modifies a
    ensures a[..] == old(a[..])[i := if a[i - 1] > old(a[i]) then a[i - 1] else old(a[i])]
  {
    var j := i;
    while j > 0 && a[j - 1] > a[j]
      invariant i - 1 <= j <= i
      invariant j == i ==> a[..] == old(a[..])
      invariant j == i - 1 ==> a[..] == old(a[..])[i := a[i - 1]] && old(a[i - 1]) > old(a[i])
      decreases j
    {
      a[j] := a[j - 1];
      j := j - 1;
      if j > 0 {
        assert a[j - 1] == old(a[..])[j - 1] && a[j] == old(a[..])[j];
      }
    }
  }

  /** `insertion_sort` as written: the slice becomes its running maximum. */
  method InsertionSort(a: array<nat>)
    modifies a
    ensures a[..] == RunMax(old(a[..]))
  {
    ghost var s := a[..];
    var i := 1;
    while i < a.Length
      invariant a.Length == |s| && 1 <= i
      invariant a.Length == 0 || (i <= a.Length && a[..] == RunMax(s[..i]) + s[i..])
    {
      RunMaxSorted(s[..i]);
      assert a[..i] == RunMax(s[..i]);
      ghost var b := a[..];
      RunMaxStep(s, i, b);
      Shift(a, i);
      i := i + 1;
    }
    if a.Length > 0 {
      assert s[..i] == s;
    }
  }

  /** The source's test inputs: the ones it expects sorted come back
      as their running maximum, and only the sorted and the empty input are
      returned as the test expects. */
  lemma DescendingFills()
    ensures RunMax([6, 5, 4, 3, 2, 1]) == [6, 6, 6, 6, 6, 6]
  {
    assert [6, 5, 4, 3, 2, 1][..5] == [6, 5, 4, 3, 2];
    assert [6, 5, 4, 3, 2][..4] == [6, 5, 4, 3];
    assert [6, 5, 4, 3][..3] == [6, 5, 4];
    assert [6, 5, 4][..2] == [6, 5];
    assert [6, 5][..1] == [6];
    assert [6][..0] == [];
  }

  lemma DescendingLosesElements()
    ensures multiset(RunMax([6, 5, 4, 3, 2, 1])) != multiset([6, 5, 4, 3, 2, 1])
  {
    DescendingFills();
    assert 1 in multiset([6, 5, 4, 3, 2, 1]);
    assert 1 !in multiset([6, 6, 6, 6, 6, 6]);
  }

  lemma SortedKept()
    ensures RunMax([1, 2, 3, 4, 5, 6]) == [1, 2, 3, 4, 5, 6] && RunMax([]) == []
  {
    RunMaxFixesSorted([1, 2, 3, 4, 5, 6]);
  }
}
