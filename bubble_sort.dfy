/** `bubble_sort` of src/sorting/bubble_sort.rs: passes over a `u32` slice,
    swapping each out-of-order neighbour pair, until a pass swaps nothing.
    Termination rests on the inversion count, which every swap lowers by
    one. */
module BubbleSort {
  import opened Base
  import opened SortVectors

  /** How many elements of `s` are smaller than `x`. */
  function Smaller(x: int, s: seq<int>): nat
  {
    if s == [] then 0 else (if s[0] < x then 1 else 0) + Smaller(x, s[1..])
  }

  /** The pairs `i < j` with `s[i] > s[j]`, counted position by position. */
  function Inversions(s: seq<int>): nat
  {
    if s == [] then 0 else Smaller(s[0], s[1..]) + Inversions(s[1..])
  }

  /** Swapping two neighbours does not change how many elements are smaller
      than `x`. */
  lemma {:induction false} SmallerSwap(x: int, s: seq<int>, i: nat)
    requires i + 1 < |s|
    ensures Smaller(x, Swap(s, i, i + 1)) == Smaller(x, s)
    decreases i
  {
    var t := Swap(s, i, i + 1);
    if i == 0 {
      assert t[1..][1..] == s[1..][1..];
      assert Smaller(x, t[1..]) == (if s[0] < x then 1 else 0) + Smaller(x, s[1..][1..]);
      assert Smaller(x, s[1..]) == (if s[1] < x then 1 else 0) + Smaller(x, s[1..][1..]);
    } else {
      assert t[1..] == Swap(s[1..], i - 1, i);
      SmallerSwap(x, s[1..], i - 1);
    }
  }

  /** Swapping an inverted pair of neighbours removes exactly that one
      inversion. */
  lemma {:induction false} SwapInversions(s: seq<int>, i: nat)
    requires i + 1 < |s| && s[i] > s[i + 1]
    ensures Inversions(Swap(s, i, i + 1)) + 1 == Inversions(s)
    decreases i
  {
    var t := Swap(s, i, i + 1);
    if i == 0 {
      var rest := s[2..];
      assert s[1..] == [s[1]] + rest && t[1..] == [s[0]] + rest;
      assert s[1..][1..] == rest && t[1..][1..] == rest;
      assert Smaller(s[0], s[1..]) == 1 + Smaller(s[0], rest);
      assert Smaller(s[1], t[1..]) == Smaller(s[1], rest);
    } else {
      assert t[1..] == Swap(s[1..], i - 1, i);
      SmallerSwap(s[0], s[1..], i - 1);
      SwapInversions(s[1..], i - 1);
    }
  }

  /** One pass of the `for` loop: `swapped` reports whether any pair was
      swapped; if so the inversion count fell, otherwise nothing moved and
      every neighbour pair is in order. */
  method Pass(a: array<nat>) returns (swapped: bool)
    requires a.Length >= 2
    modifies a
    ensures multiset(a[..]) == multiset(old(a[..]))
    ensures swapped ==> Inversions(a[..]) < Inversions(old(a[..]))
    ensures !swapped ==> a[..] == old(a[..]) && AdjacentSorted(a[..])
  {
    swapped := false;
    for i := 0 to a.Length - 1
      invariant multiset(a[..]) == multiset(old(a[..]))
      invariant swapped ==> Inversions(a[..]) < Inversions(old(a[..]))
      invariant !swapped ==> a[..] == old(a[..])
      invariant !swapped ==> forall k :: 0 <= k < i ==> a[k] <= a[k + 1]
    {
      if a[i] > a[i + 1] {
        ghost var before := a[..];
        a[i], a[i + 1] := a[i + 1], a[i];
        assert a[..] == Swap(before, i, i + 1);
        SwapInversions(before, i);
        SwapPermutes(before, i, i + 1);
        swapped := true;
      }
    }
  }

  /** `bubble_sort`: the result is sorted and a permutation of the input. */
  method BubbleSort(a: array<nat>)
    modifies a
    ensures Sorted(a[..]) && multiset(a[..]) == multiset(old(a[..]))
  {
    if a.Length < 2 {
      return;
    }
    var swapped := true;
    while swapped
      invariant multiset(a[..]) == multiset(old(a[..]))
      invariant !swapped ==> AdjacentSorted(a[..])
      decreases Inversions(a[..]) + if swapped then 1 else 0
    {
      swapped := Pass(a);
    }
    AdjacentSortedIsSorted(a[..]);
  }

  /** The source's tests put a vector literal into a fresh slice and sort it. */
  method SortSeq(xs: seq<nat>) returns (r: seq<nat>)
    ensures Sorted(r) && multiset(r) == multiset(xs)
  {
    var a := new nat[|xs|](i requires 0 <= i < |xs| => xs[i]);
    assert a[..] == xs;
    BubbleSort(a);
    r := a[..];
  }

  /** The source's test: three inputs and the empty one. */
  method Examples() returns (r1: seq<nat>, r2: seq<nat>, r3: seq<nat>, r4: seq<nat>)
    ensures r1 == [1, 2, 3, 4, 5, 6] && r2 == [1, 2, 3, 4, 5, 6]
    ensures r3 == [1, 10, 20, 30, 60, 100, 120] && r4 == []
  {
    r1 := SortSeq([6, 5, 4, 3, 2, 1]);
    SortsDescendingSix(r1);
    r2 := SortSeq([1, 2, 3, 4, 5, 6]);
    SortsAscendingSix(r2);
    r3 := SortSeq([100, 30, 60, 10, 20, 120, 1]);
    SortsMixedSeven(r3);
    r4 := SortSeq([]);
  }
}
