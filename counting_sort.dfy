/** `counting_sort` of src/sorting/counting_sort.rs: one count per value
    `0..=maxval`, then the slice is overwritten value by value, each as
    many times as it was counted.  Every input value must be at most
    `maxval`: a larger one indexes past the counts and panics. */
module CountingSort {
  import opened Base
  import opened SortVectors

  /** `k` copies of `v`. */
  function Block(v: nat, k: nat): (r: seq<nat>)
    ensures |r| == k && forall i :: 0 <= i < k ==> r[i] == v
  {
    seq(k, _ => v)
  }

  /** The values below `v`, each repeated as often as it occurs in `s`: the
      slice after the placement loop has handled the values `0..v`. */
  function Layout(s: seq<nat>, v: nat): seq<nat>
  {
    if v == 0 then [] else Layout(s, v - 1) + Block(v - 1, multiset(s)[v - 1])
  }

  /** How many elements of `s` are below `v`. */
  function Below(s: seq<nat>, v: nat): nat
  {
    if s == [] then 0 else (if s[0] < v then 1 else 0) + Below(s[1..], v)
  }

  lemma {:induction false} BelowStep(s: seq<nat>, v: nat)
    ensures Below(s, v + 1) == Below(s, v) + multiset(s)[v]
  {
    if s != [] {
      assert s == [s[0]] + s[1..];
      assert multiset(s)[v] == (if s[0] == v then 1 else 0) + multiset(s[1..])[v];
      BelowStep(s[1..], v);
    }
  }

  lemma {:induction false} BelowAll(s: seq<nat>, v: nat)
    requires forall x :: x in s ==> x < v
    ensures Below(s, v) == |s|
  {
    if s != [] {
      assert s[0] in s && forall x :: x in s[1..] ==> x in s;
      BelowAll(s[1..], v);
    }
  }

  lemma {:induction false} BelowBound(s: seq<nat>, v: nat)
    ensures Below(s, v) <= |s|
  {
    if s != [] {
      BelowBound(s[1..], v);
    }
  }

  /** The layout of the values below `v` has one slot per element below
      `v`. */
  lemma {:induction false} LayoutLength(s: seq<nat>, v: nat)
    ensures |Layout(s, v)| == Below(s, v)
  {
    if v == 0 {
      if s != [] {
        BelowZero(s);
      }
    } else {
      LayoutLength(s, v - 1);
      BelowStep(s, v - 1);
    }
  }

  lemma {:induction false} BelowZero(s: seq<nat>)
    ensures Below(s, 0) == 0
  {
    if s != [] {
      BelowZero(s[1..]);
    }
  }

  lemma {:induction false} BlockCount(v: nat, k: nat, x: nat)
    ensures multiset(Block(v, k))[x] == if x == v then k else 0
  {
    if k > 0 {
      assert Block(v, k) == Block(v, k - 1) + [v];
      BlockCount(v, k - 1, x);
    }
  }

  /** The layout holds each value below `v` exactly as often as `s` does,
      and nothing else. */
  lemma {:induction false} LayoutCount(s: seq<nat>, v: nat, x: nat)
    ensures multiset(Layout(s, v))[x] == if x < v then multiset(s)[x] else 0
  {
    if v > 0 {
      LayoutCount(s, v - 1, x);
      BlockCount(v - 1, multiset(s)[v - 1], x);
    }
  }

  /** The layout lists smaller values first. */
  lemma {:induction false} LayoutSorted(s: seq<nat>, v: nat)
    ensures Sorted(Layout(s, v)) && forall x :: x in Layout(s, v) ==> x < v
  {
    if v > 0 {
      LayoutSorted(s, v - 1);
      var l := Layout(s, v - 1);
      var b := Block(v - 1, multiset(s)[v - 1]);
      forall i, j | 0 <= i < j < |l + b| ensures (l + b)[i] <= (l + b)[j] {
        if j >= |l| {
          assert (l + b)[j] == b[j - |l|];
          if i < |l| {
            assert (l + b)[i] == l[i] && l[i] in l;
          }
        }
      }
    }
  }

  /** When every value is below `v`, the layout is a permutation of `s`. */
  lemma LayoutPermutes(s: seq<nat>, v: nat)
    requires forall x :: x in s ==> x < v
    ensures multiset(Layout(s, v)) == multiset(s)
  {
    forall x ensures multiset(Layout(s, v))[x] == multiset(s)[x] {
      if x < 0 {
        assert x !in s && x !in Layout(s, v);
      } else {
        LayoutCount(s, v, x);
        if x >= v {
          assert x !in s;
        }
      }
    }
  }

  /** When every value is below `n`, the layout of the values below `n` is
      the sorted permutation of `s`. */
  lemma LayoutSorts(s: seq<nat>, n: nat)
    requires forall x :: x in s ==> x < n
    ensures |Layout(s, n)| == |s|
    ensures Sorted(Layout(s, n)) && multiset(Layout(s, n)) == multiset(s)
  {
    LayoutLength(s, n);
    BelowAll(s, n);
    LayoutSorted(s, n);
    LayoutPermutes(s, n);
  }

  /** The counting loop: `occ[v]` is how often `v` occurs. */
  method Count(a: array<nat>, maxval: nat) returns (occ: array<nat>)
    requires forall k :: 0 <= k < a.Length ==> a[k] <= maxval
    ensures fresh(occ) && occ.Length == maxval + 1
    ensures forall v :: 0 <= v <= maxval ==> occ[v] == multiset(a[..])[v]
  {
    occ := new nat[maxval + 1](_ => 0);
    for k := 0 to a.Length
      invariant forall v :: 0 <= v <= maxval ==> occ[v] == multiset(a[..k])[v]
    {
      assert a[..k + 1] == a[..k] + [a[k]];
      occ[a[k]] := occ[a[k]] + 1;
    }
    assert a[..a.Length] == a[..];
  }

  /** The `for _ in 0..occ` loop: `k` copies of `v` from slot `i` on. */
  method Fill(a: array<nat>, i: nat, v: nat, k: nat)
    requires i + k <= a.Length
    modifies a
    ensures a[..i + k] == old(a[..i]) + Block(v, k)
  {
    for c := 0 to k
      invariant a[..i + c] == old(a[..i]) + Block(v, c)
    {
      assert Block(v, c + 1) == Block(v, c) + [v];
      a[i + c] := v;
      assert a[..i + c + 1] == a[..i + c] + [v];
    }
  }

  /** The placement loop: the slice is overwritten with the layout of the
      counted values. */
  method Place(a: array<nat>, occ: array<nat>, ghost s: seq<nat>)
    requires occ != a && occ.Length >= 1 && a.Length == |s| && forall x :: x in s ==> x < occ.Length
    requires forall w: nat :: w < occ.Length ==> occ[w] == multiset(s)[w]
    modifies a
    ensures a[..] == Layout(s, occ.Length)
  {
    var i := 0;
    for v := 0 to occ.Length
      invariant i == |Layout(s, v)| <= a.Length
      invariant a[..i] == Layout(s, v)
    {
      LayoutLength(s, v + 1);
      BelowBound(s, v + 1);
      Fill(a, i, v, occ[v]);
      i := i + occ[v];
    }
    LayoutLength(s, occ.Length);
    BelowAll(s, occ.Length);
    assert a[..] == a[..i];
  }

  /** `counting_sort`: the slice ends as the layout of its values, which is
      sorted and a permutation of the input. */
  method CountingSort(a: array<nat>, maxval: nat)
    requires forall k :: 0 <= k < a.Length ==> a[k] <= maxval
    modifies a
    ensures a[..] == Layout(old(a[..]), maxval + 1)
    ensures Sorted(a[..]) && multiset(a[..]) == multiset(old(a[..]))
  {
    ghost var s: seq<nat> := a[..];
    var occ := Count(a, maxval);
    Place(a, occ, s);
    LayoutSorts(s, maxval + 1);
  }

  method SortSeq(xs: seq<nat>, maxval: nat) returns (r: seq<nat>)
    requires forall x :: x in xs ==> x <= maxval
    ensures Sorted(r) && multiset(r) == multiset(xs)
  {
    var a := new nat[|xs|](i requires 0 <= i < |xs| => xs[i]);
    assert a[..] == xs;
    assert forall k :: 0 <= k < a.Length ==> a[k] in xs;
    CountingSort(a, maxval);
    r := a[..];
  }

  /** The source's test, first input. */
  method SortsDescending() returns (r: seq<nat>)
    ensures r == [1, 2, 3, 4, 5, 6]
  {
    r := SortSeq([6, 5, 4, 3, 2, 1], 6);
    SortsDescendingSix(r);
  }

  /** The source's test, second input. */
  method SortsAscending() returns (r: seq<nat>)
    ensures r == [1, 2, 3, 4, 5, 6]
  {
    r := SortSeq([1, 2, 3, 4, 5, 6], 6);
    SortsAscendingSix(r);
  }

  /** The source's test, third input, with the bound 120. */
  method SortsMixed() returns (r: seq<nat>)
    ensures r == [1, 10, 20, 30, 60, 100, 120]
  {
    r := SortSeq([100, 30, 60, 10, 20, 120, 1], 120);
    SortsMixedSeven(r);
  }
}
