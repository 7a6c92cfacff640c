/** `quick_sort` of src/sorting/quick_sort.rs on the slice `a[lo..hi]`.
    The partition scans `left` up past elements below the pivot and `right`
    down past elements above it, then either steps both past a pair equal
    to the pivot or swaps the pair, keeping `pivot_idx` on the pivot's
    value.  It then recurses on `[lo, left)` and `[left, hi)`.

    `left` can stay at `lo`, and then the second call is on the whole slice
    again.  That happens only when the slice starts with its minimum after
    the partition, and a partition of a slice that starts with its minimum
    always moves `left`.  So each call is smaller than its caller in the
    pair (length, 0 if the slice starts with its minimum and 1 otherwise),
    ordered lexicographically. */
module QuickSort {
  import opened Base
  import opened SortVectors

  /** The slice `a[lo..hi]` starts with its minimum. */
  ghost predicate MinFirst(s: seq<int>, lo: nat, hi: nat)
    requires lo <= hi <= |s|
  {
    lo < hi && forall k :: lo <= k < hi ==> s[lo] <= s[k]
  }

  /** The bundle of facts the partition loop keeps, for the pivot value
      `p`, the minimum `m` of the slice when `m0` says it came first, and
      the witnesses `wl` and `wr` that stop the two scans. */
  ghost predicate Scanned(s: seq<int>, lo: nat, hi: nat, left: int, right: int, pivot: int, p: int, wl: int, wr: int)
  {
    lo <= left <= wl < hi <= |s| && lo <= wr <= right < hi && left <= right + 1
    && lo <= pivot < hi && s[pivot] == p && p <= s[wl] && s[wr] <= p
    && (forall k :: lo <= k < left ==> s[k] <= p)
    && (forall k :: right < k < hi ==> p <= s[k])
  }

  ghost predicate MinKept(s: seq<int>, lo: nat, hi: nat, left: int, m0: bool, m: int, wr: int)
    requires lo <= hi <= |s|
  {
    m0 ==> (forall k :: lo <= k < hi ==> m <= s[k]) && (left > lo || (lo < hi && s[lo] == m && wr > lo))
  }

  /** `while range[left] < range[pivot_idx]`: stops at the first element
      from `left` on that is at least the pivot, at `wl` at the latest. */
  method ScanUp(a: array<int>, hi: nat, left: nat, pivot: nat, ghost wl: nat) returns (l: nat)
    requires left <= wl < hi <= a.Length && pivot < a.Length && a[pivot] <= a[wl]
    ensures left <= l <= wl && a[pivot] <= a[l]
    ensures forall k :: left <= k < l ==> a[k] < a[pivot]
  {
    l := left;
    while a[l] < a[pivot]
      invariant left <= l <= wl && forall k :: left <= k < l ==> a[k] < a[pivot]
      decreases wl - l
    {
      l := l + 1;
    }
  }

  /** `while range[right] > range[pivot_idx]`: stops at the first element
      from `right` down that is at most the pivot, at `wr` at the latest. */
  method ScanDown(a: array<int>, right: nat, pivot: nat, ghost wr: nat) returns (r: nat)
    requires wr <= right < a.Length && pivot < a.Length && a[wr] <= a[pivot]
    ensures wr <= r <= right && a[r] <= a[pivot]
    ensures forall k :: r < k <= right ==> a[pivot] < a[k]
  {
    r := right;
    while a[r] > a[pivot]
      invariant wr <= r <= right && forall k :: r < k <= right ==> a[pivot] < a[k]
      decreases r - wr
    {
      r := r - 1;
    }
  }

  /** The outer loop's measure: three per element still between `left` and
      `right`, plus one while both stand on elements that stop the scans. */
  ghost function Measure(s: seq<int>, left: nat, right: nat, p: int): nat
    requires left < |s| && right < |s| && left <= right + 1
  {
    3 * (right + 1 - left) + if p <= s[left] && s[right] <= p then 1 else 0
  }

  /** The facts the scans leave at `left < right`, for the pivot value `p`
      at `pivot` and, when `m0`, the slice minimum `m`. */
  ghost predicate Stopped(s: seq<int>, lo: nat, hi: nat, left: nat, right: nat, pivot: nat, p: int, m0: bool, m: int)
  {
    && lo <= left < right < hi <= |s| && lo <= pivot < hi && s[pivot] == p
    && p <= s[left] && s[right] <= p
    && (forall k :: lo <= k < left ==> s[k] <= p)
    && (forall k :: right < k < hi ==> p <= s[k])
    && (m0 ==> (forall k :: lo <= k < hi ==> m <= s[k]) && (left > lo || s[lo] == m))
  }

  /** A pair equal to the pivot is stepped past. */
  lemma StepPast(s: seq<int>, lo: nat, hi: nat, left: nat, right: nat, pivot: nat, p: int, m0: bool, m: int)
    requires Stopped(s, lo, hi, left, right, pivot, p, m0, m) && s[left] == s[right]
    ensures Scanned(s, lo, hi, left + 1, right - 1, pivot, p, right, left)
    ensures m0 ==> (forall k :: lo <= k < hi ==> m <= s[k]) && left + 1 > lo
    ensures Measure(s, left + 1, right - 1, p) < 3 * (right + 1 - left) + 1
  {
  }

  /** Any other pair is swapped, and `pivot` follows the pivot's value. */
  lemma SwapPair(s: seq<int>, lo: nat, hi: nat, left: nat, right: nat, pivot: nat, p: int, m0: bool, m: int, pivot': nat)
    requires Stopped(s, lo, hi, left, right, pivot, p, m0, m) && s[left] != s[right]
    requires pivot' == if left == pivot then right else if right == pivot then left else pivot
    ensures Scanned(Swap(s, left, right), lo, hi, left, right, pivot', p, right, left)
    ensures m0 ==> (forall k :: lo <= k < hi ==> m <= Swap(s, left, right)[k]) && left > lo
    ensures multiset(Swap(s, left, right)) == multiset(s)
    ensures Swap(s, left, right)[..lo] == s[..lo] && Swap(s, left, right)[hi..] == s[hi..]
    ensures Measure(Swap(s, left, right), left, right, p) < 3 * (right + 1 - left) + 1
  {
    SwapPermutes(s, left, right);
  }

  /** The rest of one turn of the partition loop once the scans have
      stopped at `left < right`: step past a pair equal to the pivot, or
      swap the pair and keep `pivot` on the pivot's value. */
  method Exchange(a: array<int>, lo: nat, hi: nat, left: nat, right: nat, pivot: nat, ghost p: int,
                  ghost m0: bool, ghost m: int)
    returns (left': nat, right': nat, pivot': nat, ghost wl: nat, ghost wr: nat)
    requires Stopped(a[..], lo, hi, left, right, pivot, p, m0, m)
    modifies a
    ensures Scanned(a[..], lo, hi, left', right', pivot', p, wl, wr)
    ensures m0 ==> (forall k :: lo <= k < hi ==> m <= a[k]) && left' > lo
    ensures multiset(a[..]) == multiset(old(a[..]))
    ensures a[..lo] == old(a[..lo]) && a[hi..] == old(a[hi..])
    ensures Measure(a[..], left', right', p) < 3 * (right + 1 - left) + 1
  {
    if a[left] == a[right] {
      StepPast(a[..], lo, hi, left, right, pivot, p, m0, m);
      wl, wr := right, left;
      left', right', pivot' := left + 1, right - 1, pivot;
    } else {
      pivot' := if left == pivot then right else if right == pivot then left else pivot;
      ghost var before := a[..];
      SwapPair(before, lo, hi, left, right, pivot, p, m0, m, pivot');
      a[left], a[right] := a[right], a[left];
      assert a[..] == Swap(before, left, right);
      wl, wr := right, left;
      left', right' := left, right;
    }
  }

  /** When the scans meet, `left` splits the slice at the pivot value. */
  lemma Split(s: seq<int>, lo: nat, hi: nat, left: nat, right: nat, p: int, m0: bool, m: int, wr: nat)
    requires lo <= wr <= right <= left < hi <= |s| && p <= s[left] && s[wr] <= p
    requires forall k :: lo <= k < left ==> s[k] <= p
    requires forall k :: right < k < hi ==> p <= s[k]
    requires m0 ==> (forall k :: lo <= k < hi ==> m <= s[k]) && (left > lo || (s[lo] == m && wr > lo))
    ensures forall k :: left <= k < hi ==> p <= s[k]
    ensures left == lo ==> MinFirst(s, lo, hi)
    ensures m0 ==> left > lo
  {
  }

  /** The two scans from `left` and `right` stop at `l` and `r`: either
      they have met and `l` splits the slice, or they stopped at a pair,
      with the loop's measure above what one exchange leaves. */
  lemma Scans(s: seq<int>, lo: nat, hi: nat, left: nat, right: nat, l: nat, r: nat, pivot: nat, p: int,
              wl: nat, wr: nat, m0: bool, m: int)
    requires Scanned(s, lo, hi, left, right, pivot, p, wl, wr) && MinKept(s, lo, hi, left, m0, m, wr)
    requires left <= l <= wl && p <= s[l] && forall k :: left <= k < l ==> s[k] < p
    requires wr <= r <= right && s[r] <= p && forall k :: r < k <= right ==> p < s[k]
    ensures l >= r ==> lo <= l < hi && (forall k :: lo <= k < l ==> s[k] <= p) && (forall k :: l <= k < hi ==> p <= s[k])
    ensures l >= r ==> (l == lo ==> MinFirst(s, lo, hi)) && (m0 ==> l > lo)
    ensures l < r ==> Stopped(s, lo, hi, l, r, pivot, p, m0, m) && 3 * (r + 1 - l) + 1 <= Measure(s, left, right, p)
  {
    if l >= r {
      Split(s, lo, hi, l, r, p, m0, m, wr);
    }
  }

  /** The partition loop: on return everything in `[lo, left)` is at most
      the pivot value `p` and everything in `[left, hi)` at least `p`. */
  method Partition(a: array<int>, lo: nat, hi: nat) returns (left: nat, ghost p: int)
    requires lo + 2 <= hi <= a.Length
    modifies a
    ensures lo <= left < hi
    ensures multiset(a[..]) == multiset(old(a[..]))
    ensures a[..lo] == old(a[..lo]) && a[hi..] == old(a[hi..])
    ensures forall k :: lo <= k < left ==> a[k] <= p
    ensures forall k :: left <= k < hi ==> p <= a[k]
    ensures left == lo ==> MinFirst(a[..], lo, hi)
    ensures MinFirst(old(a[..]), lo, hi) ==> left > lo
  {
    ghost var m0 := MinFirst(a[..], lo, hi);
    ghost var m := a[lo];
    var pivot := lo + (hi - lo) / 2;
    p := a[pivot];
    left := lo;
    var right := hi - 1;
    ghost var wl, wr := pivot, pivot;
    while true
      invariant Scanned(a[..], lo, hi, left, right, pivot, p, wl, wr)
      invariant MinKept(a[..], lo, hi, left, m0, m, wr)
      invariant multiset(a[..]) == multiset(old(a[..]))
      invariant a[..lo] == old(a[..lo]) && a[hi..] == old(a[hi..])
      decreases Measure(a[..], left, right, p)
    {
      var l := ScanUp(a, hi, left, pivot, wl);
      var r := ScanDown(a, right, pivot, wr);
      Scans(a[..], lo, hi, left, right, l, r, pivot, p, wl, wr, m0, m);
      if l >= r {
        left := l;
        break;
      }
      left, right, pivot, wl, wr := Exchange(a, lo, hi, l, r, pivot, p, m0, m);
    }
  }

  /** A slice keeps its elements when the rest of the array is untouched
      and the whole array keeps its elements. */
  lemma SlicePermutes(s: seq<int>, t: seq<int>, lo: nat, hi: nat)
    requires lo <= hi <= |s| == |t| && s[..lo] == t[..lo] && s[hi..] == t[hi..]
    requires multiset(s) == multiset(t)
    ensures multiset(s[lo..hi]) == multiset(t[lo..hi])
  {
    var front, back := s[..lo], s[hi..];
    var ms, mt := multiset(s[lo..hi]), multiset(t[lo..hi]);
    assert multiset(s) == multiset(front) + ms + multiset(back) by {
      assert s == front + s[lo..hi] + back;
    }
    assert multiset(t) == multiset(front) + mt + multiset(back) by {
      assert t == front + t[lo..hi] + back;
    }
    assert ms == multiset(s) - multiset(front) - multiset(back);
  }

  /** An upper bound carries over to a permutation. */
  lemma AtMostPermutes(s: seq<int>, t: seq<int>, p: int)
    requires multiset(s) == multiset(t) && forall k :: 0 <= k < |s| ==> s[k] <= p
    ensures forall k :: 0 <= k < |t| ==> t[k] <= p
  {
    forall k | 0 <= k < |t| ensures t[k] <= p {
      assert t[k] in multiset(t);
      assert t[k] in s;
    }
  }

  /** A lower bound carries over to a permutation. */
  lemma AtLeastPermutes(s: seq<int>, t: seq<int>, p: int)
    requires multiset(s) == multiset(t) && forall k :: 0 <= k < |s| ==> p <= s[k]
    ensures forall k :: 0 <= k < |t| ==> p <= t[k]
  {
    forall k | 0 <= k < |t| ensures p <= t[k] {
      assert t[k] in multiset(t);
      assert t[k] in s;
    }
  }

  /** Two sorted sequences, every element of the first at most every
      element of the second, make a sorted whole. */
  lemma SortedJoin(x: seq<int>, y: seq<int>, p: int)
    requires Sorted(x) && Sorted(y)
    requires forall k :: 0 <= k < |x| ==> x[k] <= p
    requires forall k :: 0 <= k < |y| ==> p <= y[k]
    ensures Sorted(x + y)
  {
    var s := x + y;
    forall i, j | 0 <= i < j < |s| ensures s[i] <= s[j] {
      if j < |x| {
        assert s[i] == x[i] && s[j] == x[j];
      } else if i >= |x| {
        assert s[i] == y[i - |x|] && s[j] == y[j - |x|];
      } else {
        assert s[i] == x[i] && s[j] == y[j - |x|];
      }
    }
  }

  /** After the partition (`b`) and the two recursive calls (`b1`, then
      `c`), the slice is sorted and the array a permutation of `b`. */
  lemma Combine(b: seq<int>, b1: seq<int>, c: seq<int>, lo: nat, left: nat, hi: nat, p: int)
    requires lo <= left <= hi <= |b| == |b1| == |c|
    requires forall k :: lo <= k < left ==> b[k] <= p
    requires forall k :: left <= k < hi ==> p <= b[k]
    requires b1[..lo] == b[..lo] && b1[left..] == b[left..] && multiset(b1) == multiset(b)
    requires Sorted(b1[lo..left])
    requires c[..left] == b1[..left] && c[hi..] == b1[hi..] && multiset(c) == multiset(b1)
    requires Sorted(c[left..hi])
    ensures Sorted(c[lo..hi]) && multiset(c) == multiset(b)
    ensures c[..lo] == b[..lo] && c[hi..] == b[hi..]
  {
    assert forall k :: 0 <= k < left - lo ==> b[lo..left][k] == b[lo + k];
    assert forall k :: 0 <= k < hi - left ==> b[left..hi][k] == b[left + k];
    SlicePermutes(b, b1, lo, left);
    AtMostPermutes(b[lo..left], b1[lo..left], p);
    SlicePermutes(b1, c, left, hi);
    assert b1[left..hi] == b[left..hi];
    AtLeastPermutes(b[left..hi], c[left..hi], p);
    assert c[lo..left] == b1[lo..left];
    assert c[lo..hi] == c[lo..left] + c[left..hi];
    SortedJoin(c[lo..left], c[left..hi], p);
  }

  /** `quick_sort(&mut a[lo..hi])`: the slice ends sorted, holding the same
      elements, and the rest of the array is untouched. */
  method QuickSortSlice(a: array<int>, lo: nat, hi: nat)
    requires lo <= hi <= a.Length
    modifies a
    ensures Sorted(a[lo..hi])
    ensures multiset(a[..]) == multiset(old(a[..]))
    ensures a[..lo] == old(a[..lo]) && a[hi..] == old(a[hi..])
    decreases hi - lo, if MinFirst(a[..], lo, hi) then 0 else 1
  {
    if hi - lo <= 1 {
      return;
    }
    var left, p := Partition(a, lo, hi);
    ghost var b := a[..];
    QuickSortSlice(a, lo, left);
    ghost var b1 := a[..];
    assert left == lo ==> b1 == b;
    QuickSortSlice(a, left, hi);
    Combine(b, b1, a[..], lo, left, hi, p);
  }

  /** `quick_sort` on a whole slice. */
  method QuickSort(a: array<int>)
    modifies a
    ensures Sorted(a[..]) && multiset(a[..]) == multiset(old(a[..]))
  {
    QuickSortSlice(a, 0, a.Length);
    assert a[0..a.Length] == a[..];
  }

  method SortSeq(xs: seq<int>) returns (r: seq<int>)
    ensures Sorted(r) && multiset(r) == multiset(xs)
  {
    var a := new int[|xs|](i requires 0 <= i < |xs| => xs[i]);
    assert a[..] == xs;
    QuickSort(a);
    r := a[..];
  }

  /** The source's `empty`, `one_element`, `pre_sorted` and
      `reverse_sorted` tests. */
  method SortsSmall() returns (r1: seq<int>, r2: seq<int>, r3: seq<int>, r4: seq<int>)
    ensures r1 == [] && r2 == [1] && r3 == [1, 2, 3, 4] && r4 == [1, 2, 3, 4]
  {
    r1 := SortSeq([]);
    SortsShort(r1, []);
    r2 := SortSeq([1]);
    SortsShort(r2, [1]);
    r3 := SortSeq([1, 2, 3, 4]);
    SortsAscendingFour(r3);
    r4 := SortSeq([4, 3, 2, 1]);
    SortsDescendingFour(r4);
  }

  /** `t` is `s` with entries `i` and `j` exchanged, so it holds the same
      elements. */
  lemma SwapsTo(s: seq<int>, i: nat, j: nat, t: seq<int>)
    requires i < |s| && j < |s| && Swap(s, i, j) == t
    ensures multiset(t) == multiset(s)
  {
    SwapPermutes(s, i, j);
  }

  lemma BasicSwap1()
    ensures multiset([1, 8, 4, 3, 10, 9, 2, 7, 5, 6]) == multiset([10, 8, 4, 3, 1, 9, 2, 7, 5, 6])
  {
    var s := [10, 8, 4, 3, 1, 9, 2, 7, 5, 6];
    assert Swap(s, 0, 4) == [1, 8, 4, 3, 10, 9, 2, 7, 5, 6];
    SwapsTo(s, 0, 4, [1, 8, 4, 3, 10, 9, 2, 7, 5, 6]);
  }

  lemma BasicSwap2()
    ensures multiset([1, 2, 4, 3, 10, 9, 8, 7, 5, 6]) == multiset([1, 8, 4, 3, 10, 9, 2, 7, 5, 6])
  {
    var s := [1, 8, 4, 3, 10, 9, 2, 7, 5, 6];
    assert Swap(s, 1, 6) == [1, 2, 4, 3, 10, 9, 8, 7, 5, 6];
    SwapsTo(s, 1, 6, [1, 2, 4, 3, 10, 9, 8, 7, 5, 6]);
  }

  lemma BasicSwap3()
    ensures multiset([1, 2, 3, 4, 10, 9, 8, 7, 5, 6]) == multiset([1, 2, 4, 3, 10, 9, 8, 7, 5, 6])
  {
    var s := [1, 2, 4, 3, 10, 9, 8, 7, 5, 6];
    assert Swap(s, 2, 3) == [1, 2, 3, 4, 10, 9, 8, 7, 5, 6];
    SwapsTo(s, 2, 3, [1, 2, 3, 4, 10, 9, 8, 7, 5, 6]);
  }

  lemma BasicSwap4()
    ensures multiset([1, 2, 3, 4, 5, 9, 8, 7, 10, 6]) == multiset([1, 2, 3, 4, 10, 9, 8, 7, 5, 6])
  {
    var s := [1, 2, 3, 4, 10, 9, 8, 7, 5, 6];
    assert Swap(s, 4, 8) == [1, 2, 3, 4, 5, 9, 8, 7, 10, 6];
    SwapsTo(s, 4, 8, [1, 2, 3, 4, 5, 9, 8, 7, 10, 6]);
  }

  lemma BasicSwap5()
    ensures multiset([1, 2, 3, 4, 5, 6, 8, 7, 10, 9]) == multiset([1, 2, 3, 4, 5, 9, 8, 7, 10, 6])
  {
    var s := [1, 2, 3, 4, 5, 9, 8, 7, 10, 6];
    assert Swap(s, 5, 9) == [1, 2, 3, 4, 5, 6, 8, 7, 10, 9];
    SwapsTo(s, 5, 9, [1, 2, 3, 4, 5, 6, 8, 7, 10, 9]);
  }

  lemma BasicSwap6()
    ensures multiset([1, 2, 3, 4, 5, 6, 7, 8, 10, 9]) == multiset([1, 2, 3, 4, 5, 6, 8, 7, 10, 9])
  {
    var s := [1, 2, 3, 4, 5, 6, 8, 7, 10, 9];
    assert Swap(s, 6, 7) == [1, 2, 3, 4, 5, 6, 7, 8, 10, 9];
    SwapsTo(s, 6, 7, [1, 2, 3, 4, 5, 6, 7, 8, 10, 9]);
  }

  lemma BasicSwap7()
    ensures multiset([1, 2, 3, 4, 5, 6, 7, 8, 9, 10]) == multiset([1, 2, 3, 4, 5, 6, 7, 8, 10, 9])
  {
    var s := [1, 2, 3, 4, 5, 6, 7, 8, 10, 9];
    assert Swap(s, 8, 9) == [1, 2, 3, 4, 5, 6, 7, 8, 9, 10];
    SwapsTo(s, 8, 9, [1, 2, 3, 4, 5, 6, 7, 8, 9, 10]);
  }

  /** Seven exchanges turn the `basic` input into `1..10`. */
  lemma BasicPerm()
    ensures multiset([1, 2, 3, 4, 5, 6, 7, 8, 9, 10]) == multiset([10, 8, 4, 3, 1, 9, 2, 7, 5, 6])
  {
    BasicSwap1();
    BasicSwap2();
    BasicSwap3();
    BasicSwap4();
    BasicSwap5();
    BasicSwap6();
    BasicSwap7();
  }

  lemma BasicSorted()
    ensures AdjacentSorted([1, 2, 3, 4, 5, 6, 7, 8, 9, 10])
  {
  }

  /** The source's `basic` test. */
  method SortsBasic() returns (r: seq<int>)
    ensures r == [1, 2, 3, 4, 5, 6, 7, 8, 9, 10]
  {
    var input := [10, 8, 4, 3, 1, 9, 2, 7, 5, 6];
    r := SortSeq(input);
    BasicPerm();
    BasicSorted();
    SortsTo(r, input, [1, 2, 3, 4, 5, 6, 7, 8, 9, 10]);
  }
}
