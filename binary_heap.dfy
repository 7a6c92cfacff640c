/** The array-backed binary min-heap of src/data_structure/binary_heap.rs.
    The heap's `nodes` vector is a `seq<int>` field of the class; each mutating
    operation is also given as a function on sequences, which the class methods
    are proved to compute and about which the heap properties are proved. */
module Heap {
  import opened Base

  /** `c` is the left or the right child index of `p`. */
  predicate IsChild(p: nat, c: nat)
  {
    c == 2 * p + 1 || c == 2 * p + 2
  }

  /** Index of the parent of node `ni` (the source subtracts 1 from an unsigned
      index, so it is only ever called with `ni >= 1`). */
  function Parent(ni: nat): (p: nat)
    requires ni >= 1
    ensures p < ni && IsChild(p, ni)
  {
    (ni - 1) / 2
  }

  /** The left and right child indices of `ni`, each present only when it is a
      valid index of a heap of `len` nodes. */
  function Children(len: nat, ni: nat): (r: (Option<nat>, Option<nat>))
    ensures r.0 == (if 2 * ni + 1 < len then Some(2 * ni + 1) else None)
    ensures r.1 == (if 2 * ni + 2 < len then Some(2 * ni + 2) else None)
    ensures r.0.Some? ==> Parent(r.0.value) == ni
    ensures r.1.Some? ==> Parent(r.1.value) == ni
  {
    var left := ni * 2 + 1;
    var right := ni * 2 + 2;
    (if left < len then Some(left) else None, if right < len then Some(right) else None)
  }

  /** Every node is at least its parent. */
  ghost predicate HeapOrdered(s: seq<int>)
  {
    forall p, c :: 0 <= p < |s| && 0 <= c < |s| && IsChild(p, c) ==> s[p] <= s[c]
  }

  /** Heap order holds below every parent at index `lo` or later. */
  ghost predicate HeapFrom(s: seq<int>, lo: nat)
  {
    forall p, c :: lo <= p < |s| && 0 <= c < |s| && IsChild(p, c) ==> s[p] <= s[c]
  }

  /** The state while `heapify_up` climbs from `k`: heap order everywhere
      except between `k` and its parent, and `k`'s parent bounds `k`'s children. */
  ghost predicate HeapExceptUp(s: seq<int>, k: nat)
  {
    && k < |s|
    && (forall p, c :: 0 <= p < |s| && 0 <= c < |s| && IsChild(p, c) && c != k ==> s[p] <= s[c])
    && (k >= 1 ==> forall c :: 0 <= c < |s| && IsChild(k, c) ==> s[Parent(k)] <= s[c])
  }

  /** The state while `heapify_down` descends from `k` inside the region of
      parents `>= lo`: heap order there except between `k` and its children,
      and `k`'s parent (when inside the region) bounds `k`'s children. */
  ghost predicate HeapExceptDown(s: seq<int>, k: nat, lo: nat)
  {
    && lo <= k
    && (forall p, c :: lo <= p < |s| && 0 <= c < |s| && IsChild(p, c) && p != k ==> s[p] <= s[c])
    && (k >= 1 && Parent(k) >= lo ==>
          forall c :: 0 <= c < |s| && IsChild(k, c) ==> s[Parent(k)] <= s[c])
  }

  /** `heapify_up(ni)`: swap with the parent while the parent is larger. */
  function SiftUp(s: seq<int>, ni: nat): (r: seq<int>)
    requires ni < |s|
    ensures |r| == |s| && multiset(r) == multiset(s)
    decreases ni
  {
    if ni != 0 && s[Parent(ni)] > s[ni] then
      SwapPermutes(s, ni, Parent(ni));
      SiftUp(Swap(s, ni, Parent(ni)), Parent(ni))
    else s
  }

  /** The child that `heapify_down` swaps with (the source calls it `largest`):
      the smaller of `ni` and its existing children, preferring `ni`, then the left child. */
  function Smallest(s: seq<int>, ni: nat): (m: nat)
    ensures m == ni || (ni < |s| && m < |s| && IsChild(ni, m) && s[m] < s[ni])
    ensures ni < |s| ==>
              m < |s| && forall c :: 0 <= c < |s| && IsChild(ni, c) ==> s[m] <= s[c]
  {
    var (left, right) := Children(|s|, ni);
    var m1 := if left.Some? && s[left.value] < s[ni] then left.value else ni;
    if right.Some? && s[right.value] < s[m1] then right.value else m1
  }

  /** `heapify_down(ni)`: swap with the smallest child until it is no smaller. */
  function SiftDown(s: seq<int>, ni: nat): (r: seq<int>)
    ensures |r| == |s| && multiset(r) == multiset(s)
    decreases |s| - ni
  {
    var m := Smallest(s, ni);
    if m == ni then s
    else
      SwapPermutes(s, ni, m);
      SiftDown(Swap(s, ni, m), m)
  }

  /** The loop of `from_vec`: `heapify_down(i)` for i = n-1 down to 0. */
  function BuildFrom(s: seq<int>, n: nat): (r: seq<int>)
    requires n <= |s|
    ensures |r| == |s| && multiset(r) == multiset(s)
    decreases n
  {
    if n == 0 then s else BuildFrom(SiftDown(s, n - 1), n - 1)
  }

  /** The heap contents after `push(val)`. */
  function PushSeq(s: seq<int>, val: int): (r: seq<int>)
    ensures |r| == |s| + 1 && multiset(r) == multiset(s) + multiset{val}
  {
    SiftUp(s + [val], |s|)
  }

  /** What `pop` returns and the contents it leaves: `remove(0)`, then one
      `heapify_down(0)` when anything is left. */
  function PopSeq(s: seq<int>): (r: (Option<int>, seq<int>))
    ensures s == [] ==> r == (None, [])
    ensures s != [] ==> r.0 == Some(s[0]) && |r.1| == |s| - 1 &&
                        multiset(r.1) == multiset(s) - multiset{s[0]}
  {
    if s == [] then (None, s)
    else
      assert s == [s[0]] + s[1..];
      var rest := s[1..];
      (Some(s[0]), if rest != [] then SiftDown(rest, 0) else rest)
  }

  lemma {:induction false} SiftUpRestoresOrder(s: seq<int>, k: nat)
    requires HeapExceptUp(s, k)
    ensures HeapOrdered(SiftUp(s, k))
    decreases k
  {
    if k != 0 && s[Parent(k)] > s[k] {
      var p := Parent(k);
      var t := Swap(s, k, p);
      forall q, c | 0 <= q < |t| && 0 <= c < |t| && IsChild(q, c) && c != p
        ensures t[q] <= t[c]
      {
        if c == k {
        } else if q == p {
          assert s[p] <= s[c];
        } else if q == k {
          assert s[p] <= s[c];
        }
      }
      if p >= 1 {
        forall c | 0 <= c < |t| && IsChild(p, c) ensures t[Parent(p)] <= t[c] {
          assert s[Parent(p)] <= s[p];
          if c != k { assert s[p] <= s[c]; }
        }
      }
      SiftUpRestoresOrder(t, p);
    }
  }

  lemma {:induction false} SiftDownRestoresOrder(s: seq<int>, k: nat, lo: nat)
    requires HeapExceptDown(s, k, lo)
    ensures HeapFrom(SiftDown(s, k), lo)
    decreases |s| - k
  {
    var m := Smallest(s, k);
    if m != k {
      var t := Swap(s, k, m);
      forall q, c | lo <= q < |t| && 0 <= c < |t| && IsChild(q, c) && q != m
        ensures t[q] <= t[c]
      {
        if q == k {
          assert s[m] <= s[c];
        } else if c == k {
          assert q == Parent(k);
          assert s[Parent(k)] <= s[m];
        }
      }
      forall c | 0 <= c < |t| && IsChild(m, c) ensures t[Parent(m)] <= t[c] {
        assert s[m] <= s[c];
      }
      SiftDownRestoresOrder(t, m, lo);
    }
  }

  lemma {:induction false} BuildFromOrders(s: seq<int>, n: nat)
    requires n <= |s| && HeapFrom(s, n)
    ensures HeapOrdered(BuildFrom(s, n))
    decreases n
  {
    if n > 0 {
      var k := n - 1;
      SiftDownExtends(s, k);
      BuildFromOrders(SiftDown(s, k), k);
      FirstSiftDown(s, k);
    }
  }

  /** The first turn of the `from_vec` loop is `heapify_down(k)`. */
  lemma FirstSiftDown(s: seq<int>, k: nat)
    requires k < |s|
    ensures BuildFrom(s, k + 1) == BuildFrom(SiftDown(s, k), k)
  {
  }

  /** `heapify_down(k)` extends heap order from the parents after `k` to
      those at `k` and later. */
  lemma SiftDownExtends(s: seq<int>, k: nat)
    requires k < |s| && HeapFrom(s, k + 1)
    ensures HeapFrom(SiftDown(s, k), k)
  {
    HeapFromExcept(s, k);
    SiftDownRestoresOrder(s, k, k);
  }

  /** Heap order below every parent after `k` is the state in which
      `heapify_down(k)` starts. */
  lemma HeapFromExcept(s: seq<int>, k: nat)
    requires k < |s| && HeapFrom(s, k + 1)
    ensures HeapExceptDown(s, k, k)
  {
  }

  /** `from_vec` yields a heap-ordered permutation of its input. */
  lemma FromVecIsHeap(v: seq<int>)
    ensures HeapOrdered(BuildFrom(v, |v|))
    ensures multiset(BuildFrom(v, |v|)) == multiset(v)
  {
    BuildFromOrders(v, |v|);
  }

  /** The `from_vec` loop with `i` rounds to go: finishing them from `cur`
      yields what the whole loop yields from `v`. */
  ghost predicate Building(v: seq<int>, cur: seq<int>, i: nat)
  {
    i <= |cur| == |v| && BuildFrom(cur, i) == BuildFrom(v, |v|)
  }

  /** One round of the `from_vec` loop keeps the final result in reach. */
  lemma BuildFromStep(v: seq<int>, prev: seq<int>, next: seq<int>, j: nat)
    requires Building(v, prev, j + 1) && next == SiftDown(prev, j)
    ensures Building(v, next, j)
  {
  }

  /** Pushing onto a heap-ordered array keeps it heap-ordered. */
  lemma PushKeepsOrder(s: seq<int>, val: int)
    requires HeapOrdered(s)
    ensures HeapOrdered(PushSeq(s, val))
  {
    SiftUpRestoresOrder(s + [val], |s|);
  }

  lemma {:induction false} RootIsMinimal(s: seq<int>, i: nat)
    requires HeapOrdered(s) && i < |s|
    ensures s[0] <= s[i]
    decreases i
  {
    if i > 0 {
      RootIsMinimal(s, Parent(i));
      assert s[Parent(i)] <= s[i];
    }
  }

  /** On a heap-ordered array, `pop` returns a minimum and shrinks the heap by one. */
  lemma PopReturnsMinimum(s: seq<int>)
    requires HeapOrdered(s) && s != []
    ensures PopSeq(s).0.Some?
    ensures forall x :: x in s ==> PopSeq(s).0.value <= x
    ensures |PopSeq(s).1| == |s| - 1
  {
    forall x | x in s ensures s[0] <= x {
      var i :| 0 <= i < |s| && s[i] == x;
      RootIsMinimal(s, i);
    }
  }

  /** Sifting down inside an already heap-ordered array changes nothing. */
  lemma SiftDownFixesHeap(s: seq<int>, k: nat)
    requires HeapOrdered(s)
    ensures SiftDown(s, k) == s
  {
  }

  /** `from_vec` leaves an already heap-ordered array as it is. */
  lemma {:induction false} HeapIsFixedByBuild(s: seq<int>, n: nat)
    requires n <= |s| && HeapOrdered(s)
    ensures BuildFrom(s, n) == s
    decreases n
  {
    if n > 0 {
      SiftDownFixesHeap(s, n - 1);
      assert BuildFrom(s, n) == BuildFrom(s, n - 1);
      HeapIsFixedByBuild(s, n - 1);
    }
  }

  lemma PopStep1()
    ensures PopSeq([1, 10, 2, 11, 12, 3, 4]) == (Some(1), [2, 3, 11, 12, 10, 4])
  {
    assert [1, 10, 2, 11, 12, 3, 4][1..] == [10, 2, 11, 12, 3, 4];
    assert Smallest([10, 2, 11, 12, 3, 4], 0) == 1;
    assert Swap([10, 2, 11, 12, 3, 4], 0, 1) == [2, 10, 11, 12, 3, 4];
    assert Smallest([2, 10, 11, 12, 3, 4], 1) == 4;
    assert Swap([2, 10, 11, 12, 3, 4], 1, 4) == [2, 3, 11, 12, 10, 4];
    assert Smallest([2, 3, 11, 12, 10, 4], 4) == 4;
  }

  lemma PopStep2()
    ensures PopSeq([2, 3, 11, 12, 10, 4]) == (Some(2), [3, 11, 12, 10, 4])
  {
    assert [2, 3, 11, 12, 10, 4][1..] == [3, 11, 12, 10, 4];
    assert Smallest([3, 11, 12, 10, 4], 0) == 0;
  }

  lemma PopStep3()
    ensures PopSeq([3, 11, 12, 10, 4]) == (Some(3), [10, 12, 11, 4])
  {
    assert [3, 11, 12, 10, 4][1..] == [11, 12, 10, 4];
    assert Smallest([11, 12, 10, 4], 0) == 2;
    assert Swap([11, 12, 10, 4], 0, 2) == [10, 12, 11, 4];
    assert Smallest([10, 12, 11, 4], 2) == 2;
  }

  lemma PopStep4()
    ensures PopSeq([10, 12, 11, 4]) == (Some(10), [4, 11, 12])
  {
    assert [10, 12, 11, 4][1..] == [12, 11, 4];
    assert Smallest([12, 11, 4], 0) == 2;
    assert Swap([12, 11, 4], 0, 2) == [4, 11, 12];
    assert Smallest([4, 11, 12], 2) == 2;
  }

  /** from_vec([1,10,2,11,12,3,4]) keeps the array, which is already a heap. */
  lemma BuildStep()
    ensures BuildFrom([1, 10, 2, 11, 12, 3, 4], 7) == [1, 10, 2, 11, 12, 3, 4]
  {
    assert HeapOrdered([1, 10, 2, 11, 12, 3, 4]);
    HeapIsFixedByBuild([1, 10, 2, 11, 12, 3, 4], 7);
  }

  /** `remove(0)` followed by one `heapify_down(0)` does not restore heap
      order: continuing from PopStep1 to PopStep3, the array left after the
      third pop is not heap-ordered, and the fourth pop returns 10 while 4 is
      still held. */
  lemma PopBreaksOrder()
    ensures !HeapOrdered([10, 12, 11, 4])
    ensures PopSeq([10, 12, 11, 4]) == (Some(10), [4, 11, 12])
  {
    assert !HeapOrdered([10, 12, 11, 4]) by {
      assert IsChild(1, 3) && [10, 12, 11, 4][1] > [10, 12, 11, 4][3];
    }
    PopStep4();
  }

  class BinaryHeap {
    var nodes: seq<int>

    constructor ()
      ensures nodes == []
    {
      nodes := [];
    }

    function Len(): (n: nat)
      reads this
      ensures n == |nodes|
    {
      |nodes|
    }

    function IsEmpty(): (e: bool)
      reads this
      ensures e <==> Len() == 0
    {
      nodes == []
    }

    /** Iteration exposes the stored array order, not sorted order. */
    function Iter(): (r: seq<int>)
      reads this
      ensures r == nodes
    {
      nodes
    }

    static method FromVec(v: seq<int>) returns (h: BinaryHeap)
      ensures fresh(h) && h.nodes == BuildFrom(v, |v|)
      ensures HeapOrdered(h.nodes) && multiset(h.nodes) == multiset(v)
    {
      h := new BinaryHeap();
      h.nodes := v;
      var i: nat := |v|;
      while i > 0
        invariant fresh(h) && Building(v, h.nodes, i)
      {
        ghost var prev := h.nodes;
        var j := i - 1;
        h.HeapifyDown(j);
        BuildFromStep(v, prev, h.nodes, j);
        i := j;
      }
      assert h.nodes == BuildFrom(h.nodes, 0);
      FromVecIsHeap(v);
    }

    method Push(val: int)
      modifies this
      ensures nodes == PushSeq(old(nodes), val)
      ensures multiset(nodes) == multiset(old(nodes)) + multiset{val}
      ensures HeapOrdered(old(nodes)) ==> HeapOrdered(nodes)
    {
      nodes := nodes + [val];
      HeapifyUp(|nodes| - 1);
      if HeapOrdered(old(nodes)) { PushKeepsOrder(old(nodes), val); }
    }

    method Pop() returns (r: Option<int>)
      modifies this
      ensures (r, nodes) == PopSeq(old(nodes))
      ensures old(nodes) == [] ==> r == None && nodes == []
      ensures HeapOrdered(old(nodes)) && old(nodes) != [] ==>
                r.Some? && (forall x :: x in old(nodes) ==> r.value <= x) &&
                |nodes| == |old(nodes)| - 1
    {
      if nodes == [] {
        return None;
      }
      var popped := nodes[0];
      nodes := nodes[1..];
      if nodes != [] {
        HeapifyDown(0);
      }
      r := Some(popped);
      if HeapOrdered(old(nodes)) { PopReturnsMinimum(old(nodes)); }
    }

    method HeapifyUp(ni: nat)
      requires ni < |nodes|
      modifies this
      ensures nodes == SiftUp(old(nodes), ni)
    {
      var i: nat := ni;
      while i != 0 && nodes[Parent(i)] > nodes[i]
        invariant i < |nodes| && SiftUp(nodes, i) == SiftUp(old(nodes), ni)
        decreases i
      {
        var parentId := Parent(i);
        nodes := Swap(nodes, i, parentId);
        i := parentId;
      }
    }

    method HeapifyDown(ni: nat)
      modifies this
      ensures nodes == SiftDown(old(nodes), ni)
    {
      var i: nat := ni;
      while true
        invariant SiftDown(nodes, i) == SiftDown(old(nodes), ni)
        decreases |nodes| - i
      {
        var (left, right) := Children(|nodes|, i);
        var largest := i;
        if left.Some? && nodes[left.value] < nodes[largest] {
          largest := left.value;
        }
        if right.Some? && nodes[right.value] < nodes[largest] {
          largest := right.value;
        }
        if largest == i {
          break;
        }
        nodes := Swap(nodes, i, largest);
        i := largest;
      }
    }
  }

  /** The states of the source's min-heap test, one push or pop at a time. */
  lemma PushSteps()
    ensures PushSeq([], 4) == [4]
    ensures PushSeq([4], 2) == [2, 4]
    ensures PushSeq([2, 4], 9) == [2, 4, 9]
    ensures PushSeq([2, 4, 9], 11) == [2, 4, 9, 11]
    ensures PushSeq([11], 1) == [1, 11]
  {
    PushOnto([], 4);
    PushSmaller(4, 2);
    PushNine();
    PushEleven();
    PushSmaller(11, 1);
  }

  lemma PushNine()
    ensures PushSeq([2, 4], 9) == [2, 4, 9]
  {
    PushOnto([2, 4], 9);
    assert [2, 4] + [9] == [2, 4, 9];
  }

  lemma PushEleven()
    ensures PushSeq([2, 4, 9], 11) == [2, 4, 9, 11]
  {
    PushOnto([2, 4, 9], 11);
    assert [2, 4, 9] + [11] == [2, 4, 9, 11];
  }

  /** A pushed value no smaller than its parent stays at the end. */
  lemma PushOnto(s: seq<int>, val: int)
    requires s == [] || s[(|s| - 1) / 2] <= val
    ensures PushSeq(s, val) == s + [val]
  {
  }

  /** A smaller value pushed onto a one-element heap swaps to the root. */
  lemma PushSmaller(x: int, val: int)
    requires val < x
    ensures PushSeq([x], val) == [val, x]
  {
    assert Swap([x, val], 1, 0) == [val, x];
  }

  lemma PopSteps()
    ensures PopSeq([2, 4, 9, 11]) == (Some(2), [4, 9, 11])
    ensures PopSeq([4, 9, 11]) == (Some(4), [9, 11])
    ensures PopSeq([9, 11]) == (Some(9), [11])
    ensures PopSeq([1, 11]) == (Some(1), [11])
    ensures PopSeq([11]) == (Some(11), [])
    ensures PopSeq([]) == (None, [])
  {
    assert [2, 4, 9, 11][1..] == [4, 9, 11];
    assert Smallest([4, 9, 11], 0) == 0;
    assert [4, 9, 11][1..] == [9, 11];
    assert Smallest([9, 11], 0) == 0;
    assert [9, 11][1..] == [11];
    assert [1, 11][1..] == [11];
  }

  /** The push/pop sequence of the source's min-heap test. */
  method MinHeapScenario() returns (len: nat, pops: seq<Option<int>>)
    ensures len == 4
    ensures pops == [Some(2), Some(4), Some(9), Some(1), Some(11), None]
  {
    PushSteps();
    PopSteps();
    var h := new BinaryHeap();
    h.Push(4); h.Push(2); h.Push(9); h.Push(11);
    len := h.Len();
    var a := h.Pop();
    var b := h.Pop();
    var c := h.Pop();
    h.Push(1);
    var d := h.Pop();
    var e := h.Pop();
    var f := h.Pop();
    pops := [a, b, c, d, e, f];
  }

  /** After pushing 4, 2, 9, 11, iteration yields the array order 2, 4, 9, 11. */
  method IterScenario() returns (order: seq<int>)
    ensures order == [2, 4, 9, 11]
  {
    PushSteps();
    var h := new BinaryHeap();
    h.Push(4); h.Push(2); h.Push(9); h.Push(11);
    order := h.Iter();
  }
}
