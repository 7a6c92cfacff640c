/** The FIFO singly linked list of src/data_structure/linked_list.rs: heap
    nodes holding an `i32` and a `next` pointer, and a list object with
    `head` and `tail` pointers.  `push` links a new node behind the tail,
    `pop` unlinks the head.  The ghost `Spine` lists the nodes from head to
    tail and `Contents` their values; `Valid` ties the pointers to them. */
module LinkedLists {
  import opened Base

  class Node {
    var val: int
    var next: Node?

    constructor (val: int)
      ensures this.val == val && next == null
    {
      this.val := val;
      next := null;
    }
  }

  class LinkedList {
    var head: Node?
    var tail: Node?
    ghost var Contents: seq<int>
    ghost var Spine: seq<Node>
    ghost var Repr: set<object>

    /** The nodes are distinct, each points at the next one, the last at
        nothing; `head` is the first node and `tail` the last. */
    ghost predicate Valid()
      reads this, Repr
    {
      && (forall i :: 0 <= i < |Spine| ==> Spine[i] in Repr)
      && |Spine| == |Contents|
      && (forall i, j :: 0 <= i < j < |Spine| ==> Spine[i] != Spine[j])
      && head == (if Spine == [] then null else Spine[0])
      && tail == (if Spine == [] then null else Spine[|Spine| - 1])
      && (forall i :: 0 <= i < |Spine| ==> Spine[i].val == Contents[i])
      && (forall i :: 0 <= i < |Spine| - 1 ==> Spine[i].next == Spine[i + 1])
      && (Spine != [] ==> Spine[|Spine| - 1].next == null)
    }

    /** `new`: both pointers empty. */
    constructor ()
      ensures Valid() && Contents == [] && fresh(Repr)
      ensures head == null && tail == null
    {
      head, tail := null, null;
      Contents, Spine, Repr := [], [], {};
    }

    /** `push`: the value goes to the back; `head` and `tail` are both set. */
    method Push(val: int)
      requires Valid()
      modifies this, Repr
      ensures Valid() && fresh(Repr - old(Repr))
      ensures Contents == old(Contents) + [val]
      ensures head != null && tail != null
    {
      var n := new Node(val);
      if tail != null {
        tail.next := n;
      } else {
        head := n;
      }
      tail := n;
      Spine := Spine + [n];
      Contents := Contents + [val];
      Repr := Repr + {n};
    }

    /** `pop`: the front value, or `None` on an empty list; `tail` is cleared
        together with `head`. */
    method Pop() returns (r: Option<int>)
      requires Valid()
      modifies this
      ensures Valid() && Repr == old(Repr)
      ensures old(Contents) == [] ==> r == None && Contents == []
      ensures old(Contents) != [] ==> r == Some(old(Contents)[0]) && Contents == old(Contents)[1..]
      ensures (head == null) <==> (tail == null)
    {
      if head == null {
        return None;
      }
      var h := head;
      ghost var rest := Spine[1..];
      assert forall i :: 0 <= i < |rest| ==> rest[i] == Spine[i + 1];
      head := h.next;
      if head == null {
        tail := null;
      }
      Spine := rest;
      Contents := Contents[1..];
      r := Some(h.val);
    }

    /** `peek`: the front value, if any. */
    function Peek(): (r: Option<int>)
      requires Valid()
      reads this, Repr
      ensures r == if Contents == [] then None else Some(Contents[0])
    {
      if head == null then None else Some(head.val)
    }

    /** `peek_mut` followed by a write through the returned reference: only
        the front value changes. */
    method PeekMut(f: int -> int)
      requires Valid()
      modifies this, Repr
      ensures Valid() && Spine == old(Spine) && Repr == old(Repr) && head == old(head) && tail == old(tail)
      ensures Contents == if old(Contents) == [] then [] else [f(old(Contents)[0])] + old(Contents)[1..]
    {
      if head != null {
        SetVal(head, 0, f(head.val));
      }
    }

    /** The write through a reference to the value of node `i`. */
    method SetVal(n: Node, ghost i: nat, x: int)
      requires Valid() && i < |Spine| && n == Spine[i]
      modifies this, n
      ensures Valid() && Spine == old(Spine) && Repr == old(Repr) && head == old(head) && tail == old(tail)
      ensures Contents == old(Contents)[i := x]
    {
      assert forall k :: 0 <= k < |Spine| && k != i ==> Spine[k] != n;
      n.val := x;
      Contents := Contents[i := x];
    }

    /** `iter` run to the end: the values from head to tail. */
    method Iter() returns (vals: seq<int>)
      requires Valid()
      ensures vals == Contents
    {
      vals := [];
      var cur := head;
      var i := 0;
      while cur != null
        invariant 0 <= i <= |Spine|
        invariant cur == if i < |Spine| then Spine[i] else null
        invariant vals == Contents[..i]
        decreases |Spine| - i
      {
        assert Contents[..i + 1] == Contents[..i] + [cur.val];
        vals := vals + [cur.val];
        cur := cur.next;
        i := i + 1;
      }
      assert Contents[..i] == Contents;
    }

    /** `iter_mut` run to the end, applying `f` through each reference: every
        value is updated in place, head to tail, and the nodes stay linked
        as they were. */
    method IterMut(f: int -> int)
      requires Valid()
      modifies this, Repr
      ensures Valid() && Spine == old(Spine) && Repr == old(Repr) && head == old(head) && tail == old(tail)
      ensures |Contents| == |old(Contents)|
      ensures forall k :: 0 <= k < |Contents| ==> Contents[k] == f(old(Contents)[k])
    {
      var cur := head;
      var i := 0;
      while cur != null
        invariant 0 <= i <= |Spine| && Spine == old(Spine) && Repr == old(Repr)
        invariant head == old(head) && tail == old(tail)
        invariant Valid()
        invariant cur == if i < |Spine| then Spine[i] else null
        invariant |Contents| == |old(Contents)|
        invariant forall k :: 0 <= k < i ==> Contents[k] == f(old(Contents)[k])
        invariant forall k :: i <= k < |Contents| ==> Contents[k] == old(Contents)[k]
        decreases |Spine| - i
      {
        SetVal(cur, i, f(cur.val));
        cur := cur.next;
        i := i + 1;
      }
    }

    /** `into_iter` run to the end: popping until `None` drains the values
        in FIFO order. */
    method Drain() returns (vals: seq<int>)
      requires Valid()
      modifies this
      ensures Valid() && Contents == [] && vals == old(Contents)
    {
      vals := [];
      var r := Pop();
      while r.Some?
        invariant Valid() && Repr == old(Repr)
        invariant r.Some? ==> old(Contents) == vals + [r.value] + Contents
        invariant r.None? ==> old(Contents) == vals && Contents == []
        decreases |Contents| + if r.Some? then 1 else 0
      {
        vals := vals + [r.value];
        r := Pop();
      }
    }
  }

  /** The opening of the source's `basics` test: `None` from a new list,
      then the first two of three pushed values. */
  method BasicsStart() returns (list: LinkedList, pops: seq<Option<int>>)
    ensures fresh(list) && fresh(list.Repr) && list.Valid() && list.Contents == [3]
    ensures pops == [None, Some(1), Some(2)]
  {
    list := new LinkedList();
    var p0 := list.Pop();
    list.Push(1);
    list.Push(2);
    list.Push(3);
    var p1 := list.Pop();
    var p2 := list.Pop();
    pops := [p0, p1, p2];
  }

  /** Pushing two values behind `front` and popping four times. */
  method PushTwoPopFour(list: LinkedList, front: int, x: int, y: int) returns (pops: seq<Option<int>>)
    requires list.Valid() && list.Contents == [front]
    modifies list, list.Repr
    ensures list.Valid() && list.Contents == [] && fresh(list.Repr - old(list.Repr))
    ensures pops == [Some(front), Some(x), Some(y), None]
  {
    list.Push(x);
    list.Push(y);
    var p0 := list.Pop();
    var p1 := list.Pop();
    var p2 := list.Pop();
    var p3 := list.Pop();
    pops := [p0, p1, p2, p3];
  }

  /** Pushing two values onto an empty list and popping three times. */
  method PushTwoPopThree(list: LinkedList, x: int, y: int) returns (pops: seq<Option<int>>)
    requires list.Valid() && list.Contents == []
    modifies list, list.Repr
    ensures list.Valid() && list.Contents == [] && fresh(list.Repr - old(list.Repr))
    ensures pops == [Some(x), Some(y), None]
  {
    list.Push(x);
    list.Push(y);
    var p0 := list.Pop();
    var p1 := list.Pop();
    var p2 := list.Pop();
    pops := [p0, p1, p2];
  }

  /** The source's `basics` test: pops come out in push order, with `None`
      on an empty list, also after it was emptied and refilled. */
  method Basics() returns (pops: seq<Option<int>>)
    ensures pops == [None, Some(1), Some(2), Some(3), Some(4), Some(5), None, Some(6), Some(7), None]
  {
    var list, a := BasicsStart();
    var b := PushTwoPopFour(list, 3, 4, 5);
    var c := PushTwoPopThree(list, 6, 7);
    pops := a + b + c;
  }

  /** A list holding `xs`, pushed in order. */
  method FromSeq(xs: seq<int>) returns (list: LinkedList)
    ensures fresh(list) && fresh(list.Repr) && list.Valid() && list.Contents == xs
  {
    list := new LinkedList();
    for i := 0 to |xs|
      invariant fresh(list) && fresh(list.Repr) && list.Valid() && list.Contents == xs[..i]
    {
      assert xs[..i + 1] == xs[..i] + [xs[i]];
      list.Push(xs[i]);
    }
    assert xs[..|xs|] == xs;
  }

  /** The source's `into_iter` and `iter` tests. */
  method Iterators() returns (drained: seq<int>, listed: seq<int>)
    ensures drained == [1, 2, 3] && listed == [1, 2, 3]
  {
    var a := FromSeq([1, 2, 3]);
    drained := a.Drain();
    var b := FromSeq([1, 2, 3]);
    listed := b.Iter();
  }

  /** The opening of the source's mixed test: pops between pushes, then a
      `peek`. */
  method MixedStart() returns (list: LinkedList, out: seq<Option<int>>)
    ensures fresh(list) && fresh(list.Repr) && list.Valid() && list.Contents == [3, 4, 5]
    ensures out == [Some(1), Some(2), Some(3)]
  {
    list := FromSeq([1, 2, 3]);
    var a := list.Pop();
    list.Push(4);
    var b := list.Pop();
    list.Push(5);
    var c := list.Peek();
    out := [a, b, c];
  }

  /** The middle of the source's mixed test: a push, a write through
      `peek_mut`, a `peek` and a pop. */
  method MixedMiddle(list: LinkedList) returns (out: seq<Option<int>>)
    requires list.Valid() && list.Contents == [3, 4, 5]
    modifies list, list.Repr
    ensures list.Valid() && list.Contents == [4, 5, 6] && fresh(list.Repr - old(list.Repr))
    ensures out == [Some(30), Some(30)]
  {
    list.Push(6);
    list.PeekMut(x => x * 10);
    var d := list.Peek();
    var e := list.Pop();
    out := [d, e];
  }

  /** The end of the source's mixed test: `iter_mut` scales every value,
      `iter` lists them, a pop, and `peek_mut` writes the new front. */
  method MixedEnd(list: LinkedList) returns (out: seq<Option<int>>, listed: seq<int>)
    requires list.Valid() && list.Contents == [4, 5, 6]
    modifies list, list.Repr
    ensures out == [Some(400), Some(5000)]
    ensures listed == [400, 500, 600]
  {
    list.IterMut(x => x * 100);
    listed := list.Iter();
    var f := list.Pop();
    list.PeekMut(x => x * 10);
    var g := list.Peek();
    list.Push(7);
    out := [f, g];
  }

  /** The source's mixed test, in three parts. */
  method Mixed() returns (out: seq<Option<int>>, listed: seq<int>)
    ensures out == [Some(1), Some(2), Some(3), Some(30), Some(30), Some(400), Some(5000)]
    ensures listed == [400, 500, 600]
  {
    var list, first := MixedStart();
    var middle := MixedMiddle(list);
    var last;
    last, listed := MixedEnd(list);
    out := first + middle + last;
  }
}
