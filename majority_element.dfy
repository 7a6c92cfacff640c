/** src/general/majority_element.rs: three ways of finding the element of a
    ballot box that holds more than half of the votes.  `naive` and
    `booyer_moore` are loops over the votes; `divide_and_conquer` is a
    recursion on halves that can miss a majority. */
module MajorityElement {
  import opened Base

  /** `x` holds more than half of the votes, `len / 2` rounded down as in
      the source. */
  predicate IsMajority(s: seq<nat>, x: nat)
  {
    multiset(s)[x] > |s| / 2
  }

  /** There is at most one majority. */
  lemma MajorityUnique(s: seq<nat>, x: nat, y: nat)
    requires IsMajority(s, x) && IsMajority(s, y)
    ensures x == y
  {
    if x != y {
      MultisetSplit(multiset(s), x, y);
    }
  }

  lemma MultisetSplit(m: multiset<nat>, x: nat, y: nat)
    requires x != y
    ensures m[x] + m[y] <= |m|
  {
    var rest := m - multiset{}[x := m[x]][y := m[y]];
    assert m == multiset{}[x := m[x]][y := m[y]] + rest;
    assert |multiset{}[x := m[x]][y := m[y]]| == m[x] + m[y] by {
      var a := multiset{}[x := m[x]];
      assert |a| == m[x];
      assert a[y := m[y]] == a + multiset{}[y := m[y]];
    }
  }

  /** The inner loop of `naive`: how many votes are for `x`. */
  method CountVotes(s: seq<nat>, x: nat) returns (count: nat)
    ensures count == multiset(s)[x]
  {
    count := 0;
    for j := 0 to |s|
      invariant count == multiset(s[..j])[x]
    {
      assert s[..j + 1] == s[..j] + [s[j]];
      if s[j] == x {
        count := count + 1;
      }
    }
    assert s[..|s|] == s;
  }

  /** `naive`: the first vote, in ballot order, whose count passes half. */
  method Naive(s: seq<nat>) returns (r: Option<nat>)
    ensures r.Some? ==> IsMajority(s, r.value)
    ensures r.None? <==> forall x :: !IsMajority(s, x)
  {
    for i := 0 to |s|
      invariant forall k :: 0 <= k < i ==> !IsMajority(s, s[k])
    {
      var count := CountVotes(s, s[i]);
      if count > |s| / 2 {
        return Some(s[i]);
      }
    }
    forall x ensures !IsMajority(s, x) {
      if x !in multiset(s) {
        assert multiset(s)[x] == 0;
      } else {
        var k :| 0 <= k < |s| && s[k] == x;
      }
    }
    return None;
  }

  /** The voting pass of `booyer_moore`, in one arithmetic invariant: for
      the votes seen so far, twice the candidate's count less their number
      is at most `count`, and the same quantity for every other value is at
      most `-count`. */
  ghost predicate Votes(t: seq<nat>, candidate: nat, count: int)
  {
    0 <= count <= |t| &&
    forall x :: 2 * multiset(t)[x] - |t| <= if x == candidate then count else -count
  }

  lemma VoteStep(t: seq<nat>, v: nat, candidate: nat, count: int, cand': nat, count': int)
    requires Votes(t, candidate, count)
    requires cand' == (if count == 0 then v else candidate)
    requires count' == (if v == cand' then count + 1 else count - 1)
    ensures Votes(t + [v], cand', count')
  {
    var u := t + [v];
    assert multiset(u) == multiset(t) + multiset{v};
    forall x ensures 2 * multiset(u)[x] - |u| <= if x == cand' then count' else -count' {
      assert multiset(u)[x] == multiset(t)[x] + if x == v then 1 else 0;
    }
  }

  /** When a majority exists, the voting pass ends with it as candidate. */
  lemma VotesFindMajority(s: seq<nat>, candidate: nat, count: int, m: nat)
    requires Votes(s, candidate, count) && IsMajority(s, m)
    ensures candidate == m
  {
    assert 2 * multiset(s)[m] - |s| <= if m == candidate then count else -count;
  }

  /** The voting loop of `booyer_moore`: `count` stays between zero and the
      number of votes seen, and a majority, when there is one, ends as the
      candidate. */
  method VotingPass(s: seq<nat>) returns (candidate: nat, count: int)
    ensures 0 <= count <= |s|
    ensures forall m :: IsMajority(s, m) ==> candidate == m
  {
    count, candidate := 0, 0;
    for i := 0 to |s|
      invariant Votes(s[..i], candidate, count)
    {
      var v := s[i];
      ghost var c0, k0 := candidate, count;
      if count == 0 {
        candidate := v;
      }
      if v == candidate {
        count := count + 1;
      } else {
        count := count - 1;
      }
      assert s[..i + 1] == s[..i] + [v];
      VoteStep(s[..i], v, c0, k0, candidate, count);
    }
    assert s[..|s|] == s;
    forall m | IsMajority(s, m) ensures candidate == m {
      VotesFindMajority(s, candidate, count, m);
    }
  }

  /** `booyer_moore`: the counting pass confirms the candidate, so the
      answer is exactly the majority. */
  method BoyerMoore(s: seq<nat>) returns (r: Option<nat>)
    ensures r.Some? ==> IsMajority(s, r.value)
    ensures r.None? <==> forall x :: !IsMajority(s, x)
  {
    var candidate, _ := VotingPass(s);
    var freq := multiset(s)[candidate];
    if freq <= |s| / 2 {
      return None;
    }
    assert IsMajority(s, candidate);
    return Some(candidate);
  }

  /** `divide_and_conquer(ballot_box, left, right)`: the majority of each
      half, and a count over the whole range when only one half has one.
      The source subtracts one from `right`, so it needs `left < right`. */
  function DivideAndConquer(s: seq<nat>, left: nat, right: nat): Option<nat>
    requires left < right <= |s|
    decreases right - left
  {
    if left == right - 1 then Some(s[left])
    else
      var middle := (left + right) / 2;
      var lm := DivideAndConquer(s, left, middle);
      var rm := DivideAndConquer(s, middle, right);
      if lm.None? && rm.None? then None
      else if lm == rm then lm
      else if lm.None? then
        (if multiset(s[left..right])[rm.value] > (right - left) / 2 then rm else None)
      else if rm.None? then
        (if multiset(s[left..right])[lm.value] > (right - left) / 2 then lm else None)
      else None
  }

  /** Whatever `divide_and_conquer` returns is a majority of its range. */
  lemma {:induction false} DivideAndConquerSound(s: seq<nat>, left: nat, right: nat)
    requires left < right <= |s|
    ensures DivideAndConquer(s, left, right).Some? ==>
              IsMajority(s[left..right], DivideAndConquer(s, left, right).value)
    decreases right - left
  {
    if left < right - 1 {
      var middle := (left + right) / 2;
      DivideAndConquerSound(s, left, middle);
      DivideAndConquerSound(s, middle, right);
      var lm := DivideAndConquer(s, left, middle);
      var rm := DivideAndConquer(s, middle, right);
      if lm.Some? && lm == rm {
        assert s[left..right] == s[left..middle] + s[middle..right];
        assert multiset(s[left..right]) == multiset(s[left..middle]) + multiset(s[middle..right]);
      }
    } else {
      assert s[left..right] == [s[left]];
    }
  }

  /** One level of the recursion, case by case, for evaluating it on
      concrete ballot boxes. */
  lemma Leaf(s: seq<nat>, i: nat)
    requires i < |s|
    ensures DivideAndConquer(s, i, i + 1) == Some(s[i])
  {
  }

  lemma Agree(s: seq<nat>, left: nat, middle: nat, right: nat, x: Option<nat>)
    requires left + 1 < right <= |s| && middle == (left + right) / 2
    requires DivideAndConquer(s, left, middle) == x
    requires DivideAndConquer(s, middle, right) == x
    ensures DivideAndConquer(s, left, right) == x
  {
  }

  lemma Disagree(s: seq<nat>, left: nat, middle: nat, right: nat, x: nat, y: nat)
    requires left + 1 < right <= |s| && middle == (left + right) / 2 && x != y
    requires DivideAndConquer(s, left, middle) == Some(x)
    requires DivideAndConquer(s, middle, right) == Some(y)
    ensures DivideAndConquer(s, left, right) == None
  {
  }

  lemma OnlyLeft(s: seq<nat>, left: nat, middle: nat, right: nat, x: nat)
    requires left + 1 < right <= |s| && middle == (left + right) / 2
    requires DivideAndConquer(s, left, middle) == Some(x)
    requires DivideAndConquer(s, middle, right) == None
    ensures DivideAndConquer(s, left, right) ==
              if IsMajority(s[left..right], x) then Some(x) else None
  {
  }

  lemma OnlyRight(s: seq<nat>, left: nat, middle: nat, right: nat, y: nat)
    requires left + 1 < right <= |s| && middle == (left + right) / 2
    requires DivideAndConquer(s, left, middle) == None
    requires DivideAndConquer(s, middle, right) == Some(y)
    ensures DivideAndConquer(s, left, right) ==
              if IsMajority(s[left..right], y) then Some(y) else None
  {
  }

  /** The recursion misses a majority split across two halves with
      different majorities: four votes of seven for 1, yet no answer. */
  lemma DivideAndConquerMisses(s: seq<nat>)
    requires s == [1, 1, 1, 1, 2, 2, 2]
    ensures IsMajority(s, 1) && DivideAndConquer(s, 0, 7) == None
  {
    assert multiset(s)[1] == 4;
    MissesLeft(s);
    MissesRight(s);
    Disagree(s, 0, 3, 7, 1, 2);
  }

  lemma MissesLeft(s: seq<nat>)
    requires |s| == 7 && s[0] == s[1] == s[2] == 1
    ensures DivideAndConquer(s, 0, 3) == Some(1)
  {
    Leaf(s, 0); Leaf(s, 1); Leaf(s, 2);
    Agree(s, 1, 2, 3, Some(1));
    Agree(s, 0, 1, 3, Some(1));
  }

  lemma MissesRight(s: seq<nat>)
    requires s == [1, 1, 1, 1, 2, 2, 2]
    ensures DivideAndConquer(s, 3, 7) == Some(2)
  {
    Leaf(s, 3); Leaf(s, 4); Leaf(s, 5); Leaf(s, 6);
    Disagree(s, 3, 4, 5, 1, 2);
    Agree(s, 5, 6, 7, Some(2));
    assert s[3..7] == [1, 2, 2, 2] && multiset(s[3..7])[2] == 3;
    OnlyRight(s, 3, 5, 7, 2);
  }

  /** The source's ballot box, with five votes of nine for 4. */
  lemma ExampleMajority(s: seq<nat>)
    requires s == [4, 1, 3, 4, 2, 4, 4, 3, 4]
    ensures IsMajority(s, 4)
  {
    assert multiset(s)[4] == 5;
  }

  /** The source's `test_divide_and_conquer`. */
  lemma ExampleDivideAndConquer(s: seq<nat>)
    requires s == [4, 1, 3, 4, 2, 4, 4, 3, 4]
    ensures DivideAndConquer(s, 0, 9) == Some(4)
  {
    ExampleLeft(s);
    ExampleRight(s);
    OnlyRight(s, 0, 4, 9, 4);
    assert s[0..9] == s;
    ExampleMajority(s);
  }

  lemma ExampleLeft(s: seq<nat>)
    requires |s| == 9 && s[0] == 4 && s[1] == 1 && s[2] == 3 && s[3] == 4
    ensures DivideAndConquer(s, 0, 4) == None
  {
    Leaf(s, 0); Leaf(s, 1); Leaf(s, 2); Leaf(s, 3);
    Disagree(s, 0, 1, 2, 4, 1);
    Disagree(s, 2, 3, 4, 3, 4);
    Agree(s, 0, 2, 4, None);
  }

  lemma ExampleRight(s: seq<nat>)
    requires s == [4, 1, 3, 4, 2, 4, 4, 3, 4]
    ensures DivideAndConquer(s, 4, 9) == Some(4)
  {
    ExampleTail(s);
    Leaf(s, 4); Leaf(s, 5);
    Disagree(s, 4, 5, 6, 2, 4);
    assert s[4..9] == [2, 4, 4, 3, 4] && multiset(s[4..9])[4] == 3;
    OnlyRight(s, 4, 6, 9, 4);
  }

  lemma ExampleTail(s: seq<nat>)
    requires s == [4, 1, 3, 4, 2, 4, 4, 3, 4]
    ensures DivideAndConquer(s, 6, 9) == Some(4)
  {
    Leaf(s, 6); Leaf(s, 7); Leaf(s, 8);
    Disagree(s, 7, 8, 9, 3, 4);
    assert s[6..9] == [4, 3, 4] && multiset(s[6..9])[4] == 2;
    OnlyLeft(s, 6, 7, 9, 4);
  }

  /** The source's `test_naive` and `test_booyer_moore`. */
  method Examples() returns (naive: Option<nat>, boyerMoore: Option<nat>)
    ensures naive == Some(4) && boyerMoore == Some(4)
  {
    var s: seq<nat> := [4, 1, 3, 4, 2, 4, 4, 3, 4];
    ExampleMajority(s);
    naive := Naive(s);
    MajorityUnique(s, naive.value, 4);
    boyerMoore := BoyerMoore(s);
    MajorityUnique(s, boyerMoore.value, 4);
  }
}
