/** Shared vocabulary: an option type, sortedness, and the fact that a sorted
    permutation of a sequence is unique (used to pin down sorting results). */
module Base {

  datatype Option<T> = None | Some(value: T)

  /** Non-decreasing order. */
  ghost predicate Sorted(s: seq<int>)
  {
    forall i, j :: 0 <= i < j < |s| ==> s[i] <= s[j]
  }

  /** Non-decreasing order, stated on neighbours only. */
  ghost predicate AdjacentSorted(s: seq<int>)
  {
    forall i :: 0 <= i < |s| - 1 ==> s[i] <= s[i + 1]
  }

  lemma {:induction false} AdjacentSortedIsSorted(s: seq<int>)
    requires AdjacentSorted(s)
    ensures Sorted(s)
  {
    if |s| > 1 {
      AdjacentSortedIsSorted(s[1..]);
      assert Sorted(s[1..]);
      forall i, j | 0 <= i < j < |s| ensures s[i] <= s[j] {
        if i > 0 {
          assert s[i] == s[1..][i - 1] && s[j] == s[1..][j - 1];
        } else if j > 1 {
          assert s[1] == s[1..][0] && s[j] == s[1..][j - 1];
        }
      }
    }
  }

  lemma SortedHeadIsMin(s: seq<int>, x: int)
    requires Sorted(s) && x in multiset(s)
    ensures s[0] <= x
  {
    var k :| 0 <= k < |s| && s[k] == x;
  }

  /** Two sorted sequences with the same elements are equal. */
  lemma {:induction false} SortedPermutationUnique(a: seq<int>, b: seq<int>)
    requires Sorted(a) && Sorted(b) && multiset(a) == multiset(b)
    ensures a == b
  {
    if a != [] {
      assert |b| == |multiset(b)| == |a|;
      assert a[0] in multiset(b) && b[0] in multiset(a) by {
        assert a == [a[0]] + a[1..] && b == [b[0]] + b[1..];
      }
      SortedHeadIsMin(b, a[0]);
      SortedHeadIsMin(a, b[0]);
      assert a[0] == b[0];
      assert a == [a[0]] + a[1..] && b == [b[0]] + b[1..];
      assert multiset(a) == multiset{a[0]} + multiset(a[1..]);
      assert multiset(b) == multiset{b[0]} + multiset(b[1..]);
      assert multiset(a[1..]) == multiset(a) - multiset{a[0]};
      assert multiset(b[1..]) == multiset(b) - multiset{b[0]};
      SortedPermutationUnique(a[1..], b[1..]);
    }
  }

  function Swap<T>(s: seq<T>, i: nat, j: nat): (r: seq<T>)
    requires i < |s| && j < |s|
    ensures |r| == |s| && r[i] == s[j] && r[j] == s[i]
    ensures forall k :: 0 <= k < |s| && k != i && k != j ==> r[k] == s[k]
  {
    s[i := s[j]][j := s[i]]
  }

  lemma SwapPermutes<T>(s: seq<T>, i: nat, j: nat)
    requires i < |s| && j < |s|
    ensures multiset(Swap(s, i, j)) == multiset(s)
  {
  }

  /** Adding a new member of `universe` to `done` shrinks what is left. */
  lemma InsertShrinksRest<T>(universe: set<T>, done: set<T>, u: T)
    requires u in universe && u !in done
    ensures |universe - (done + {u})| < |universe - done|
  {
    assert universe - done == (universe - (done + {u})) + {u};
  }

  /** Growing `done` by anything that includes a new member of `universe`
      shrinks what is left. */
  lemma GrowShrinksRest<T>(universe: set<T>, done: set<T>, done': set<T>, u: T)
    requires done <= done' && u in universe && u in done' && u !in done
    ensures |universe - done'| < |universe - done|
  {
    var b := (universe * done') - done;
    assert universe - done == (universe - done') + b;
    assert (universe - done') * b == {};
    assert u in b;
  }

  /** A set of naturals in `[lo, hi)` has at most `hi - lo` members. */
  lemma {:induction false} RangeSetSize(s: set<nat>, lo: nat, hi: nat)
    requires forall x :: x in s ==> lo <= x < hi
    ensures |s| <= if hi < lo then 0 else hi - lo
    decreases hi
  {
    if hi <= lo {
      assert s == {} by {
        forall x | x in s ensures false {
        }
      }
    } else {
      RangeSetSize(s - {hi - 1}, lo, hi - 1);
    }
  }

  /** The set `{0, ..., n - 1}`. */
  function Range(n: nat): (r: set<nat>)
    ensures |r| == n
    ensures forall x: nat :: x in r <==> x < n
  {
    if n == 0 then {} else Range(n - 1) + {n - 1}
  }

  // ---------------------------------------------------------------- division

  /** `x / m`, by repeated subtraction; kept recursive so that the
      solver unfolds it only on demand.  `QuotRemUnique` ties it to the
      division operator. */
  function Quot(x: nat, m: nat): nat
    requires m >= 1
    decreases x
  {
    if x < m then 0 else 1 + Quot(x - m, m)
  }

  /** `x % m`, by repeated subtraction. */
  function Rem(x: nat, m: nat): (a: nat)
    requires m >= 1
    ensures a < m && (x < m ==> a == x)
    decreases x
  {
    if x < m then x else Rem(x - m, m)
  }

  lemma MulMono(a: nat, b: nat, m: nat)
    requires a <= b
    ensures a * m <= b * m
  {
    assert b * m == a * m + (b - a) * m;
  }

  /** Quotient and remainder put `x` back together. */
  lemma {:induction false} QuotRem(x: nat, m: nat)
    requires m >= 1
    ensures x == Quot(x, m) * m + Rem(x, m)
    decreases x
  {
    if x >= m {
      QuotRem(x - m, m);
      assert (1 + Quot(x - m, m)) * m == m + Quot(x - m, m) * m;
    }
  }

  /** A decomposition `x == q * m + a` with `a < m` is the quotient and
      remainder. */
  lemma QuotRemUnique(x: nat, m: nat, q: nat, a: nat)
    requires m >= 1 && a < m && x == q * m + a
    ensures Quot(x, m) == q && Rem(x, m) == a
  {
    var q', a' := Quot(x, m), Rem(x, m);
    QuotRem(x, m);
    assert (q - q') * m == a' - a;
    if q > q' {
      MulMono(1, q - q', m);
    } else if q < q' {
      MulMono(1, q' - q, m);
    }
  }
}
