/** The two radix sorts of src/sorting/radix_sort.rs.  Both are built from
    one pass: distribute the sequence into buckets by the digit
    `(x / p) % r`, keeping the order inside each bucket, and concatenate the
    buckets.  After passes on the digits `1, r, r * r, ...` up to `p` the
    sequence is sorted on `x % p`; it is sorted outright once `p` exceeds
    every element, and each variant's stopping test decides whether that
    last pass happens. */
module RadixSort {
  import opened Base

  function Pow(b: nat, k: nat): (r: nat)
    ensures b >= 1 ==> r >= 1
  {
    if k == 0 then 1 else b * Pow(b, k - 1)
  }

  /** The digit of `x` at position `p` in base `r`: `(x / p) % r`. */
  function Digit(x: nat, p: nat, r: nat): (d: nat)
    requires p >= 1 && r >= 1
    ensures d < r && (x < p ==> d == 0)
  {
    Rem(Quot(x, p), r)
  }

  /** The elements of `s` whose digit is `d`, in their order in `s`. */
  function Bucket(s: seq<nat>, p: nat, r: nat, d: nat): seq<nat>
    requires p >= 1 && r >= 1
  {
    if s == [] then []
    else Bucket(s[..|s| - 1], p, r, d) + if Digit(s[|s| - 1], p, r) == d then [s[|s| - 1]] else []
  }

  /** Buckets `0..k` one after another. */
  function Buckets(s: seq<nat>, p: nat, r: nat, k: nat): seq<nat>
    requires p >= 1 && r >= 1
  {
    if k == 0 then [] else Buckets(s, p, r, k - 1) + Bucket(s, p, r, k - 1)
  }

  /** One pass: a stable distribution of `s` on the digit at `p`. */
  function Distribute(s: seq<nat>, p: nat, r: nat): seq<nat>
    requires p >= 1 && r >= 1
  {
    Buckets(s, p, r, r)
  }

  /** Where bucket `d` starts in the distribution. */
  function Start(s: seq<nat>, p: nat, r: nat, d: nat): nat
    requires p >= 1 && r >= 1
  {
    |Buckets(s, p, r, d)|
  }

  /** The order the passes so far establish: by the value below `p`. */
  ghost predicate KeySorted(s: seq<nat>, p: nat)
    requires p >= 1
  {
    forall i, j :: 0 <= i < j < |s| ==> Rem(s[i], p) <= Rem(s[j], p)
  }

  // ---------------------------------------------------------------- buckets

  lemma BucketGrow(s: seq<nat>, i: nat, p: nat, r: nat, d: nat)
    requires p >= 1 && r >= 1 && i < |s|
    ensures Bucket(s[..i + 1], p, r, d) == Bucket(s[..i], p, r, d) + if Digit(s[i], p, r) == d then [s[i]] else []
  {
    assert s[..i + 1][..i] == s[..i];
  }

  /** The bucket of a prefix is a prefix of the bucket. */
  lemma {:induction false} BucketPrefix(s: seq<nat>, i: nat, p: nat, r: nat, d: nat)
    requires p >= 1 && r >= 1 && i <= |s|
    ensures |Bucket(s[..i], p, r, d)| <= |Bucket(s, p, r, d)|
    ensures Bucket(s[..i], p, r, d) == Bucket(s, p, r, d)[..|Bucket(s[..i], p, r, d)|]
    decreases |s|
  {
    if i == |s| {
      assert s[..i] == s;
    } else {
      var t := s[..|s| - 1];
      assert s[..i] == t[..i];
      BucketPrefix(t, i, p, r, d);
    }
  }

  /** How often `x` occurs in `s`. */
  ghost function Occ(s: seq<nat>, x: nat): nat
  {
    multiset(s)[x]
  }

  lemma OccConcat(a: seq<nat>, b: seq<nat>, x: nat)
    ensures Occ(a + b, x) == Occ(a, x) + Occ(b, x)
  {
  }

  lemma {:induction false} BucketCount(s: seq<nat>, p: nat, r: nat, d: nat, x: nat)
    requires p >= 1 && r >= 1
    ensures Occ(Bucket(s, p, r, d), x) == if Digit(x, p, r) == d then Occ(s, x) else 0
  {
    if s != [] {
      var t := s[..|s| - 1];
      BucketCount(t, p, r, d, x);
      assert s == t + [s[|s| - 1]];
    }
  }

  lemma {:induction false} BucketsCount(s: seq<nat>, p: nat, r: nat, k: nat, x: nat)
    requires p >= 1 && r >= 1
    ensures Occ(Buckets(s, p, r, k), x) == if Digit(x, p, r) < k then Occ(s, x) else 0
  {
    if k > 0 {
      var j := k - 1;
      BucketsCount(s, p, r, j, x);
      BucketCount(s, p, r, j, x);
      OccConcat(Buckets(s, p, r, j), Bucket(s, p, r, j), x);
    }
  }

  /** A pass is a permutation. */
  lemma DistributePermutes(s: seq<nat>, p: nat, r: nat)
    requires p >= 1 && r >= 1
    ensures multiset(Distribute(s, p, r)) == multiset(s) && |Distribute(s, p, r)| == |s|
  {
    forall x ensures multiset(Distribute(s, p, r))[x] == multiset(s)[x] {
      BucketsCount(s, p, r, r, x);
      assert Occ(Distribute(s, p, r), x) == Occ(s, x);
    }
    assert multiset(Distribute(s, p, r)) == multiset(s);
    assert |multiset(Distribute(s, p, r))| == |multiset(s)|;
  }

  lemma {:induction false} StartMono(s: seq<nat>, p: nat, r: nat, d: nat, e: nat)
    requires p >= 1 && r >= 1 && d <= e
    ensures Start(s, p, r, d) <= Start(s, p, r, e)
    decreases e
  {
    if d < e {
      StartMono(s, p, r, d, e - 1);
    }
  }

  // ---------------------------------------------------------------- order

  /** The digit is the source's `(x / p) % r`. */
  lemma DigitIsDivMod(x: nat, p: nat, r: nat)
    requires p >= 1 && r >= 1
    ensures Digit(x, p, r) == (x / p) % r
  {
    QuotRemUnique(x, p, x / p, x % p);
    QuotRemUnique(x / p, r, (x / p) / r, (x / p) % r);
  }

  /** The source's digit computation, `(x / p) % r`. */
  method DigitOf(x: nat, p: nat, r: nat) returns (d: nat)
    requires p >= 1 && r >= 1
    ensures d == Digit(x, p, r)
  {
    d := (x / p) % r;
    DigitIsDivMod(x, p, r);
  }

  /** The digit of a number given as `(q2 * r + d) * p + a`. */
  lemma DigitIs(x: nat, p: nat, r: nat, q: nat, a: nat, q2: nat, d: nat)
    requires p >= 1 && r >= 1 && a < p && d < r
    requires x == q * p + a && q == q2 * r + d
    ensures Digit(x, p, r) == d
  {
    QuotRemUnique(x, p, q, a);
    QuotRemUnique(q, r, q2, d);
  }

  /** The value below `p * r` is the digit at `p` followed by the value
      below `p`. */
  lemma ModSplit(x: nat, p: nat, r: nat)
    requires p >= 1 && r >= 1
    ensures Rem(x, p * r) == Digit(x, p, r) * p + Rem(x, p)
  {
    var q, a := Quot(x, p), Rem(x, p);
    var q2, b := Quot(q, r), Rem(q, r);
    QuotRem(x, p);
    QuotRem(q, r);
    SplitRem(x, p, r, q, a, q2, b);
  }

  /** The remainder below `p * r` of `x = (q2 r + b) p + a`. */
  lemma SplitRem(x: nat, p: nat, r: nat, q: nat, a: nat, q2: nat, b: nat)
    requires p >= 1 && r >= 1 && a < p && b < r && x == q * p + a && q == q2 * r + b
    ensures Rem(x, p * r) == b * p + a
  {
    SplitArith(x, p, r, q, a, q2, b);
    QuotRemUnique(x, p * r, q2, b * p + a);
  }

  /** `x = q p + a` and `q = q2 r + b` make `x = q2 (p r) + (b p + a)`. */
  lemma SplitArith(x: nat, p: nat, r: nat, q: nat, a: nat, q2: nat, b: nat)
    requires a < p && b < r && x == q * p + a && q == q2 * r + b
    ensures x == q2 * (p * r) + (b * p + a) && b * p + a < p * r
  {
    Regroup(q, q2, b, p, r);
    DigitBelow(b, a, p, r);
  }

  lemma Regroup(q: nat, q2: nat, b: nat, p: nat, r: nat)
    requires q == q2 * r + b
    ensures q * p == q2 * (p * r) + b * p
  {
  }

  lemma DigitBelow(b: nat, a: nat, p: nat, r: nat)
    requires b < r && a < p
    ensures b * p + a < p * r
  {
    MulMono(b, r - 1, p);
    assert (r - 1) * p == r * p - p;
  }

  /** Below `p * r`, a smaller digit at `p` means a smaller value. */
  lemma DigitOrders(x: nat, y: nat, p: nat, r: nat)
    requires p >= 1 && r >= 1
    requires Digit(x, p, r) < Digit(y, p, r) || (Digit(x, p, r) == Digit(y, p, r) && Rem(x, p) <= Rem(y, p))
    ensures Rem(x, p * r) <= Rem(y, p * r)
  {
    ModSplit(x, p, r);
    ModSplit(y, p, r);
    PlaceOrders(Digit(x, p, r), Rem(x, p), Digit(y, p, r), Rem(y, p), p);
  }

  /** Two-place numerals in base `p` compare by their high place first. */
  lemma PlaceOrders(dx: nat, ax: nat, dy: nat, ay: nat, p: nat)
    requires ax < p && ay < p && (dx < dy || (dx == dy && ax <= ay))
    ensures dx * p + ax <= dy * p + ay
  {
    if dx < dy {
      var d1 := dx + 1;
      MulMono(d1, dy, p);
      assert d1 * p == dx * p + p;
    }
  }

  /** A bucket of a sequence sorted below `p` is sorted below `p`. */
  lemma {:induction false} BucketKeySorted(s: seq<nat>, p: nat, r: nat, d: nat)
    requires p >= 1 && r >= 1 && KeySorted(s, p)
    ensures KeySorted(Bucket(s, p, r, d), p)
    ensures forall y :: y in Bucket(s, p, r, d) ==> y in s && Digit(y, p, r) == d
  {
    if s != [] {
      var t := s[..|s| - 1];
      var last := s[|s| - 1];
      assert KeySorted(t, p);
      BucketKeySorted(t, p, r, d);
      var b := Bucket(t, p, r, d);
      assert forall y :: y in t ==> y in s;
      if Digit(last, p, r) == d {
        assert forall y :: y in b ==> Rem(y, p) <= Rem(last, p) by {
          forall y | y in b ensures Rem(y, p) <= Rem(last, p) {
            var i :| 0 <= i < |t| && t[i] == y;
            assert s[i] == y;
          }
        }
        var c := b + [last];
        forall i, j | 0 <= i < j < |c| ensures Rem(c[i], p) <= Rem(c[j], p) {
          if j == |b| {
            assert c[i] == b[i] && b[i] in b;
          } else {
            assert c[i] == b[i] && c[j] == b[j];
          }
        }
      }
    }
  }

  /** Values with digits below `d`, sorted below `p * r`, followed by
      values with digit `d`, sorted below `p`, are sorted below `p * r`. */
  lemma ConcatKeySorted(x: seq<nat>, b: seq<nat>, p: nat, r: nat, d: nat)
    requires p >= 1 && r >= 1 && KeySorted(x, p * r) && KeySorted(b, p)
    requires forall y :: y in x ==> Digit(y, p, r) < d
    requires forall y :: y in b ==> Digit(y, p, r) == d
    ensures KeySorted(x + b, p * r)
  {
    var c := x + b;
    forall i, j | 0 <= i < j < |c| ensures Rem(c[i], p * r) <= Rem(c[j], p * r) {
      if j < |x| {
        assert c[i] == x[i] && c[j] == x[j];
      } else if i >= |x| {
        assert c[i] == b[i - |x|] && c[j] == b[j - |x|];
        assert b[i - |x|] in b && b[j - |x|] in b;
        DigitOrders(c[i], c[j], p, r);
      } else {
        assert c[i] == x[i] && x[i] in x && c[j] == b[j - |x|] && b[j - |x|] in b;
        DigitOrders(c[i], c[j], p, r);
      }
    }
  }

  /** The first `k` buckets, concatenated, are sorted below `p * r`. */
  lemma {:induction false} BucketsKeySorted(s: seq<nat>, p: nat, r: nat, k: nat)
    requires p >= 1 && r >= 1 && KeySorted(s, p)
    ensures KeySorted(Buckets(s, p, r, k), p * r)
    ensures forall y :: y in Buckets(s, p, r, k) ==> Digit(y, p, r) < k
  {
    if k > 0 {
      var j := k - 1;
      BucketsKeySorted(s, p, r, j);
      BucketKeySorted(s, p, r, j);
      var x, b := Buckets(s, p, r, j), Bucket(s, p, r, j);
      ConcatKeySorted(x, b, p, r, j);
      assert Buckets(s, p, r, k) == x + b;
    }
  }

  /** A pass on the digit at `p` extends the order below `p` to the order
      below `p * r`. */
  lemma DistributeKeySorted(s: seq<nat>, p: nat, r: nat)
    requires p >= 1 && r >= 1 && KeySorted(s, p)
    ensures KeySorted(Distribute(s, p, r), p * r)
  {
    BucketsKeySorted(s, p, r, r);
  }

  /** Below a bound larger than every element, the order is the order. */
  lemma KeySortedIsSorted(s: seq<nat>, p: nat)
    requires p >= 1 && KeySorted(s, p) && forall x :: x in s ==> x < p
    ensures Sorted(s)
  {
    forall i, j | 0 <= i < j < |s| ensures s[i] <= s[j] {
      assert s[i] in s && s[j] in s;
    }
  }

  /** A pass in which every digit is 0 changes nothing. */
  lemma {:induction false} AllZeroBucket(s: seq<nat>, p: nat, r: nat, d: nat)
    requires p >= 1 && r >= 1 && forall x :: x in s ==> Digit(x, p, r) == 0
    ensures Bucket(s, p, r, d) == if d == 0 then s else []
  {
    if s != [] {
      var t := s[..|s| - 1];
      assert forall x :: x in t ==> x in s;
      AllZeroBucket(t, p, r, d);
      assert s == t + [s[|s| - 1]];
    }
  }

  lemma {:induction false} AllZeroBuckets(s: seq<nat>, p: nat, r: nat, k: nat)
    requires p >= 1 && r >= 1 && 1 <= k && forall x :: x in s ==> Digit(x, p, r) == 0
    ensures Buckets(s, p, r, k) == s
  {
    AllZeroBucket(s, p, r, k - 1);
    if k > 1 {
      AllZeroBuckets(s, p, r, k - 1);
    } else {
      assert Buckets(s, p, r, 0) == [];
    }
  }

  lemma AllZeroDistribute(s: seq<nat>, p: nat, r: nat)
    requires p >= 1 && r >= 1 && forall x :: x in s ==> Digit(x, p, r) == 0
    ensures Distribute(s, p, r) == s
  {
    AllZeroBuckets(s, p, r, r);
  }

  /** Membership survives a pass. */
  lemma DistributeMembers(s: seq<nat>, p: nat, r: nat)
    requires p >= 1 && r >= 1
    ensures forall x :: x in Distribute(s, p, r) <==> x in s
  {
    DistributePermutes(s, p, r);
    forall x ensures x in Distribute(s, p, r) <==> x in s {
      assert x in Distribute(s, p, r) <==> x in multiset(Distribute(s, p, r));
      assert x in s <==> x in multiset(s);
    }
  }

  /** With radix 1 every digit is 0, so a pass changes nothing and
      `digit_pow * radix` stays `digit_pow`: the in-place loop would repeat
      the same state for ever. */
  lemma RadixOneStalls(s: seq<nat>, p: nat)
    requires p >= 1
    ensures Distribute(s, p, 1) == s && p * 1 == p
  {
    AllZeroDistribute(s, p, 1);
  }

  // ---------------------------------------------------------------- naive

  /** `finished`: every digit at `p` (in base 10) is 0. */
  ghost predicate AllZero(s: seq<nat>, p: nat)
    requires p >= 1
  {
    forall x :: x in s ==> Digit(x, p, 10) == 0
  }

  /** The passes of `radix_sort_naive` from the digit at `p` on, for
      elements at most `m`: a pass on the digit at `p`, then stop if all
      those digits were 0. */
  ghost function NaiveFrom(s: seq<nat>, p: nat, m: nat): seq<nat>
    requires p >= 1 && forall x :: x in s ==> x <= m
    decreases if p <= m then m + 1 - p else 0
  {
    DistributeMembers(s, p, 10);
    if AllZero(s, p) then Distribute(s, p, 10) else NaiveFrom(Distribute(s, p, 10), 10 * p, m)
  }

  /** The largest element, 0 for the empty sequence. */
  function MaxOf(s: seq<nat>): (m: nat)
    ensures forall x :: x in s ==> x <= m
    ensures s != [] ==> m in s
  {
    if s == [] then 0
    else
      var t := s[..|s| - 1];
      assert s == t + [s[|s| - 1]];
      var m := MaxOf(t);
      if s[|s| - 1] > m then s[|s| - 1] else m
  }

  ghost function Naive(s: seq<nat>): seq<nat>
  {
    NaiveFrom(s, 1, MaxOf(s))
  }

  /** The naive passes permute. */
  lemma {:induction false} NaiveFromPermutes(s: seq<nat>, p: nat, m: nat)
    requires p >= 1 && forall x :: x in s ==> x <= m
    ensures multiset(NaiveFrom(s, p, m)) == multiset(s)
    decreases if p <= m then m + 1 - p else 0
  {
    DistributePermutes(s, p, 10);
    DistributeMembers(s, p, 10);
    if !AllZero(s, p) {
      NaiveFromPermutes(Distribute(s, p, 10), 10 * p, m);
    }
  }

  /** Every position from `p` up to `m` has an element with a nonzero
      digit there. */
  ghost predicate Live(s: seq<nat>, p: nat, m: nat)
    requires p >= 1
    decreases if p <= m then m + 1 - p else 0
  {
    p <= m ==> (exists x :: x in s && Digit(x, p, 10) != 0) && Live(s, 10 * p, m)
  }

  /** A permutation has the same elements. */
  lemma SameElements(t: seq<nat>, s: seq<nat>)
    requires multiset(t) == multiset(s)
    ensures forall x :: x in t <==> x in s
  {
    forall x ensures x in t <==> x in s {
      assert x in t <==> x in multiset(t);
      assert x in s <==> x in multiset(s);
    }
  }

  /** The naive passes end sorted when no position up to the largest
      element is all zeros; `t` is the sequence after the passes below `p`,
      `s` the input. */
  lemma {:induction false} NaiveFromSorts(s: seq<nat>, t: seq<nat>, p: nat, m: nat)
    requires p >= 1 && multiset(t) == multiset(s) && KeySorted(t, p)
    requires forall x :: x in s ==> x <= m
    requires Live(s, p, m)
    ensures forall x :: x in t ==> x <= m
    ensures Sorted(NaiveFrom(t, p, m))
    decreases if p <= m then m + 1 - p else 0
  {
    SameElements(t, s);
    var u := Distribute(t, p, 10);
    DistributeKeySorted(t, p, 10);
    DistributeMembers(t, p, 10);
    DistributePermutes(t, p, 10);
    if AllZero(t, p) {
      assert m < p;
      assert forall x :: x in u ==> x < 10 * p;
      KeySortedIsSorted(u, 10 * p);
    } else {
      NaiveFromSorts(s, u, 10 * p, m);
    }
  }

  /** The buckets of the first pass on `[105, 2, 100]`. */
  lemma FirstPassBuckets(s: seq<nat>, d: nat)
    requires s == [105, 2, 100]
    ensures Bucket(s, 1, 10, d) == if d == 0 then [100] else if d == 2 then [2] else if d == 5 then [105] else []
  {
    DigitIs(s[0], 1, 10, s[0], 0, 10, 5);
    DigitIs(s[1], 1, 10, s[1], 0, 0, 2);
    DigitIs(s[2], 1, 10, s[2], 0, 10, 0);
    assert s[..0] == [] && s[..3] == s;
    BucketGrow(s, 0, 1, 10, d);
    BucketGrow(s, 1, 1, 10, d);
    BucketGrow(s, 2, 1, 10, d);
  }

  lemma FirstPass(s: seq<nat>)
    requires s == [105, 2, 100]
    ensures Distribute(s, 1, 10) == [100, 2, 105]
  {
    assert Buckets(s, 1, 10, 1) == [100] by { FirstPassBuckets(s, 0); }
    assert Buckets(s, 1, 10, 2) == [100] by { FirstPassBuckets(s, 1); }
    assert Buckets(s, 1, 10, 3) == [100, 2] by { FirstPassBuckets(s, 2); }
    assert Buckets(s, 1, 10, 4) == [100, 2] by { FirstPassBuckets(s, 3); }
    assert Buckets(s, 1, 10, 5) == [100, 2] by { FirstPassBuckets(s, 4); }
    assert Buckets(s, 1, 10, 6) == [100, 2, 105] by { FirstPassBuckets(s, 5); }
    assert Buckets(s, 1, 10, 7) == [100, 2, 105] by { FirstPassBuckets(s, 6); }
    assert Buckets(s, 1, 10, 8) == [100, 2, 105] by { FirstPassBuckets(s, 7); }
    assert Buckets(s, 1, 10, 9) == [100, 2, 105] by { FirstPassBuckets(s, 8); }
    assert Buckets(s, 1, 10, 10) == [100, 2, 105] by { FirstPassBuckets(s, 9); }
  }

  /** Every tens digit of `[100, 2, 105]` is 0, so the second pass is the
      last and leaves it as it is. */
  lemma SecondPass(t: seq<nat>)
    requires t == [100, 2, 105]
    ensures AllZero(t, 10) && Distribute(t, 10, 10) == t
  {
    DigitIs(t[0], 10, 10, 10, 0, 1, 0);
    DigitIs(t[2], 10, 10, 10, 5, 1, 0);
    assert Digit(t[0], 10, 10) == 0 && Digit(t[1], 10, 10) == 0 && Digit(t[2], 10, 10) == 0;
    AllZeroDistribute(t, 10, 10);
  }

  lemma MaxOfFirst(s: seq<nat>)
    requires s == [105, 2, 100]
    ensures MaxOf(s) == 105
  {
    assert s[..2] == [105, 2] && [105, 2][..1] == [105] && [105][..0] == [];
  }

  /** A pass that finds a nonzero digit is followed by the next. */
  lemma NaiveGoesOn(s: seq<nat>, p: nat, m: nat)
    requires p >= 1 && (forall x :: x in s ==> x <= m) && !AllZero(s, p)
    ensures forall x :: x in Distribute(s, p, 10) ==> x <= m
    ensures NaiveFrom(s, p, m) == NaiveFrom(Distribute(s, p, 10), 10 * p, m)
  {
    DistributeMembers(s, p, 10);
  }

  /** A pass that finds only zero digits is the last. */
  lemma NaiveStops(s: seq<nat>, p: nat, m: nat)
    requires p >= 1 && (forall x :: x in s ==> x <= m) && AllZero(s, p)
    ensures NaiveFrom(s, p, m) == Distribute(s, p, 10)
  {
  }

  /** Stopping at the first all-zero position can come too early: here the
      tens are all 0, the pass on them is the last, and the hundreds are
      never looked at. */
  lemma NaiveStopsEarly(s: seq<nat>)
    requires s == [105, 2, 100]
    ensures Naive(s) == [100, 2, 105] && !Sorted(Naive(s))
  {
    MaxOfFirst(s);
    assert !AllZero(s, 1) by {
      DigitIs(s[0], 1, 10, s[0], 0, 10, 5);
      assert s[0] in s;
    }
    NaiveGoesOn(s, 1, 105);
    var t := Distribute(s, 1, 10);
    FirstPass(s);
    SecondPass(t);
    NaiveStops(t, 10, 105);
    assert t[0] > t[1];
  }

  /** The bucket loop: `buckets[d]` ends as the bucket of digit `d`, and
      `finished` says whether every digit was 0. */
  method Spread(arr: seq<nat>, p: nat) returns (buckets: seq<seq<nat>>, finished: bool)
    requires p >= 1
    ensures |buckets| == 10 && forall d :: 0 <= d < 10 ==> buckets[d] == Bucket(arr, p, 10, d)
    ensures finished <==> AllZero(arr, p)
  {
    buckets := seq(10, _ => []);
    finished := true;
    for i := 0 to |arr|
      invariant |buckets| == 10 && forall d :: 0 <= d < 10 ==> buckets[d] == Bucket(arr[..i], p, 10, d)
      invariant finished <==> AllZero(arr[..i], p)
    {
      var num := arr[i];
      var digit := DigitOf(num, p, 10);
      if digit > 0 {
        finished := false;
      }
      forall d | 0 <= d < 10 {
        BucketGrow(arr, i, p, 10, d);
      }
      assert arr[..i + 1] == arr[..i] + [num];
      buckets := buckets[digit := buckets[digit] + [num]];
    }
    assert arr[..|arr|] == arr;
  }

  /** `buckets.into_iter().flatten()`. */
  function Flatten(bs: seq<seq<nat>>): seq<nat>
  {
    if bs == [] then [] else Flatten(bs[..|bs| - 1]) + bs[|bs| - 1]
  }

  lemma {:induction false} FlattenBuckets(bs: seq<seq<nat>>, s: seq<nat>, p: nat, r: nat, k: nat)
    requires p >= 1 && r >= 1 && k <= |bs| && forall d :: 0 <= d < k ==> bs[d] == Bucket(s, p, r, d)
    ensures Flatten(bs[..k]) == Buckets(s, p, r, k)
  {
    if k > 0 {
      assert bs[..k][..k - 1] == bs[..k - 1];
      FlattenBuckets(bs, s, p, r, k - 1);
    }
  }

  /** `radix_sort_naive`. */
  method RadixSortNaive(input: seq<nat>) returns (arr: seq<nat>)
    ensures arr == Naive(input)
  {
    ghost var m := MaxOf(input);
    var digitIdx: nat := 0;
    arr := input;
    while true
      invariant forall x :: x in arr ==> x <= m
      invariant NaiveFrom(arr, Pow(10, digitIdx), m) == Naive(input)
      decreases if Pow(10, digitIdx) <= m then m + 1 - Pow(10, digitIdx) else 0
    {
      var p := Pow(10, digitIdx);
      var buckets, finished := Spread(arr, p);
      FlattenBuckets(buckets, arr, p, 10, 10);
      assert buckets[..10] == buckets;
      DistributeMembers(arr, p, 10);
      arr := Flatten(buckets);
      digitIdx := digitIdx + 1;
      if finished {
        return;
      }
    }
  }

  // ---------------------------------------------------------------- in place

  /** The smallest `j >= k` with `2^j >= n`. */
  function Log2Ceil(n: nat, k: nat): (j: nat)
    ensures k <= j && Pow(2, j) >= n
    ensures forall i :: k <= i < j ==> Pow(2, i) < n
    decreases if Pow(2, k) >= n then 0 else n - Pow(2, k)
  {
    if Pow(2, k) >= n then k else Log2Ceil(n, k + 1)
  }

  /** `usize::next_power_of_two`: the smallest power of two at least `n`
      (1 for 0 and 1). */
  function NextPowerOfTwo(n: nat): (r: nat)
    ensures r >= 1 && r >= n
    ensures n <= 1 ==> r == 1
    ensures n >= 2 ==> r >= 2
  {
    Pow(2, Log2Ceil(n, 0))
  }

  /** The passes of `radix_sort_in_place` from `digit_pow == p` on: one
      more pass while `p < m`. */
  ghost function InPlaceFrom(s: seq<nat>, p: nat, r: nat, m: nat): seq<nat>
    requires p >= 1 && r >= 1 && (r >= 2 || m <= p)
    decreases if p < m then m - p else 0
  {
    if p < m then
      MulMono(2, r, p);
      InPlaceFrom(Distribute(s, p, r), p * r, r, m)
    else s
  }

  ghost function InPlace(s: seq<nat>): seq<nat>
    requires |s| >= 2 || MaxOf(s) <= 1
  {
    InPlaceFrom(s, 1, NextPowerOfTwo(|s|), MaxOf(s))
  }

  /** `radix_sort_in_place` keeps the elements. */
  lemma {:induction false} InPlaceFromPermutes(s: seq<nat>, p: nat, r: nat, m: nat)
    requires p >= 1 && r >= 1 && (r >= 2 || m <= p)
    ensures multiset(InPlaceFrom(s, p, r, m)) == multiset(s)
    decreases if p < m then m - p else 0
  {
    if p < m {
      MulMono(2, r, p);
      DistributePermutes(s, p, r);
      InPlaceFromPermutes(Distribute(s, p, r), p * r, r, m);
    }
  }

  lemma PowShift(p: nat, r: nat, j: nat)
    ensures p * r * Pow(r, j) == p * Pow(r, j + 1)
  {
    assert Pow(r, j + 1) == r * Pow(r, j);
  }

  /** If no `p * r^j` is `m`, no `(p * r) * r^j` is. */
  lemma PowersShift(p: nat, r: nat, m: nat)
    requires forall j: nat :: p * Pow(r, j) != m
    ensures forall j: nat :: p * r * Pow(r, j) != m
  {
    forall j: nat ensures p * r * Pow(r, j) != m {
      PowShift(p, r, j);
      assert p * Pow(r, j + 1) != m;
    }
  }

  /** The in-place passes end sorted when no power `p * r^j` equals the
      bound `m`: the loop then stops at a `digit_pow` above every element. */
  lemma {:induction false} InPlaceFromSorts(s: seq<nat>, p: nat, r: nat, m: nat)
    requires p >= 1 && r >= 1 && (r >= 2 || m <= p) && KeySorted(s, p)
    requires forall x :: x in s ==> x <= m
    requires forall j: nat :: p * Pow(r, j) != m
    ensures Sorted(InPlaceFrom(s, p, r, m))
    decreases if p < m then m - p else 0
  {
    if p < m {
      MulMono(2, r, p);
      DistributeKeySorted(s, p, r);
      DistributeMembers(s, p, r);
      PowersShift(p, r, m);
      InPlaceFromSorts(Distribute(s, p, r), p * r, r, m);
    } else {
      assert p * Pow(r, 0) != m;
      KeySortedIsSorted(s, p);
    }
  }

  /** Every sequence is sorted below 1. */
  lemma KeySortedOne(s: seq<nat>)
    ensures KeySorted(s, 1)
  {
  }

  /** `radix_sort_in_place` returns a sorted permutation unless the largest
      element is a power of the radix. */
  lemma InPlaceSorts(s: seq<nat>)
    requires |s| >= 2 || MaxOf(s) <= 1
    requires forall j: nat :: Pow(NextPowerOfTwo(|s|), j) != MaxOf(s)
    ensures Sorted(InPlace(s)) && multiset(InPlace(s)) == multiset(s)
  {
    KeySortedOne(s);
    InPlaceFromSorts(s, 1, NextPowerOfTwo(|s|), MaxOf(s));
    InPlaceFromPermutes(s, 1, NextPowerOfTwo(|s|), MaxOf(s));
  }

  /** The test `digit_pow < max` skips the last pass when the maximum is a
      power of the radix: for `[1, 0]` the maximum 1 equals the first
      `digit_pow`, so nothing happens. */
  lemma InPlaceSkipsLast(s: seq<nat>)
    requires s == [1, 0]
    ensures InPlace(s) == s && !Sorted(InPlace(s))
  {
    assert s[..1] == [1] && [1][..0] == [];
    assert MaxOf(s) == 1;
    assert s[0] > s[1];
  }

  /** The naive sort returns a sorted permutation when no position up to the
      largest element is all zeros. */
  lemma NaiveSorts(s: seq<nat>)
    requires Live(s, 1, MaxOf(s))
    ensures Sorted(Naive(s)) && multiset(Naive(s)) == multiset(s)
  {
    KeySortedOne(s);
    NaiveFromSorts(s, s, 1, MaxOf(s));
    NaiveFromPermutes(s, 1, MaxOf(s));
  }

  /** The counting loop: `count[d]` is the size of bucket `d`. */
  method CountDigits(a: array<nat>, p: nat, r: nat) returns (count: array<nat>)
    requires p >= 1 && r >= 1
    ensures fresh(count) && count.Length == r
    ensures forall d :: 0 <= d < r ==> count[d] == |Bucket(a[..], p, r, d)|
  {
    count := new nat[r](_ => 0);
    for k := 0 to a.Length
      invariant forall d :: 0 <= d < r ==> count[d] == |Bucket(a[..k], p, r, d)|
    {
      forall d | 0 <= d < r {
        BucketGrow(a[..], k, p, r, d);
      }
      var digit := DigitOf(a[k], p, r);
      count[digit] := count[digit] + 1;
    }
    assert a[..a.Length] == a[..];
  }

  /** The prefix-sum loop after `i` turns: the first `i` counts are where
      their buckets end, the others still the bucket sizes. */
  ghost predicate Summed(c: seq<nat>, s: seq<nat>, p: nat, r: nat, i: nat)
    requires p >= 1 && r >= 1
  {
    |c| == r && i <= r
    && (forall d :: 0 <= d < i ==> c[d] == Start(s, p, r, d + 1))
    && (forall d :: i <= d < r ==> c[d] == |Bucket(s, p, r, d)|)
  }

  /** One turn of the prefix-sum loop. */
  lemma SummedStep(c: seq<nat>, s: seq<nat>, p: nat, r: nat, i: nat)
    requires p >= 1 && r >= 1 && 1 <= i < r && Summed(c, s, p, r, i)
    ensures Summed(c[i := c[i] + c[i - 1]], s, p, r, i + 1)
  {
    var h := i - 1;
    assert c[h] == Start(s, p, r, i);
    StartStep(s, p, r, i);
  }

  /** The prefix-sum loop: `count[d]` becomes where bucket `d` ends. */
  method PrefixSums(count: array<nat>, ghost s: seq<nat>, p: nat, r: nat)
    requires p >= 1 && r >= 1 && count.Length == r
    requires forall d :: 0 <= d < r ==> count[d] == |Bucket(s, p, r, d)|
    modifies count
    ensures forall d :: 0 <= d < r ==> count[d] == Start(s, p, r, d + 1)
  {
    assert Summed(count[..], s, p, r, 1) by {
      StartStep(s, p, r, 0);
      assert Buckets(s, p, r, 0) == [];
    }
    for i := 1 to r
      invariant Summed(count[..], s, p, r, i)
    {
      SummedStep(count[..], s, p, r, i);
      count[i] := count[i] + count[i - 1];
    }
  }

  lemma StartStep(s: seq<nat>, p: nat, r: nat, d: nat)
    requires p >= 1 && r >= 1
    ensures Start(s, p, r, d + 1) == Start(s, p, r, d) + |Bucket(s, p, r, d)|
  {
  }

  /** Bucket `d` ends where bucket `d + 1` starts, within the sequence. */
  lemma StartWithin(s: seq<nat>, p: nat, r: nat, d: nat)
    requires p >= 1 && r >= 1 && d < r
    ensures Start(s, p, r, d + 1) == Start(s, p, r, d) + |Bucket(s, p, r, d)| <= |s|
  {
    StartMono(s, p, r, d + 1, r);
    DistributePermutes(s, p, r);
  }

  /** What placing `s[i]` relies on: it is the next element of its bucket
      from the back. */
  lemma StepFacts(s: seq<nat>, p: nat, r: nat, i: nat)
    requires p >= 1 && r >= 1 && i < |s|
    ensures var d0 := Digit(s[i], p, r);
      var n := |Bucket(s[..i], p, r, d0)|;
      |Bucket(s[..i + 1], p, r, d0)| == n + 1 && n < |Bucket(s, p, r, d0)| && Bucket(s, p, r, d0)[n] == s[i]
  {
    var d0 := Digit(s[i], p, r);
    BucketGrow(s, i, p, r, d0);
    BucketPrefix(s, i + 1, p, r, d0);
  }

  /** The other buckets do not grow. */
  lemma StepOthers(s: seq<nat>, p: nat, r: nat, i: nat)
    requires p >= 1 && r >= 1 && i < |s|
    ensures forall d :: 0 <= d < r && d != Digit(s[i], p, r) ==> Bucket(s[..i + 1], p, r, d) == Bucket(s[..i], p, r, d)
  {
    forall d | 0 <= d < r && d != Digit(s[i], p, r) ensures Bucket(s[..i + 1], p, r, d) == Bucket(s[..i], p, r, d) {
      BucketGrow(s, i, p, r, d);
    }
  }

  /** The sizes of buckets `0..k` of `u`. */
  ghost function Sizes(u: seq<nat>, p: nat, r: nat, k: nat): (lo: seq<nat>)
    requires p >= 1 && r >= 1
    ensures |lo| == k && forall d :: 0 <= d < k ==> lo[d] == |Bucket(u, p, r, d)|
  {
    if k == 0 then [] else Sizes(u, p, r, k - 1) + [|Bucket(u, p, r, k - 1)|]
  }

  /** How much of each bucket `s[..i]` holds. */
  ghost function Done(s: seq<nat>, p: nat, r: nat, i: nat): (lo: seq<nat>)
    requires p >= 1 && r >= 1 && i <= |s|
    ensures |lo| == r && forall d :: 0 <= d < r ==> lo[d] == |Bucket(s[..i], p, r, d)|
  {
    Sizes(s[..i], p, r, r)
  }

  /** The starts of buckets `0..k`. */
  ghost function Starts(s: seq<nat>, p: nat, r: nat, k: nat): (st: seq<nat>)
    requires p >= 1 && r >= 1
    ensures |st| == k && forall d :: 0 <= d < k ==> st[d] == Start(s, p, r, d)
  {
    if k == 0 then [] else Starts(s, p, r, k - 1) + [Start(s, p, r, k - 1)]
  }

  /** The starts of all buckets of a pass. */
  ghost function StartsOf(s: seq<nat>, p: nat, r: nat): (st: seq<nat>)
    requires p >= 1 && r >= 1
    ensures |st| == r && forall d :: 0 <= d < r ==> st[d] == Start(s, p, r, d)
  {
    Starts(s, p, r, r)
  }

  /** Buckets `0..k`, one per entry. */
  ghost function BucketList(s: seq<nat>, p: nat, r: nat, k: nat): (b: seq<seq<nat>>)
    requires p >= 1 && r >= 1
    ensures |b| == k && forall d :: 0 <= d < k ==> b[d] == Bucket(s, p, r, d)
  {
    if k == 0 then [] else BucketList(s, p, r, k - 1) + [Bucket(s, p, r, k - 1)]
  }

  /** All buckets of a pass. */
  ghost function BucketsOf(s: seq<nat>, p: nat, r: nat): (b: seq<seq<nat>>)
    requires p >= 1 && r >= 1
    ensures |b| == r && forall d :: 0 <= d < r ==> b[d] == Bucket(s, p, r, d)
  {
    BucketList(s, p, r, r)
  }

  /** Buckets `b[d]` laid out from `st[d]` on, one after another, inside
      `n` slots. */
  ghost predicate Laid(st: seq<nat>, b: seq<seq<nat>>, n: nat)
  {
    |st| == |b| &&
    (forall d, e :: 0 <= d < e < |b| ==> st[d] + |b[d]| <= st[e]) &&
    (forall d :: 0 <= d < |b| ==> st[d] + |b[d]| <= n)
  }

  /** Bucket `d` from index `lo[d]` on is in place in `t`. */
  ghost predicate Placed(t: seq<nat>, st: seq<nat>, b: seq<seq<nat>>, lo: seq<nat>)
  {
    |st| == |b| == |lo| &&
    forall d, k :: 0 <= d < |b| && lo[d] <= k < |b[d]| ==> st[d] + k < |t| && t[st[d] + k] == b[d][k]
  }

  lemma PlacedAt(t: seq<nat>, st: seq<nat>, b: seq<seq<nat>>, lo: seq<nat>, d: nat, k: nat)
    requires Placed(t, st, b, lo) && d < |b| && lo[d] <= k < |b[d]|
    ensures st[d] + k < |t| && t[st[d] + k] == b[d][k]
  {
  }

  /** One turn of the reversed placement in terms of the layout: the
      element before `lo[d0]` of bucket `d0` goes to its slot, which is in
      bounds and belongs to no part already placed. */
  lemma PlacedStep(t: seq<nat>, st: seq<nat>, b: seq<seq<nat>>, lo: seq<nat>, d0: nat, x: nat)
    requires Laid(st, b, |t|) && Placed(t, st, b, lo) && d0 < |b|
    requires 1 <= lo[d0] <= |b[d0]| && b[d0][lo[d0] - 1] == x
    ensures st[d0] + lo[d0] - 1 < |t|
    ensures Placed(t[st[d0] + lo[d0] - 1 := x], st, b, lo[d0 := lo[d0] - 1])
  {
    var j := st[d0] + lo[d0] - 1;
    var t' := t[j := x];
    var lo' := lo[d0 := lo[d0] - 1];
    forall d, k | 0 <= d < |b| && lo'[d] <= k < |b[d]| ensures st[d] + k < |t'| && t'[st[d] + k] == b[d][k] {
      if d != d0 || k != lo[d0] - 1 {
        assert st[d] + k != j;
      }
    }
  }

  /** The counts before and after placing `num == s[j - 1]`, whose digit
      is `d`: it is the last element of bucket `d` not yet placed. */
  lemma DoneStep(s: seq<nat>, p: nat, r: nat, j: nat, lo: seq<nat>, b: seq<seq<nat>>, d: nat, num: nat)
    requires p >= 1 && r >= 1 && 1 <= j <= |s|
    requires lo == Done(s, p, r, j) && b == BucketsOf(s, p, r)
    requires num == s[j - 1] && d == Digit(num, p, r)
    ensures d < |b| && d < |lo| && 1 <= lo[d] <= |b[d]| && b[d][lo[d] - 1] == num
    ensures Done(s, p, r, j - 1) == lo[d := lo[d] - 1]
  {
    var i := j - 1;
    StepFacts(s, p, r, i);
    StepOthers(s, p, r, i);
  }

  /** The buckets of a pass are laid out by their starts. */
  lemma BucketsLaid(s: seq<nat>, p: nat, r: nat)
    requires p >= 1 && r >= 1
    ensures Laid(StartsOf(s, p, r), BucketsOf(s, p, r), |s|)
  {
    var st := StartsOf(s, p, r);
    var b := BucketsOf(s, p, r);
    forall d | 0 <= d < r ensures st[d] + |b[d]| <= |s| {
      StartWithin(s, p, r, d);
    }
    forall d, e | 0 <= d < e < r ensures st[d] + |b[d]| <= st[e] {
      BucketsApart(s, p, r, d, e);
    }
  }

  /** Bucket `d` ends before bucket `e > d` starts. */
  lemma {:induction false} BucketsApart(s: seq<nat>, p: nat, r: nat, d: nat, e: nat)
    requires p >= 1 && r >= 1 && d < e < r
    ensures Start(s, p, r, d) + |Bucket(s, p, r, d)| <= Start(s, p, r, e)
  {
    var e1 := e - 1;
    StartStep(s, p, r, e1);
    if d < e1 {
      BucketsApart(s, p, r, d, e1);
    }
  }

  /** Once every bucket is placed whole, the slice is the distribution. */
  lemma FilledIsDistribute(t: seq<nat>, s: seq<nat>, p: nat, r: nat)
    requires p >= 1 && r >= 1 && |t| == |s|
    requires Placed(t, StartsOf(s, p, r), BucketsOf(s, p, r), Done(s, p, r, 0))
    ensures t == Distribute(s, p, r)
  {
    var st, b, lo := StartsOf(s, p, r), BucketsOf(s, p, r), Done(s, p, r, 0);
    assert s[..0] == [];
    forall d | 0 <= d < r ensures lo[d] == 0 && st[d] == |Flatten(b[..d])| {
      FlattenBuckets(b, s, p, r, d);
    }
    FlattenBuckets(b, s, p, r, r);
    assert b[..r] == b;
    DistributePermutes(s, p, r);
    FilledIsFlatten(t, st, b, lo, r);
  }

  /** A layout whose every bucket is placed whole, each starting where
      the ones before it end, spells out the buckets one after another. */
  lemma {:induction false} FilledIsFlatten(t: seq<nat>, st: seq<nat>, b: seq<seq<nat>>, lo: seq<nat>, k: nat)
    requires Placed(t, st, b, lo) && k <= |b|
    requires forall d :: 0 <= d < |b| ==> lo[d] == 0 && st[d] == |Flatten(b[..d])|
    requires |Flatten(b[..k])| <= |t|
    ensures t[..|Flatten(b[..k])|] == Flatten(b[..k])
  {
    if k > 0 {
      var k1 := k - 1;
      var x, y := b[..k1], b[k1];
      assert b[..k][..k1] == x;
      var n := |Flatten(x)|;
      assert Flatten(b[..k]) == Flatten(x) + y;
      FilledIsFlatten(t, st, b, lo, k1);
      forall j | 0 <= j < |y| ensures t[n + j] == y[j] {
        PlacedAt(t, st, b, lo, k1, j);
      }
      assert t[..n + |y|] == t[..n] + t[n..n + |y|];
    }
  }

  /** The counts during the placement: `c[d]` is one past the last slot
      of bucket `d` still to fill. */
  ghost predicate Ends(c: seq<nat>, st: seq<nat>, lo: seq<nat>)
  {
    |c| == |st| == |lo| && forall d :: 0 <= d < |c| ==> c[d] == st[d] + lo[d]
  }

  /** Before the placement nothing is placed and every count is the end
      of its bucket. */
  lemma PlacementStarts(t: seq<nat>, s: seq<nat>, p: nat, r: nat, c: seq<nat>)
    requires p >= 1 && r >= 1 && |c| == r
    requires forall d :: 0 <= d < r ==> c[d] == Start(s, p, r, d + 1)
    ensures Placed(t, StartsOf(s, p, r), BucketsOf(s, p, r), Done(s, p, r, |s|))
    ensures Ends(c, StartsOf(s, p, r), Done(s, p, r, |s|))
  {
    assert s[..|s|] == s;
    forall d | 0 <= d < r ensures c[d] == Start(s, p, r, d) + |Bucket(s, p, r, d)| {
      StartWithin(s, p, r, d);
    }
  }

  /** The loop body of the placement: `count[d] -= 1` and the element
      goes to the slot `count[d]`, which is where it belongs in bucket
      `d`. */
  method Put(a: array<nat>, count: array<nat>, ghost st: seq<nat>, ghost b: seq<seq<nat>>, ghost lo: seq<nat>, d: nat, num: nat)
      returns (ghost lo': seq<nat>)
    requires a != count && count.Length == |lo| && d < |b|
    requires Laid(st, b, a.Length) && Placed(a[..], st, b, lo)
    requires 1 <= lo[d] <= |b[d]| && b[d][lo[d] - 1] == num
    requires Ends(count[..], st, lo)
    modifies a, count
    ensures lo' == lo[d := lo[d] - 1] && Placed(a[..], st, b, lo')
    ensures Ends(count[..], st, lo')
  {
    PlacedStep(a[..], st, b, lo, d, num);
    lo' := lo[d := lo[d] - 1];
    count[d] := count[d] - 1;
    a[count[d]] := num;
  }

  /** The placement loop over `array.to_vec().into_iter().rev()`: from the
      end prefix sums, the slice becomes the distribution of `s`. */
  method PlaceReversed(a: array<nat>, count: array<nat>, ghost s: seq<nat>, p: nat, r: nat)
    requires p >= 1 && r >= 1 && a != count && a[..] == s && count.Length == r
    requires forall d :: 0 <= d < r ==> count[d] == Start(s, p, r, d + 1)
    modifies a, count
    ensures a[..] == Distribute(s, p, r)
  {
    ghost var st := StartsOf(s, p, r);
    ghost var b := BucketsOf(s, p, r);
    BucketsLaid(s, p, r);
    PlacementStarts(a[..], s, p, r, count[..]);
    var copy := a[..];
    var i: nat := |copy|;
    ghost var lo := Done(s, p, r, i);
    while i > 0
      invariant i <= |s| && copy == s && a.Length == |s|
      invariant lo == Done(s, p, r, i)
      invariant Ends(count[..], st, lo) && Placed(a[..], st, b, lo)
    {
      lo := PlaceNext(a, count, copy, s, p, r, st, b, lo, i);
      i := i - 1;
    }
    FilledIsDistribute(a[..], s, p, r);
  }

  /** One turn of the placement loop: `copy[i - 1]` goes to the last free
      slot of its bucket. */
  method PlaceNext(a: array<nat>, count: array<nat>, copy: seq<nat>, ghost s: seq<nat>, p: nat, r: nat,
                   ghost st: seq<nat>, ghost b: seq<seq<nat>>, ghost lo: seq<nat>, i: nat)
      returns (ghost lo': seq<nat>)
    requires p >= 1 && r >= 1 && a != count && 1 <= i <= |s| && copy == s && a.Length == |s|
    requires b == BucketsOf(s, p, r) && Laid(st, b, |s|)
    requires lo == Done(s, p, r, i) && Ends(count[..], st, lo) && Placed(a[..], st, b, lo)
    modifies a, count
    ensures lo' == Done(s, p, r, i - 1) && Ends(count[..], st, lo') && Placed(a[..], st, b, lo')
  {
    var num := copy[i - 1];
    var d := DigitOf(num, p, r);
    DoneStep(s, p, r, i, lo, b, d, num);
    lo' := Put(a, count, st, b, lo, d, num);
  }

  /** One pass of the `while digit_pow < max` loop. */
  method CountingPass(a: array<nat>, p: nat, r: nat)
    requires p >= 1 && r >= 1
    modifies a
    ensures a[..] == Distribute(old(a[..]), p, r)
  {
    var count := CountDigits(a, p, r);
    PrefixSums(count, a[..], p, r);
    PlaceReversed(a, count, a[..], p, r);
  }

  /** `radix_sort_in_place`.  A single element above 1 makes `radix` 1 and
      the loop never ends, so that input is excluded. */
  method RadixSortInPlace(a: array<nat>)
    requires a.Length >= 2 || forall k :: 0 <= k < a.Length ==> a[k] <= 1
    modifies a
    ensures a[..] == InPlace(old(a[..]))
  {
    var radix := NextPowerOfTwo(a.Length);
    var max := MaxOf(a[..]);
    var digitPow := 1;
    while digitPow < max
      invariant digitPow >= 1 && (radix >= 2 || max <= digitPow)
      invariant InPlaceFrom(a[..], digitPow, radix, max) == InPlace(old(a[..]))
      decreases if digitPow < max then max - digitPow else 0
    {
      MulMono(2, radix, digitPow);
      CountingPass(a, digitPow, radix);
      digitPow := digitPow * radix;
    }
  }
}
