/** The radix sort tests of src/sorting/radix_sort.rs: both variants on the
    empty, descending, ascending and "wikipedia" vectors.  Each result is
    a sorted permutation of the input, by `NaiveSorts` and `InPlaceSorts`,
    and so it is the expected vector. */
module RadixVectors {
  import opened Base
  import opened RadixSort
  import opened SortVectors

  /** The radix of the in-place sort for seven and eight elements. */
  lemma NextPowerOfTwoEight(n: nat)
    requires 5 <= n <= 8
    ensures NextPowerOfTwo(n) == 8
  {
    var j := Log2Ceil(n, 0);
    assert Pow(2, 1) == 2 && Pow(2, 2) == 4 && Pow(2, 3) == 8;
    assert j == 3;
  }

  /** The powers of 8 below 4096 are 1, 8, 64 and 512. */
  lemma {:induction false} PowersOfEight(j: nat)
    ensures Pow(8, j) in {1, 8, 64, 512} || Pow(8, j) >= 4096
  {
    if j > 0 {
      PowersOfEight(j - 1);
    }
  }

  /** No power of 8 is `m`, when `m` is below 4096 and not one of them. */
  lemma NotPowerOfEight(m: nat)
    requires m < 4096 && m !in {1, 8, 64, 512}
    ensures forall j: nat :: Pow(8, j) != m
  {
    forall j: nat ensures Pow(8, j) != m {
      PowersOfEight(j);
    }
  }

  /** The largest element of the descending and ascending vectors. */
  lemma MaxOfSeven(s: seq<nat>)
    requires s == [201, 127, 64, 37, 24, 4, 1] || s == [1, 4, 24, 37, 64, 127, 201]
    ensures MaxOf(s) == 201
  {
    assert 201 in s;
  }

  /** Every decimal position of 201 and below has a nonzero digit in the
      descending and ascending vectors. */
  lemma LiveSeven(s: seq<nat>)
    requires s == [201, 127, 64, 37, 24, 4, 1] || s == [1, 4, 24, 37, 64, 127, 201]
    ensures Live(s, 1, 201)
  {
    assert 201 in s && 127 in s;
    assert Live(s, 1000, 201);
    assert Live(s, 100, 201) by { DigitIs(201, 100, 10, 2, 1, 0, 2); }
    assert Live(s, 10, 201) by { DigitIs(127, 10, 10, 12, 7, 1, 2); }
    DigitIs(201, 1, 10, 201, 0, 20, 1);
  }

  lemma SevenPerm()
    ensures multiset([1, 4, 24, 37, 64, 127, 201]) == multiset([201, 127, 64, 37, 24, 4, 1])
  {
    assert multiset([201, 127, 64, 37, 24, 4, 1]) == multiset{201, 127, 64, 37, 24, 4, 1};
    assert multiset{201, 127, 64, 37, 24, 4, 1} == multiset{1, 4, 24, 37, 64, 127, 201};
    assert multiset([1, 4, 24, 37, 64, 127, 201]) == multiset{1, 4, 24, 37, 64, 127, 201};
  }

  lemma SevenSorted()
    ensures AdjacentSorted([1, 4, 24, 37, 64, 127, 201])
  {
  }

  /** Both sorts of a seven-element vector holding the test's elements. */
  lemma SortsSeven(s: seq<nat>)
    requires s == [201, 127, 64, 37, 24, 4, 1] || s == [1, 4, 24, 37, 64, 127, 201]
    ensures Naive(s) == [1, 4, 24, 37, 64, 127, 201]
    ensures InPlace(s) == [1, 4, 24, 37, 64, 127, 201]
  {
    var res := [1, 4, 24, 37, 64, 127, 201];
    MaxOfSeven(s);
    LiveSeven(s);
    NaiveSorts(s);
    NextPowerOfTwoEight(|s|);
    NotPowerOfEight(201);
    InPlaceSorts(s);
    SevenPerm();
    SevenSorted();
    SortsTo(Naive(s), s, res);
    SortsTo(InPlace(s), s, res);
  }

  /** The `descending` test. */
  lemma Descending()
    ensures Naive([201, 127, 64, 37, 24, 4, 1]) == [1, 4, 24, 37, 64, 127, 201]
    ensures InPlace([201, 127, 64, 37, 24, 4, 1]) == [1, 4, 24, 37, 64, 127, 201]
  {
    SortsSeven([201, 127, 64, 37, 24, 4, 1]);
  }

  /** The `ascending` test. */
  lemma Ascending()
    ensures Naive([1, 4, 24, 37, 64, 127, 201]) == [1, 4, 24, 37, 64, 127, 201]
    ensures InPlace([1, 4, 24, 37, 64, 127, 201]) == [1, 4, 24, 37, 64, 127, 201]
  {
    SortsSeven([1, 4, 24, 37, 64, 127, 201]);
  }

  /** The `empty` test. */
  lemma Empty()
    ensures Naive([]) == [] && InPlace([]) == []
  {
    var s: seq<nat> := [];
    NaiveSorts(s);
    InPlaceSorts(s);
    SortsShort(Naive(s), s);
    SortsShort(InPlace(s), s);
  }

  lemma WikipediaPerm()
    ensures multiset([2, 2, 45, 66, 75, 90, 170, 802]) == multiset([170, 45, 75, 90, 2, 802, 2, 66])
  {
    assert multiset([170, 45, 75, 90, 2, 802, 2, 66]) == multiset{170, 45, 75, 90, 2, 802, 2, 66};
    assert multiset{170, 45, 75, 90, 2, 802, 2, 66} == multiset{2, 2, 45, 66, 75, 90, 170, 802};
    assert multiset([2, 2, 45, 66, 75, 90, 170, 802]) == multiset{2, 2, 45, 66, 75, 90, 170, 802};
  }

  lemma WikipediaSorted()
    ensures AdjacentSorted([2, 2, 45, 66, 75, 90, 170, 802])
  {
  }

  /** Every decimal position of 802 and below has a nonzero digit in the
      wikipedia vector. */
  lemma LiveWikipedia(s: seq<nat>)
    requires s == [170, 45, 75, 90, 2, 802, 2, 66]
    ensures Live(s, 1, 802)
  {
    assert 802 in s && 170 in s && 45 in s;
    assert Live(s, 1000, 802);
    assert Live(s, 100, 802) by { DigitIs(802, 100, 10, 8, 2, 0, 8); }
    assert Live(s, 10, 802) by { DigitIs(170, 10, 10, 17, 0, 1, 7); }
    DigitIs(45, 1, 10, 45, 0, 4, 5);
  }

  /** The `wikipedia` test. */
  lemma Wikipedia()
    ensures Naive([170, 45, 75, 90, 2, 802, 2, 66]) == [2, 2, 45, 66, 75, 90, 170, 802]
    ensures InPlace([170, 45, 75, 90, 2, 802, 2, 66]) == [2, 2, 45, 66, 75, 90, 170, 802]
  {
    var s: seq<nat> := [170, 45, 75, 90, 2, 802, 2, 66];
    var res := [2, 2, 45, 66, 75, 90, 170, 802];
    assert MaxOf(s) == 802 by { assert 802 in s; }
    LiveWikipedia(s);
    NaiveSorts(s);
    NextPowerOfTwoEight(|s|);
    NotPowerOfEight(802);
    InPlaceSorts(s);
    WikipediaPerm();
    WikipediaSorted();
    SortsTo(Naive(s), s, res);
    SortsTo(InPlace(s), s, res);
  }
}
