/** The input vectors the sorting tests use.  A sort whose contract says
    "sorted and a permutation" has only one possible output on each: the
    expected vector, when it is sorted and holds the input's elements. */
module SortVectors {
  import opened Base

  /** A sorted permutation of `input` is `expected`, when `expected` is one. */
  lemma SortsTo(r: seq<int>, input: seq<int>, expected: seq<int>)
    requires Sorted(r) && multiset(r) == multiset(input)
    requires AdjacentSorted(expected) && multiset(expected) == multiset(input)
    ensures r == expected
  {
    AdjacentSortedIsSorted(expected);
    SortedPermutationUnique(r, expected);
  }

  lemma DescendingSixPerm()
    ensures multiset([1, 2, 3, 4, 5, 6]) == multiset([6, 5, 4, 3, 2, 1])
  {
    assert multiset([6, 5, 4, 3, 2, 1]) == multiset{6, 5, 4, 3, 2, 1};
    assert multiset{6, 5, 4, 3, 2, 1} == multiset{1, 2, 3, 4, 5, 6};
    assert multiset([1, 2, 3, 4, 5, 6]) == multiset{1, 2, 3, 4, 5, 6};
  }

  lemma MixedSevenPerm()
    ensures multiset([1, 10, 20, 30, 60, 100, 120]) == multiset([100, 30, 60, 10, 20, 120, 1])
  {
    assert multiset([100, 30, 60, 10, 20, 120, 1]) == multiset{100, 30, 60, 10, 20, 120, 1};
    assert multiset{100, 30, 60, 10, 20, 120, 1} == multiset{1, 10, 20, 30, 60, 100, 120};
    assert multiset([1, 10, 20, 30, 60, 100, 120]) == multiset{1, 10, 20, 30, 60, 100, 120};
  }

  lemma DescendingFourPerm()
    ensures multiset([1, 2, 3, 4]) == multiset([4, 3, 2, 1])
  {
    assert multiset([4, 3, 2, 1]) == multiset{4, 3, 2, 1};
    assert multiset{4, 3, 2, 1} == multiset{1, 2, 3, 4};
    assert multiset([1, 2, 3, 4]) == multiset{1, 2, 3, 4};
  }

  lemma AscendingSixSorted()
    ensures AdjacentSorted([1, 2, 3, 4, 5, 6])
  {
  }

  lemma MixedSevenSorted()
    ensures AdjacentSorted([1, 10, 20, 30, 60, 100, 120])
  {
  }

  lemma AscendingFourSorted()
    ensures AdjacentSorted([1, 2, 3, 4])
  {
  }

  lemma SortsDescendingSix(r: seq<int>)
    requires Sorted(r) && multiset(r) == multiset([6, 5, 4, 3, 2, 1])
    ensures r == [1, 2, 3, 4, 5, 6]
  {
    DescendingSixPerm();
    AscendingSixSorted();
    SortsTo(r, [6, 5, 4, 3, 2, 1], [1, 2, 3, 4, 5, 6]);
  }

  lemma SortsAscendingSix(r: seq<int>)
    requires Sorted(r) && multiset(r) == multiset([1, 2, 3, 4, 5, 6])
    ensures r == [1, 2, 3, 4, 5, 6]
  {
    AscendingSixSorted();
    SortsTo(r, [1, 2, 3, 4, 5, 6], [1, 2, 3, 4, 5, 6]);
  }

  lemma SortsMixedSeven(r: seq<int>)
    requires Sorted(r) && multiset(r) == multiset([100, 30, 60, 10, 20, 120, 1])
    ensures r == [1, 10, 20, 30, 60, 100, 120]
  {
    MixedSevenPerm();
    MixedSevenSorted();
    SortsTo(r, [100, 30, 60, 10, 20, 120, 1], [1, 10, 20, 30, 60, 100, 120]);
  }

  lemma SortsDescendingFour(r: seq<int>)
    requires Sorted(r) && multiset(r) == multiset([4, 3, 2, 1])
    ensures r == [1, 2, 3, 4]
  {
    DescendingFourPerm();
    AscendingFourSorted();
    SortsTo(r, [4, 3, 2, 1], [1, 2, 3, 4]);
  }

  lemma SortsAscendingFour(r: seq<int>)
    requires Sorted(r) && multiset(r) == multiset([1, 2, 3, 4])
    ensures r == [1, 2, 3, 4]
  {
    AscendingFourSorted();
    SortsTo(r, [1, 2, 3, 4], [1, 2, 3, 4]);
  }

  /** A sorted permutation of a one-element or empty sequence is that
      sequence. */
  lemma SortsShort(r: seq<int>, xs: seq<int>)
    requires |xs| <= 1 && Sorted(r) && multiset(r) == multiset(xs)
    ensures r == xs
  {
    SortsTo(r, xs, xs);
  }
}
