/** The shell sort step generator (`getShellSortSteps`): gapped insertion
    sort with the gaps n/2, n/4, ..., 1. While an element is being inserted
    the working array holds a shifted duplicate, so only the steps between
    insertions are permutations of the input. */
module ShellSort {
  import opened Steps
  import opened Sorting

  /** Elements gap apart are in order wherever the later one is below m. */
  ghost predicate GapSortedBelow(a: seq<int>, gap: int, m: int) {
    forall p, q :: 0 <= p < q < m && q < |a| && q - p == gap ==> a[p] <= a[q]
  }

  method ShellSortSteps(input: seq<int>) returns (steps: seq<Step>)
    ensures |steps| > 0 && SortTrace(steps, |input|)
    ensures SortedGrows(steps)
    ensures Last(steps).action == Finished && Last(steps).sorted == AllIndices(|input|)
    ensures Last(steps).gap == Some(0)
    ensures multiset(Last(steps).values) == multiset(input)
    ensures Last(steps).values == SortAscending(input)
  {
    var a := input;
    var n := |a|;
    var gap := n / 2;
    steps := [];
    while gap > 0
      invariant 0 <= gap <= n && |a| == n
      invariant multiset(a) == multiset(input)
      invariant gap == 0 ==> Sorted(a)
      invariant SortTraceOf(steps, input, false, {})
      decreases gap
    {
      a, steps := GapPass(input, a, steps, gap);
      if gap == 1 {
        GapOneSorted(a);
      }
      gap := gap / 2;
    }
    RecordSortStep(steps, input, false, {}, SortStep(a, Finished, [], AllIndices(n), None, Some(0)));
    steps := steps + [SortStep(a, Finished, [], AllIndices(n), None, Some(0))];
    RecordedTrace(steps, input, false);
    SortedPermutationUnique(a, SortAscending(input));
  }

  /** One pass of the gap loop: insert each a[i], i = gap .. n - 1, into its
      chain of elements gap apart. Afterwards the array is gap-sorted. */
  method GapPass(input: seq<int>, a0: seq<int>, steps0: seq<Step>, gap: int)
    returns (a: seq<int>, steps: seq<Step>)
    requires 0 < gap <= |a0| == |input| && multiset(a0) == multiset(input)
    requires SortTraceOf(steps0, input, false, {})
    ensures |a| == |a0| && multiset(a) == multiset(input)
    ensures GapSortedBelow(a, gap, |a|)
    ensures SortTraceOf(steps, input, false, {})
  {
    a, steps := a0, steps0;
    RecordSortStep(steps, input, false, {}, SortStep(a, StartPass, [], {}, None, Some(gap)));
    steps := steps + [SortStep(a, StartPass, [], {}, None, Some(gap))];
    var i := gap;
    while i < |a|
      invariant gap <= i <= |a| == |a0|
      invariant multiset(a) == multiset(input)
      invariant GapSortedBelow(a, gap, i)
      invariant SortTraceOf(steps, input, false, {})
    {
      a, steps := InsertWithGap(input, a, steps, gap, i);
      i := i + 1;
    }
  }

  /** While a[i] (= x) waits to be placed at the hole j of array c (j = i at
      the start): the array with the hole filled keeps the input's elements,
      is gap-sorted up to i except possibly at the hole, the hole's right
      chain neighbour duplicates it and exceeds x, and c is still gap-sorted
      left of the hole. */
  ghost predicate Inserting(c: seq<int>, x: int, gap: int, i: int, j: int, input: seq<int>) {
    0 < gap && 0 <= j <= i < |c|
    && multiset(c[j := x]) == multiset(input)
    && FilledOrdered(c, x, gap, i, j)
    && (j < i ==> j + gap <= i && c[j + gap] == c[j] && x < c[j])
    && (forall p, q :: 0 <= p < q <= j && q < i && q - p == gap ==> c[p] <= c[q])
  }

  ghost predicate FilledOrdered(c: seq<int>, x: int, gap: int, i: int, j: int)
    requires 0 <= j <= i < |c|
  {
    forall p, q :: 0 <= p < q <= i && q - p == gap && q != j ==> (if p == j then x else c[p]) <= c[q]
  }

  /** Insertion of a[i] into its chain, with its selection, comparison,
      shift, reset and placement steps. */
  method InsertWithGap(input: seq<int>, a0: seq<int>, steps0: seq<Step>, gap: int, i: int)
    returns (a: seq<int>, steps: seq<Step>)
    requires 0 < gap <= i < |a0| == |input| && multiset(a0) == multiset(input)
    requires GapSortedBelow(a0, gap, i)
    requires SortTraceOf(steps0, input, false, {})
    ensures |a| == |a0| && multiset(a) == multiset(input)
    ensures GapSortedBelow(a, gap, i + 1)
    ensures SortTraceOf(steps, input, false, {})
  {
    var c := a0;
    var x := c[i];
    var j := i;
    steps := steps0;
    RecordSortStep(steps, input, false, {}, SortStep(c, SelectElement, [i], {}, None, Some(gap)));
    steps := steps + [SortStep(c, SelectElement, [i], {}, None, Some(gap))];
    InsertingStarts(a0, gap, i, input);
    while j >= gap && c[j - gap] > x
      invariant |c| == |a0| && Inserting(c, x, gap, i, j, input)
      invariant SortTraceOf(steps, input, false, {})
    {
      c, steps := ShiftStep(input, c, steps, x, gap, i, j);
      j := j - gap;
    }
    PlaceEndsInserting(c, x, gap, i, j, input);
    a := c[j := x];
    RecordSortStep(steps, input, false, {}, SortStep(a, PlaceSelected, [j], {}, None, Some(gap)));
    steps := steps + [SortStep(a, PlaceSelected, [j], {}, None, Some(gap))];
  }

  /** Before the first shift the hole is at i itself. */
  lemma InsertingStarts(a: seq<int>, gap: int, i: int, input: seq<int>)
    requires 0 < gap <= i < |a| == |input| && multiset(a) == multiset(input)
    requires GapSortedBelow(a, gap, i)
    ensures Inserting(a, a[i], gap, i, i, input)
  {
    assert a[i := a[i]] == a;
  }

  /** The shifting loop's body, with the invariant it keeps. */
  method ShiftStep(input: seq<int>, c0: seq<int>, steps0: seq<Step>, x: int, gap: int, i: int, j: int)
    returns (c: seq<int>, steps: seq<Step>)
    requires |c0| == |input| && Inserting(c0, x, gap, i, j, input)
    requires j >= gap && c0[j - gap] > x
    requires SortTraceOf(steps0, input, false, {})
    ensures |c| == |c0| && Inserting(c, x, gap, i, j - gap, input)
    ensures SortTraceOf(steps, input, false, {})
  {
    ShiftKeepsInserting(c0, x, gap, i, j, input);
    c, steps := ShiftOnce(input, c0, steps0, gap, j);
  }

  /** One iteration of the shifting loop: the comparison step, the shift of
      c[j - gap] into c[j] and its step, and the step clearing highlights. */
  method ShiftOnce(input: seq<int>, c0: seq<int>, steps0: seq<Step>, gap: int, j: int)
    returns (c: seq<int>, steps: seq<Step>)
    requires 0 < gap <= j < |c0| == |input|
    requires SortTraceOf(steps0, input, false, {})
    ensures c == c0[j := c0[j - gap]]
    ensures SortTraceOf(steps, input, false, {})
  {
    steps := steps0;
    RecordSortStep(steps, input, false, {}, SortStep(c0, Compare, [j, j - gap], {}, None, Some(gap)));
    steps := steps + [SortStep(c0, Compare, [j, j - gap], {}, None, Some(gap))];
    c := c0[j := c0[j - gap]];
    RecordSortStep(steps, input, false, {}, SortStep(c, Shift, [j], {}, None, Some(gap)));
    steps := steps + [SortStep(c, Shift, [j], {}, None, Some(gap))];
    RecordSortStep(steps, input, false, {}, SortStep(c, ResetHighlights, [], {}, None, Some(gap)));
    steps := steps + [SortStep(c, ResetHighlights, [], {}, None, Some(gap))];
  }

  lemma ShiftKeepsInserting(c: seq<int>, x: int, gap: int, i: int, j: int, input: seq<int>)
    requires Inserting(c, x, gap, i, j, input)
    requires j >= gap && c[j - gap] > x
    ensures Inserting(c[j := c[j - gap]], x, gap, i, j - gap, input)
  {
    ShiftKeepsElements(c, x, gap, j);
    ShiftKeepsOrder(c, x, gap, i, j);
    ShiftKeepsLeft(c, c[j := c[j - gap]], gap, i, j);
  }

  lemma ShiftKeepsElements(c: seq<int>, x: int, gap: int, j: int)
    requires 0 < gap <= j < |c|
    ensures multiset(c[j := c[j - gap]][j - gap := x]) == multiset(c[j := x])
  {
    assert c[j := c[j - gap]][j - gap := x] == Swapped(c[j := x], j, j - gap);
    SwappedElements(c[j := x], j, j - gap);
  }

  lemma ShiftKeepsLeft(c: seq<int>, c': seq<int>, gap: int, i: int, j: int)
    requires 0 < gap <= j <= i < |c| && c' == c[j := c[j - gap]]
    requires forall p, q :: 0 <= p < q <= j && q < i && q - p == gap ==> c[p] <= c[q]
    ensures forall p, q :: 0 <= p < q <= j - gap && q < i && q - p == gap ==> c'[p] <= c'[q]
  {
  }

  lemma ShiftKeepsOrder(c: seq<int>, x: int, gap: int, i: int, j: int)
    requires 0 < gap <= j <= i < |c| && c[j - gap] > x
    requires FilledOrdered(c, x, gap, i, j)
    requires j < i ==> j + gap <= i && c[j + gap] == c[j] && c[j - gap] <= c[j]
    ensures FilledOrdered(c[j := c[j - gap]], x, gap, i, j - gap)
  {
    var c' := c[j := c[j - gap]];
    var j' := j - gap;
    forall p, q | 0 <= p < q <= i && q - p == gap && q != j'
      ensures (if p == j' then x else c'[p]) <= c'[q]
    {
      if q == j {
        assert p == j';
      } else if q == j + gap {
        assert p == j && c'[q] == c[q] == c[j];
      } else {
        assert c'[q] == c[q];
        assert p != j && c'[p] == c[p];
      }
    }
  }

  lemma PlaceEndsInserting(c: seq<int>, x: int, gap: int, i: int, j: int, input: seq<int>)
    requires Inserting(c, x, gap, i, j, input)
    requires j < gap || c[j - gap] <= x
    ensures multiset(c[j := x]) == multiset(input)
    ensures GapSortedBelow(c[j := x], gap, i + 1)
  {
    var d := c[j := x];
    forall p, q | 0 <= p < q < i + 1 && q < |d| && q - p == gap ensures d[p] <= d[q] {
      if q != j {
        assert d[q] == c[q];
        assert d[p] == if p == j then x else c[p];
      }
    }
  }

  /** Gap 1 is plain sortedness. */
  lemma GapOneSorted(a: seq<int>)
    requires GapSortedBelow(a, 1, |a|)
    ensures Sorted(a)
  {
    forall p, q | 0 <= p < q < |a| ensures a[p] <= a[q] {
      ChainOrdered(a, p, q);
    }
  }

  lemma {:induction false} ChainOrdered(a: seq<int>, p: int, q: int)
    requires GapSortedBelow(a, 1, |a|)
    requires 0 <= p <= q < |a|
    ensures a[p] <= a[q]
    decreases q - p
  {
    if p < q {
      ChainOrdered(a, p, q - 1);
    }
  }
}
