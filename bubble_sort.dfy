/** The bubble sort step generator (`getBubbleSortSteps`). */
module BubbleSort {
  import opened Steps
  import opened Sorting

  /** The prefix a[..m] is in ascending order. */
  ghost predicate SortedPrefix(a: seq<int>, m: int) {
    forall p, q :: 0 <= p < q < m && q < |a| ==> a[p] <= a[q]
  }

  /** What the passes so far have settled: every element at or after m is at
      least every element before it (so the suffix from m on is sorted). */
  ghost predicate SettledFrom(a: seq<int>, m: int) {
    forall p, q :: 0 <= p < q < |a| && m <= q ==> a[p] <= a[q]
  }

  method BubbleSortSteps(input: seq<int>) returns (steps: seq<Step>)
    ensures |steps| > 0 && SortTrace(steps, |input|)
    ensures Permutations(steps, input)
    ensures SortedGrows(steps)
    ensures Last(steps).action == Finished && Last(steps).sorted == AllIndices(|input|)
    ensures Last(steps).values == SortAscending(input)
  {
    var a := input;
    var n := |a|;
    var sorted: set<int> := {};
    steps := [];
    var i := 0;
    while i < n - 1
      invariant 0 <= i <= n && |a| == n
      invariant multiset(a) == multiset(input)
      invariant SettledFrom(a, n - i)
      invariant SortTraceOf(steps, input, true, sorted)
    {
      var swapped;
      a, steps, swapped := BubblePass(input, a, steps, sorted, n - 1 - i);
      var sortedIndex := n - 1 - i;
      RecordSortStep(steps, input, true, sorted, SortStep(a, Finalized, [sortedIndex], sorted + {sortedIndex}, None, None));
      sorted := sorted + {sortedIndex};
      steps := steps + [SortStep(a, Finalized, [sortedIndex], sorted, None, None)];
      if !swapped {
        // A pass without swaps: the whole unsettled prefix is in order, so its
        // indices are marked sorted too (without a step of their own).
        sorted := MarkPrefixSorted(sorted, n - 1 - i, n);
        break;
      }
      i := i + 1;
    }
    steps := CloseBubbleTrace(input, a, steps, sorted);
  }

  /** One inner pass over j = 0 .. m - 1: compare a[j] with a[j + 1], swap
      them when out of order, then clear the highlights. The largest element
      of a[..m + 1] ends at index m. */
  method BubblePass(input: seq<int>, a0: seq<int>, steps0: seq<Step>, sorted: set<int>, m: int)
    returns (a: seq<int>, steps: seq<Step>, swapped: bool)
    requires 1 <= m < |a0| == |input| && multiset(a0) == multiset(input)
    requires SettledFrom(a0, m + 1)
    requires SortTraceOf(steps0, input, true, sorted)
    ensures |a| == |a0| && multiset(a) == multiset(input)
    ensures SettledFrom(a, m)
    ensures !swapped ==> Sorted(a)
    ensures SortTraceOf(steps, input, true, sorted)
  {
    a, steps, swapped := a0, steps0, false;
    var j := 0;
    while j < m
      invariant 0 <= j <= m && |a| == |a0|
      invariant multiset(a) == multiset(input)
      invariant SettledFrom(a, m + 1)
      invariant forall k :: 0 <= k <= j ==> a[k] <= a[j]
      invariant !swapped ==> SortedPrefix(a, j + 1)
      invariant SortTraceOf(steps, input, true, sorted)
    {
      a, steps, swapped := PassStep(input, a, steps, sorted, j, m, swapped);
      j := j + 1;
    }
    PassEnds(a, m, swapped);
  }

  /** The inner loop's body at index j, with what it keeps of the pass's
      invariant. */
  method PassStep(input: seq<int>, a0: seq<int>, steps0: seq<Step>, sorted: set<int>, j: int, m: int, swapped0: bool)
    returns (a: seq<int>, steps: seq<Step>, swapped: bool)
    requires 0 <= j < m < |a0| == |input| && multiset(a0) == multiset(input)
    requires SettledFrom(a0, m + 1)
    requires forall k :: 0 <= k <= j ==> a0[k] <= a0[j]
    requires !swapped0 ==> SortedPrefix(a0, j + 1)
    requires SortTraceOf(steps0, input, true, sorted)
    ensures swapped == (swapped0 || a0[j] > a0[j + 1])
    ensures |a| == |a0| && multiset(a) == multiset(input)
    ensures SettledFrom(a, m + 1)
    ensures forall k :: 0 <= k <= j + 1 ==> a[k] <= a[j + 1]
    ensures !swapped ==> SortedPrefix(a, j + 2)
    ensures SortTraceOf(steps, input, true, sorted)
  {
    swapped := swapped0 || a0[j] > a0[j + 1];
    a, steps := CompareAdjacent(input, a0, steps0, sorted, j);
    AdjacentKeepsSettled(a0, a, j, m);
    AdjacentCarriesMax(a0, a, j);
    if !swapped {
      AdjacentKeepsOrder(a0, j);
    }
  }

  /** Swapping within a[..m + 1] keeps what later passes settled. */
  lemma AdjacentKeepsSettled(a: seq<int>, b: seq<int>, j: int, m: int)
    requires 0 <= j < m < |a| && SettledFrom(a, m + 1)
    requires b == if a[j] > a[j + 1] then Swapped(a, j, j + 1) else a
    ensures SettledFrom(b, m + 1)
  {
  }

  /** The largest of a[..j + 1] is carried along to index j + 1. */
  lemma AdjacentCarriesMax(a: seq<int>, b: seq<int>, j: int)
    requires 0 <= j && j + 1 < |a|
    requires forall k :: 0 <= k <= j ==> a[k] <= a[j]
    requires b == if a[j] > a[j + 1] then Swapped(a, j, j + 1) else a
    ensures forall k :: 0 <= k <= j + 1 ==> b[k] <= b[j + 1]
  {
  }

  /** Without a swap the ordered prefix grows by one. */
  lemma AdjacentKeepsOrder(a: seq<int>, j: int)
    requires 0 <= j && j + 1 < |a| && a[j] <= a[j + 1] && SortedPrefix(a, j + 1)
    requires forall k :: 0 <= k <= j ==> a[k] <= a[j]
    ensures SortedPrefix(a, j + 2)
  {
  }

  /** At the end of the pass index m holds the largest of a[..m + 1]; a pass
      without swaps leaves the whole array in order. */
  lemma PassEnds(a: seq<int>, m: int, swapped: bool)
    requires 0 <= m < |a| && SettledFrom(a, m + 1)
    requires forall k :: 0 <= k <= m ==> a[k] <= a[m]
    requires !swapped ==> SortedPrefix(a, m + 1)
    ensures SettledFrom(a, m)
    ensures !swapped ==> Sorted(a)
  {
  }

  /** One iteration of the inner loop: the comparison step, the swap and its
      step when a[j] > a[j + 1], and the step that clears the highlights. */
  method CompareAdjacent(input: seq<int>, a0: seq<int>, steps0: seq<Step>, sorted: set<int>, j: int)
    returns (a: seq<int>, steps: seq<Step>)
    requires 0 <= j && j + 1 < |a0| == |input| && multiset(a0) == multiset(input)
    requires SortTraceOf(steps0, input, true, sorted)
    ensures a == if a0[j] > a0[j + 1] then Swapped(a0, j, j + 1) else a0
    ensures SortTraceOf(steps, input, true, sorted)
  {
    a, steps := a0, steps0;
    RecordSortStep(steps, input, true, sorted, SortStep(a, Compare, [j, j + 1], sorted, None, None));
    steps := steps + [SortStep(a, Compare, [j, j + 1], sorted, None, None)];
    if a[j] > a[j + 1] {
      SwappedElements(a, j, j + 1);
      a := Swapped(a, j, j + 1);
      RecordSortStep(steps, input, true, sorted, SortStep(a, Swap, [j, j + 1], sorted, None, None));
      steps := steps + [SortStep(a, Swap, [j, j + 1], sorted, None, None)];
    }
    RecordSortStep(steps, input, true, sorted, SortStep(a, ResetHighlights, [], sorted, None, None));
    steps := steps + [SortStep(a, ResetHighlights, [], sorted, None, None)];
  }

  /** The early-exit loop `for (k = 0; k < m; k++) if (!includes(k)) push(k)`. */
  method MarkPrefixSorted(sorted0: set<int>, m: int, n: int) returns (sorted: set<int>)
    requires 0 <= m <= n && IndicesBelow(sorted0, n)
    ensures sorted == sorted0 + AllIndices(m) && IndicesBelow(sorted, n)
  {
    sorted := sorted0;
    var k := 0;
    while k < m
      invariant 0 <= k <= m
      invariant sorted == sorted0 + AllIndices(k)
    {
      if k !in sorted {
        sorted := sorted + {k};
      }
      k := k + 1;
    }
  }

  /** The closing steps: index 0 is marked sorted when no pass did so, then
      the finished step marks every index. */
  method CloseBubbleTrace(input: seq<int>, a: seq<int>, steps0: seq<Step>, sorted0: set<int>)
    returns (steps: seq<Step>)
    requires |a| == |input| && multiset(a) == multiset(input) && Sorted(a)
    requires SortTraceOf(steps0, input, true, sorted0)
    ensures |steps| > 0 && SortTrace(steps, |input|)
    ensures Permutations(steps, input)
    ensures SortedGrows(steps)
    ensures Last(steps).action == Finished && Last(steps).sorted == AllIndices(|input|)
    ensures Last(steps).values == SortAscending(input)
  {
    var n := |a|;
    var sorted := sorted0;
    steps := steps0;
    if n > 0 && 0 !in sorted {
      RecordSortStep(steps, input, true, sorted, SortStep(a, FinalElementSorted, [0], sorted + {0}, None, None));
      sorted := sorted + {0};
      steps := steps + [SortStep(a, FinalElementSorted, [0], sorted, None, None)];
    }
    RecordSortStep(steps, input, true, sorted, SortStep(a, Finished, [], AllIndices(n), None, None));
    steps := steps + [SortStep(a, Finished, [], AllIndices(n), None, None)];
    RecordedTrace(steps, input, true);
    SortedPermutationUnique(a, SortAscending(input));
  }
}
