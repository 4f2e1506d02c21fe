/** The selection sort step generator (`getSelectionSortSteps`). The `pivot`
    field of its steps carries the index of the current minimum. */
module SelectionSort {
  import opened Steps
  import opened Sorting

  /** After i passes: a[..i] holds the i smallest elements in order, so every
      element before i is at most every later one. */
  ghost predicate PlacedBefore(a: seq<int>, i: int) {
    forall p, q :: 0 <= p < q < |a| && p < i ==> a[p] <= a[q]
  }

  method SelectionSortSteps(input: seq<int>) returns (steps: seq<Step>)
    ensures |steps| > 0 && SortTrace(steps, |input|)
    ensures Permutations(steps, input)
    ensures SortedGrows(steps)
    ensures Last(steps).action == Finished && Last(steps).sorted == AllIndices(|input|)
    ensures Last(steps).values == SortAscending(input)
  {
    var a := input;
    var n := |a|;
    var sorted: set<int> := {};
    steps := [];
    var i := 0;
    while i < n - 1
      invariant 0 <= i <= n && |a| == n
      invariant n > 0 ==> i <= n - 1
      invariant multiset(a) == multiset(input)
      invariant PlacedBefore(a, i)
      invariant sorted == AllIndices(i)
      invariant SortTraceOf(steps, input, true, sorted)
    {
      var minIndex;
      minIndex, steps := ScanForMinimum(input, a, steps, sorted, i);
      a, steps := PlaceMinimum(input, a, steps, sorted, i, minIndex);
      sorted, steps := FinalizeIndex(input, a, steps, sorted, i);
      i := i + 1;
    }
    steps := CloseSelectionTrace(input, a, steps, sorted);
  }

  /** The inner loop of pass i: scan a[i + 1 ..] for the index of a smallest
      element of a[i..], keeping the first one found on ties. */
  method ScanForMinimum(input: seq<int>, a: seq<int>, steps0: seq<Step>, sorted: set<int>, i: int)
    returns (minIndex: int, steps: seq<Step>)
    requires 0 <= i < |a| == |input| && multiset(a) == multiset(input)
    requires SortTraceOf(steps0, input, true, sorted)
    ensures i <= minIndex < |a|
    ensures forall k :: i <= k < |a| ==> a[minIndex] <= a[k]
    ensures forall k :: i <= k < minIndex ==> a[minIndex] < a[k]
    ensures SortTraceOf(steps, input, true, sorted)
  {
    minIndex := i;
    steps := steps0;
    RecordSortStep(steps, input, true, sorted, SortStep(a, StartPass, [i], sorted, Some(minIndex), None));
    steps := steps + [SortStep(a, StartPass, [i], sorted, Some(minIndex), None)];
    var j := i + 1;
    while j < |a|
      invariant i < j <= |a| && i <= minIndex < j
      invariant forall k :: i <= k < j ==> a[minIndex] <= a[k]
      invariant forall k :: i <= k < minIndex ==> a[minIndex] < a[k]
      invariant SortTraceOf(steps, input, true, sorted)
    {
      RecordSortStep(steps, input, true, sorted, SortStep(a, Compare, [j], sorted, Some(minIndex), None));
      steps := steps + [SortStep(a, Compare, [j], sorted, Some(minIndex), None)];
      if a[j] < a[minIndex] {
        minIndex := j;
        RecordSortStep(steps, input, true, sorted, SortStep(a, NewMinimum, [j], sorted, Some(minIndex), None));
        steps := steps + [SortStep(a, NewMinimum, [j], sorted, Some(minIndex), None)];
      }
      RecordSortStep(steps, input, true, sorted, SortStep(a, ResetHighlights, [], sorted, Some(minIndex), None));
      steps := steps + [SortStep(a, ResetHighlights, [], sorted, Some(minIndex), None)];
      j := j + 1;
    }
  }

  /** Moves the minimum to index i: a swap step when it lies elsewhere,
      otherwise a step saying a[i] already is the smallest. */
  method PlaceMinimum(input: seq<int>, a0: seq<int>, steps0: seq<Step>, sorted: set<int>, i: int, minIndex: int)
    returns (a: seq<int>, steps: seq<Step>)
    requires 0 <= i <= minIndex < |a0| == |input| && multiset(a0) == multiset(input)
    requires PlacedBefore(a0, i)
    requires forall k :: i <= k < |a0| ==> a0[minIndex] <= a0[k]
    requires SortTraceOf(steps0, input, true, sorted)
    ensures |a| == |a0| && multiset(a) == multiset(input) && PlacedBefore(a, i + 1)
    ensures a == if minIndex != i then Swapped(a0, i, minIndex) else a0
    ensures SortTraceOf(steps, input, true, sorted)
  {
    a, steps := a0, steps0;
    if minIndex != i {
      SwappedElements(a, i, minIndex);
      a := Swapped(a, i, minIndex);
      RecordSortStep(steps, input, true, sorted, SortStep(a, Swap, [i, minIndex], sorted, None, None));
      steps := steps + [SortStep(a, Swap, [i, minIndex], sorted, None, None)];
    } else {
      RecordSortStep(steps, input, true, sorted, SortStep(a, AlreadySmallest, [i], sorted, None, None));
      steps := steps + [SortStep(a, AlreadySmallest, [i], sorted, None, None)];
    }
    SwapMinimumPlaces(a0, i, minIndex);
  }

  /** Exchanging a[i] with a smallest element of a[i..] extends the placed
      prefix by one. */
  lemma SwapMinimumPlaces(a: seq<int>, i: int, m: int)
    requires 0 <= i <= m < |a|
    requires PlacedBefore(a, i)
    requires forall k :: i <= k < |a| ==> a[m] <= a[k]
    ensures PlacedBefore(if m != i then Swapped(a, i, m) else a, i + 1)
  {
    var b := if m != i then Swapped(a, i, m) else a;
    forall p, q | 0 <= p < q < |b| && p < i + 1 ensures b[p] <= b[q] {
      if p < i {
        assert b[p] == a[p];
        assert b[q] == a[q] || b[q] == a[m] || b[q] == a[i];
      } else {
        assert b[p] == a[m];
        assert b[q] == a[q] || b[q] == a[i];
      }
    }
  }

  /** `sortedIndices.push(i)` and the step announcing it. */
  method FinalizeIndex(input: seq<int>, a: seq<int>, steps0: seq<Step>, sorted0: set<int>, i: int)
    returns (sorted: set<int>, steps: seq<Step>)
    requires 0 <= i < |a| == |input| && multiset(a) == multiset(input)
    requires sorted0 == AllIndices(i)
    requires SortTraceOf(steps0, input, true, sorted0)
    ensures sorted == AllIndices(i + 1)
    ensures SortTraceOf(steps, input, true, sorted)
  {
    sorted := sorted0 + {i};
    RecordSortStep(steps0, input, true, sorted0, SortStep(a, Finalized, [], sorted, None, None));
    steps := steps0 + [SortStep(a, Finalized, [], sorted, None, None)];
  }

  /** The closing steps: the last index is marked sorted, then the finished
      step marks every index. */
  method CloseSelectionTrace(input: seq<int>, a: seq<int>, steps0: seq<Step>, sorted0: set<int>)
    returns (steps: seq<Step>)
    requires |a| == |input| && multiset(a) == multiset(input)
    requires PlacedBefore(a, |a| - 1)
    requires sorted0 == AllIndices(|a| - 1)
    requires SortTraceOf(steps0, input, true, sorted0)
    ensures |steps| > 0 && SortTrace(steps, |input|)
    ensures Permutations(steps, input)
    ensures SortedGrows(steps)
    ensures Last(steps).action == Finished && Last(steps).sorted == AllIndices(|input|)
    ensures Last(steps).values == SortAscending(input)
  {
    var n := |a|;
    var sorted := sorted0;
    steps := steps0;
    if n > 0 && n - 1 !in sorted {
      RecordSortStep(steps, input, true, sorted, SortStep(a, FinalElementSorted, [], sorted + {n - 1}, None, None));
      sorted := sorted + {n - 1};
      steps := steps + [SortStep(a, FinalElementSorted, [], sorted, None, None)];
    }
    RecordSortStep(steps, input, true, sorted, SortStep(a, Finished, [], AllIndices(n), None, None));
    steps := steps + [SortStep(a, Finished, [], AllIndices(n), None, None)];
    RecordedTrace(steps, input, true);
    SortedPermutationUnique(a, SortAscending(input));
  }
}
