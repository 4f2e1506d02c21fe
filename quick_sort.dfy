/** The quick sort step generator (Lomuto partition, last element as pivot).
    As written, every partition copies the array handed to the recursion,
    which is always the original input, so later partitions work on stale
    data and the final array is the result of the last partition alone. */
module QuickSort {

  import opened Steps
  import opened Sorting

  // ---- the partition as a function ----

  /** The partition scan from cursor j on, with i the last index of the
      "smaller than the pivot" zone: each element below the pivot is swapped
      to the end of that zone. Returns the array and the final i. */
  function Scan(t: seq<int>, pivot: int, high: int, i: int, j: int): (r: (seq<int>, int))
    requires -1 <= i < j <= high < |t|
    ensures |r.0| == |t| && i <= r.1 < high
    decreases high - j
  {
    if j == high then (t, i)
    else
      var next := ScanStep(t, pivot, i, j);
      Scan(next.0, pivot, high, next.1, j + 1)
  }

  /** One element of the scan: an element below the pivot is swapped to
      the end of the smaller zone, which grows by one. */
  function ScanStep(t: seq<int>, pivot: int, i: int, j: int): (r: (seq<int>, int))
    requires -1 <= i < j < |t|
    ensures |r.0| == |t| && r.1 <= j
  {
    if t[j] < pivot then (Swapped(t, i + 1, j), i + 1) else (t, i)
  }

  /** `partition(arr, low, high)` on a copy of a: the partitioned copy and
      the index where the pivot a[high] lands. */
  function Lomuto(a: seq<int>, low: int, high: int): (r: (seq<int>, int))
    requires 0 <= low < high < |a|
    ensures |r.0| == |a| && low <= r.1 <= high
  {
    var s := Scan(a, a[high], high, low - 1, low);
    (Swapped(s.0, s.1 + 1, high), s.1 + 1)
  }

  /** The indices lo, ..., hi - 1 as a set. */
  function Span(lo: int, hi: int): (r: set<int>)
    ensures forall x :: x in r <==> lo <= x < hi
    decreases hi - lo
  {
    if hi <= lo then {} else Span(lo, hi - 1) + {hi - 1}
  }

  /** The pivot t[pi] separates [low, pi), all smaller, from (pi, high], all
      at least as large. */
  ghost predicate Partitioned(t: seq<int>, low: int, pi: int, high: int) {
    0 <= low <= pi <= high < |t| &&
    (forall k :: low <= k < pi ==> t[k] < t[pi]) &&
    (forall k :: pi < k <= high ==> t[pi] <= t[k])
  }

  /** The scan's invariant: t is a permutation of arr changed only in
      [low, high), [low, i] holds elements below the pivot and (i, j)
      elements at least the pivot. */
  ghost predicate Scanning(t: seq<int>, arr: seq<int>, pivot: int, low: int, high: int, i: int, j: int) {
    0 <= low <= j <= high < |t| && low - 1 <= i < j &&
    multiset(t) == multiset(arr) && SameOutside(t, arr, low, high) &&
    (forall k :: low <= k <= i ==> t[k] < pivot) &&
    (forall k :: i < k < j ==> pivot <= t[k])
  }

  /** One element of the scan keeps the invariant. */
  lemma ScanningSteps(t: seq<int>, arr: seq<int>, pivot: int, low: int, high: int, i: int, j: int)
    requires Scanning(t, arr, pivot, low, high, i, j) && j < high
    ensures Scanning(ScanStep(t, pivot, i, j).0, arr, pivot, low, high, ScanStep(t, pivot, i, j).1, j + 1)
  {
    if t[j] < pivot {
      ScanningSwaps(t, arr, pivot, low, high, i, j);
    }
  }

  /** An element below the pivot is swapped to the end of the smaller zone. */
  lemma ScanningSwaps(t: seq<int>, arr: seq<int>, pivot: int, low: int, high: int, i: int, j: int)
    requires Scanning(t, arr, pivot, low, high, i, j) && j < high && t[j] < pivot
    ensures Scanning(Swapped(t, i + 1, j), arr, pivot, low, high, i + 1, j + 1)
  {
    SwappedElements(t, i + 1, j);
    SwapKeepsOutside(t, arr, low, high, i + 1, j);
    SwapGrowsSmaller(t, Swapped(t, i + 1, j), pivot, low, i, j);
    SwapShiftsLarger(t, Swapped(t, i + 1, j), pivot, i, j);
  }

  /** The swapped-in element extends the zone below the pivot. */
  lemma SwapGrowsSmaller(t: seq<int>, s: seq<int>, pivot: int, low: int, i: int, j: int)
    requires 0 <= low && low - 1 <= i < j < |t| && t[j] < pivot && s == Swapped(t, i + 1, j)
    requires forall k :: low <= k <= i ==> t[k] < pivot
    ensures forall k :: low <= k <= i + 1 ==> s[k] < pivot
  {
  }

  /** The element swapped out to j keeps the zone at or above the pivot. */
  lemma SwapShiftsLarger(t: seq<int>, s: seq<int>, pivot: int, i: int, j: int)
    requires -1 <= i < j < |t| && s == Swapped(t, i + 1, j)
    requires forall k :: i < k < j ==> pivot <= t[k]
    ensures forall k :: i + 1 < k < j + 1 ==> pivot <= s[k]
  {
  }

  /** The whole scan keeps the invariant. */
  lemma {:induction false} ScanningRuns(t: seq<int>, arr: seq<int>, pivot: int, low: int, high: int, i: int, j: int)
    requires Scanning(t, arr, pivot, low, high, i, j)
    ensures Scanning(Scan(t, pivot, high, i, j).0, arr, pivot, low, high, Scan(t, pivot, high, i, j).1, high)
    decreases high - j
  {
    if j < high {
      var next := ScanStep(t, pivot, i, j);
      ScanningSteps(t, arr, pivot, low, high, i, j);
      ScanningRuns(next.0, arr, pivot, low, high, next.1, j + 1);
    }
  }

  /** What `partition` promises: the pivot arr[high] lands at an index of
      [low, high] with only smaller elements before it and no smaller one
      after it in that range, the copy is a permutation of arr, and nothing
      outside [low, high] moves. */
  lemma LomutoPartitions(arr: seq<int>, low: int, high: int)
    requires 0 <= low < high < |arr|
    ensures var r := Lomuto(arr, low, high);
      Partitioned(r.0, low, r.1, high) && r.0[r.1] == arr[high] &&
      multiset(r.0) == multiset(arr) && SameOutside(r.0, arr, low, high + 1)
  {
    var s := Scan(arr, arr[high], high, low - 1, low);
    ScanningStarts(arr, low, high);
    ScanningRuns(arr, arr, arr[high], low, high, low - 1, low);
    ScanningEnds(s.0, arr, low, high, s.1);
    assert Lomuto(arr, low, high) == (Swapped(s.0, s.1 + 1, high), s.1 + 1);
  }

  /** Before the scan nothing is classified yet. */
  lemma ScanningStarts(arr: seq<int>, low: int, high: int)
    requires 0 <= low < high < |arr|
    ensures Scanning(arr, arr, arr[high], low, high, low - 1, low)
  {
  }

  /** A swap inside [low, high) keeps everything outside it. */
  lemma SwapKeepsOutside(t: seq<int>, arr: seq<int>, low: int, high: int, a: int, b: int)
    requires SameOutside(t, arr, low, high) && 0 <= low <= a < high && low <= b < high && high <= |t|
    ensures SameOutside(Swapped(t, a, b), arr, low, high)
  {
  }

  /** Swapping the pivot into i + 1 at the end of the scan partitions
      [low, high]. */
  lemma ScanningEnds(t: seq<int>, arr: seq<int>, low: int, high: int, i: int)
    requires 0 <= high < |arr| && Scanning(t, arr, arr[high], low, high, i, high)
    ensures Partitioned(Swapped(t, i + 1, high), low, i + 1, high)
    ensures Swapped(t, i + 1, high)[i + 1] == arr[high]
    ensures multiset(Swapped(t, i + 1, high)) == multiset(arr)
    ensures SameOutside(Swapped(t, i + 1, high), arr, low, high + 1)
  {
    SwappedElements(t, i + 1, high);
  }

  // ---- the partition as the generator runs it ----

  /** `partition(arr, low, high)`: the pivot selection step shows the array
      on display (shown0), the scan records a comparison, perhaps a swap,
      and a reset per element, and the last step shows Lomuto's result with
      the pivot's index added to the sorted ones. */
  method Partition(input: seq<int>, arr: seq<int>, shown0: seq<int>, steps0: seq<Step>, tracker: set<int>, low: int, high: int)
    returns (t: seq<int>, pi: int, steps: seq<Step>)
    requires 0 <= low < high < |arr| && |arr| == |input| && |shown0| == |input|
    requires multiset(arr) == multiset(input) && multiset(shown0) == multiset(input)
    requires SortTraceOf(steps0, input, true, tracker)
    ensures (t, pi) == Lomuto(arr, low, high)
    ensures multiset(t) == multiset(input)
    ensures |steps| > 0 && Last(steps) == SortStep(t, PivotPlaced(arr[high]), [pi], tracker + {pi}, None, None)
    ensures SortTraceOf(steps, input, true, tracker + {pi})
  {
    steps := RecordScan(input, shown0, steps0, tracker, [], high, SelectPivot);
    var scanned, i;
    scanned, i, steps := ScanAll(input, arr, shown0, steps, tracker, low, high);
    pi := i + 1;
    SwappedElements(scanned, pi, high);
    t := Swapped(scanned, pi, high);
    steps := RecordPivotPlaced(input, t, steps, tracker, pi, arr[high]);
  }

  /** The scan loop `for (let j = low; j <= high - 1; j++)`: its result is
      Scan's. */
  method ScanAll(input: seq<int>, arr: seq<int>, shown0: seq<int>, steps0: seq<Step>, tracker: set<int>, low: int, high: int)
    returns (t: seq<int>, i: int, steps: seq<Step>)
    requires 0 <= low < high < |arr| && |arr| == |input| && |shown0| == |input|
    requires multiset(arr) == multiset(input) && multiset(shown0) == multiset(input)
    requires SortTraceOf(steps0, input, true, tracker)
    ensures (t, i) == Scan(arr, arr[high], high, low - 1, low)
    ensures multiset(t) == multiset(input)
    ensures SortTraceOf(steps, input, true, tracker)
  {
    t, steps := arr, steps0;
    var pivot := t[high];
    var shown := shown0;
    i := low - 1;
    var j := low;
    while j < high
      invariant low <= j <= high && low - 1 <= i < j && |t| == |input|
      invariant Scan(t, pivot, high, i, j) == Scan(arr, pivot, high, low - 1, low)
      invariant multiset(t) == multiset(input)
      invariant |shown| == |input| && multiset(shown) == multiset(input)
      invariant SortTraceOf(steps, input, true, tracker)
      decreases high - j
    {
      ScanUnfolds(t, pivot, high, i, j);
      t, i, shown, steps := ScanOne(input, pivot, t, i, j, shown, steps, tracker, high);
      j := j + 1;
    }
    ScanDone(t, pivot, high, i);
  }

  lemma ScanUnfolds(t: seq<int>, pivot: int, high: int, i: int, j: int)
    requires -1 <= i < j < high < |t|
    ensures Scan(t, pivot, high, i, j) == Scan(ScanStep(t, pivot, i, j).0, pivot, high, ScanStep(t, pivot, i, j).1, j + 1)
  {
  }

  lemma ScanDone(t: seq<int>, pivot: int, high: int, i: int)
    requires -1 <= i < high < |t|
    ensures Scan(t, pivot, high, i, high) == (t, i)
  {
  }

  /** One iteration of the scan loop with its steps: the comparison, the
      swap when the element is below the pivot, and the reset. */
  method ScanOne(input: seq<int>, pivot: int, t0: seq<int>, i0: int, j: int, shown0: seq<int>, steps0: seq<Step>, tracker: set<int>, high: int)
    returns (t: seq<int>, i: int, shown: seq<int>, steps: seq<Step>)
    requires -1 <= i0 < j < high < |t0| && |t0| == |input| && multiset(t0) == multiset(input)
    requires |shown0| == |input| && multiset(shown0) == multiset(input)
    requires SortTraceOf(steps0, input, true, tracker)
    ensures (t, i) == ScanStep(t0, pivot, i0, j)
    ensures multiset(t) == multiset(input)
    ensures |shown| == |input| && multiset(shown) == multiset(input)
    ensures SortTraceOf(steps, input, true, tracker)
  {
    steps := RecordScan(input, shown0, steps0, tracker, [j], high, Compare);
    if t0[j] < pivot {
      t, i, steps := SwapIntoZone(input, t0, i0, j, steps, tracker, high);
      shown := t;
    } else {
      t, i, shown := t0, i0, shown0;
    }
    steps := RecordScan(input, shown, steps, tracker, [], high, ResetHighlights);
  }

  /** An element below the pivot joins the smaller zone: the swap, and the
      step showing the swapped copy, which is on display from then on. */
  method SwapIntoZone(input: seq<int>, t0: seq<int>, i0: int, j: int, steps0: seq<Step>, tracker: set<int>, high: int)
    returns (t: seq<int>, i: int, steps: seq<Step>)
    requires -1 <= i0 < j < high < |t0| && |t0| == |input| && multiset(t0) == multiset(input)
    requires SortTraceOf(steps0, input, true, tracker)
    ensures t == Swapped(t0, i0 + 1, j) && i == i0 + 1
    ensures multiset(t) == multiset(input)
    ensures SortTraceOf(steps, input, true, tracker)
  {
    i := i0 + 1;
    SwappedElements(t0, i, j);
    t := Swapped(t0, i, j);
    steps := RecordScan(input, t, steps0, tracker, [i, j], high, Swap);
  }

  /** A step of the scan, showing the array on display with the pivot index
      high. */
  method RecordScan(input: seq<int>, shown: seq<int>, steps0: seq<Step>, tracker: set<int>, highlight: seq<int>, high: int, action: Action)
    returns (steps: seq<Step>)
    requires |shown| == |input| && multiset(shown) == multiset(input)
    requires InBounds(highlight, |input|) && 0 <= high < |input|
    requires SortTraceOf(steps0, input, true, tracker)
    ensures steps == steps0 + [SortStep(shown, action, highlight, tracker, Some(high), None)]
    ensures SortTraceOf(steps, input, true, tracker)
  {
    var st := SortStep(shown, action, highlight, tracker, Some(high), None);
    RecordSortStep(steps0, input, true, tracker, st);
    steps := steps0 + [st];
  }

  /** The closing step of a partition. */
  method RecordPivotPlaced(input: seq<int>, t: seq<int>, steps0: seq<Step>, tracker: set<int>, pi: int, pivot: int)
    returns (steps: seq<Step>)
    requires |t| == |input| && multiset(t) == multiset(input) && 0 <= pi < |input|
    requires SortTraceOf(steps0, input, true, tracker)
    ensures steps == steps0 + [SortStep(t, PivotPlaced(pivot), [pi], tracker + {pi}, None, None)]
    ensures SortTraceOf(steps, input, true, tracker + {pi})
  {
    var st := SortStep(t, PivotPlaced(pivot), [pi], tracker + {pi}, None, None);
    RecordSortStep(steps0, input, true, tracker, st);
    steps := steps0 + [st];
  }

  // ---- the recursion as written ----

  /** The partitions a call of `quickSortHelper` performs, in call order:
      the partition of [low, high] with its result, then the calls on the
      left part, then those on the right part. */
  datatype Calls =
    | NoCalls
    | Partitions(low: int, high: int, result: seq<int>, left: Calls, right: Calls)

  /** The calls `quickSortHelper(a, low, high)` makes when every partition
      reads a, each node holding Lomuto's result on a. */
  function CallTree(a: seq<int>, low: int, high: int): Calls
    requires 0 <= low <= high + 1 <= |a|
    decreases high - low + 1
  {
    if low < high then
      var p := Lomuto(a, low, high);
      Partitions(low, high, p.0, CallTree(a, low, p.1 - 1), CallTree(a, p.1 + 1, high))
    else NoCalls
  }

  /** The array on display after the calls c when shown0 was on display
      before: every partition puts its own result on display. */
  function Display(c: Calls, shown0: seq<int>): seq<int> {
    match c
    case NoCalls => shown0
    case Partitions(_, _, result, left, right) => Display(right, Display(left, result))
  }

  /** The last partition of c, if any. */
  function LastCall(c: Calls): (r: Option<Calls>)
    ensures r.Some? ==> r.value.Partitions?
  {
    match c
    case NoCalls => None
    case Partitions(_, _, _, left, right) =>
      if LastCall(right).Some? then LastCall(right)
      else if LastCall(left).Some? then LastCall(left)
      else Some(c)
  }

  /** Each partition displays its own result, so after a run of calls only
      the last partition's result is on display, whatever was before. */
  lemma {:induction false} DisplayIsLast(c: Calls, shown0: seq<int>)
    ensures Display(c, shown0) == if LastCall(c).Some? then LastCall(c).value.result else shown0
  {
    match c
    case NoCalls =>
    case Partitions(_, _, result, left, right) =>
      DisplayIsLast(left, result);
      DisplayIsLast(right, Display(left, result));
  }

  /** The final array of the generator as written. */
  function QuickFinal(input: seq<int>): seq<int> {
    Display(CallTree(input, 0, |input| - 1), input)
  }

  /** The final array is the result of the last partition alone, computed
      on the original input; an input of fewer than two elements is left as
      it is. */
  lemma QuickFinalIsLastPartition(input: seq<int>)
    ensures var last := LastCall(CallTree(input, 0, |input| - 1));
      QuickFinal(input) == if last.Some? then last.value.result else input
  {
    DisplayIsLast(CallTree(input, 0, |input| - 1), input);
  }

  /** `quickSortHelper(arr, low, high)`: partitions ranges of two or more
      elements and recurses on both sides of the pivot; a range of one
      element is marked sorted, with a step, the first time it is reached.
      Every index of [low, high] ends up in the tracker. */
  method QuickSortRange(input: seq<int>, arr: seq<int>, shown0: seq<int>, steps0: seq<Step>, tracker0: set<int>, low: int, high: int)
    returns (shown: seq<int>, steps: seq<Step>, tracker: set<int>)
    requires 0 <= low <= high + 1 <= |input| && |arr| == |input| && |shown0| == |input|
    requires multiset(arr) == multiset(input) && multiset(shown0) == multiset(input)
    requires SortTraceOf(steps0, input, true, tracker0)
    ensures shown == Display(CallTree(arr, low, high), shown0)
    ensures |shown| == |input| && multiset(shown) == multiset(input)
    ensures tracker == tracker0 + Span(low, high + 1)
    ensures SortTraceOf(steps, input, true, tracker)
    decreases high - low + 1
  {
    if low < high {
      var t, pi;
      t, pi, steps := Partition(input, arr, shown0, steps0, tracker0, low, high);
      shown, steps, tracker := QuickSortRange(input, arr, t, steps, tracker0 + {pi}, low, pi - 1);
      shown, steps, tracker := QuickSortRange(input, arr, shown, steps, tracker, pi + 1, high);
      CallTreeSplits(arr, low, high, t, pi);
      SpanSplits(tracker0, low, pi, high);
    } else {
      shown, steps, tracker := MarkSingleton(input, shown0, steps0, tracker0, low, high);
    }
  }

  lemma CallTreeSplits(a: seq<int>, low: int, high: int, t: seq<int>, pi: int)
    requires 0 <= low < high < |a| && (t, pi) == Lomuto(a, low, high)
    ensures CallTree(a, low, high) == Partitions(low, high, t, CallTree(a, low, pi - 1), CallTree(a, pi + 1, high))
  {
  }

  /** The tracker after a partitioned range. */
  lemma SpanSplits(tracker0: set<int>, low: int, pi: int, high: int)
    requires low <= pi <= high
    ensures tracker0 + {pi} + Span(low, pi) + Span(pi + 1, high + 1) == tracker0 + Span(low, high + 1)
  {
  }

  /** The `else if (low === high && low >= 0)` branch. */
  method MarkSingleton(input: seq<int>, shown: seq<int>, steps0: seq<Step>, tracker0: set<int>, low: int, high: int)
    returns (shown': seq<int>, steps: seq<Step>, tracker: set<int>)
    requires 0 <= low && high < low + 1 && high < |input| && |shown| == |input|
    requires multiset(shown) == multiset(input)
    requires SortTraceOf(steps0, input, true, tracker0)
    ensures shown' == shown && tracker == tracker0 + Span(low, high + 1)
    ensures SortTraceOf(steps, input, true, tracker)
  {
    shown', steps, tracker := shown, steps0, tracker0;
    if low == high && low >= 0 {
      if low !in tracker0 {
        tracker := tracker0 + {low};
        var st := SortStep(shown, SingletonSorted, [], tracker, None, None);
        RecordSortStep(steps0, input, true, tracker0, st);
        steps := steps0 + [st];
      }
      assert tracker == tracker0 + Span(low, high + 1);
    } else {
      assert Span(low, high + 1) == {};
    }
  }

  /** `getQuickSortSteps` as written: every snapshot is a permutation of the
      input, sorted indices only grow, the last step marks every index
      sorted, and the final array is the last partition's result, which
      need not be sorted (QuickStaleExample). */
  method QuickSortSteps(input: seq<int>) returns (steps: seq<Step>)
    ensures |steps| > 0 && SortTrace(steps, |input|) && Permutations(steps, input) && SortedGrows(steps)
    ensures Last(steps).action == Finished && Last(steps).sorted == AllIndices(|input|)
    ensures Last(steps).values == QuickFinal(input)
  {
    var shown, tracker;
    shown, steps, tracker := QuickSortRange(input, input, input, [], {}, 0, |input| - 1);
    steps := FinishQuickTrace(input, shown, steps, tracker);
  }

  /** The finished step, showing the array on display with every index
      sorted. */
  method FinishQuickTrace(input: seq<int>, shown: seq<int>, steps0: seq<Step>, tracker: set<int>)
    returns (steps: seq<Step>)
    requires |shown| == |input| && multiset(shown) == multiset(input)
    requires SortTraceOf(steps0, input, true, tracker)
    ensures |steps| > 0 && SortTrace(steps, |input|) && Permutations(steps, input) && SortedGrows(steps)
    ensures Last(steps) == SortStep(shown, Finished, [], AllIndices(|input|), None, None)
  {
    var st := SortStep(shown, Finished, [], AllIndices(|input|), None, None);
    RecordSortStep(steps0, input, true, tracker, st);
    steps := steps0 + [st];
    RecordedTrace(steps, input, true);
  }

  /** [4, 3, 2, 1]: the partitions of [0, 3], [1, 3] and [2, 3] all read the
      input, and the last one leaves [4, 3, 1, 2] on display. */
  lemma QuickStaleExample(a: seq<int>)
    requires a == [4, 3, 2, 1]
    ensures QuickFinal(a) == [4, 3, 1, 2]
    ensures !Sorted(QuickFinal(a))
  {
    StaleCalls();
  }

  /** The calls on [4, 3, 2, 1]: each partition puts the pivot 1 at the
      front of its range, so the left parts are empty and the right parts
      shrink by one. */
  lemma StaleCalls()
    ensures CallTree([4, 3, 2, 1], 0, 3) ==
      Partitions(0, 3, [1, 3, 2, 4], NoCalls,
        Partitions(1, 3, [4, 1, 2, 3], NoCalls,
          Partitions(2, 3, [4, 3, 1, 2], NoCalls, NoCalls)))
  {
    var a := [4, 3, 2, 1];
    StalePartitions();
    CallTreeSplits(a, 2, 3, [4, 3, 1, 2], 2);
    CallTreeSplits(a, 1, 3, [4, 1, 2, 3], 1);
    CallTreeSplits(a, 0, 3, [1, 3, 2, 4], 0);
  }

  /** The three partitions of [4, 3, 2, 1]: the pivot 1 is the least
      element each time, so it is swapped to the front of each range. */
  lemma StalePartitions()
    ensures Lomuto([4, 3, 2, 1], 0, 3) == ([1, 3, 2, 4], 0)
    ensures Lomuto([4, 3, 2, 1], 1, 3) == ([4, 1, 2, 3], 1)
    ensures Lomuto([4, 3, 2, 1], 2, 3) == ([4, 3, 1, 2], 2)
  {
    var a := [4, 3, 2, 1];
    StalePartition(0);
    StalePartition(1);
    StalePartition(2);
    assert Swapped(a, 0, 3) == [1, 3, 2, 4];
    assert Swapped(a, 1, 3) == [4, 1, 2, 3];
    assert Swapped(a, 2, 3) == [4, 3, 1, 2];
  }

  /** In [4, 3, 2, 1] no element is below the pivot 1, so the partition of
      [low, 3] swaps the pivot to low. */
  lemma StalePartition(low: int)
    requires 0 <= low < 3
    ensures Lomuto([4, 3, 2, 1], low, 3) == (Swapped([4, 3, 2, 1], low, 3), low)
  {
    NothingBelow([4, 3, 2, 1], 1, 3, low - 1, low);
  }

  /** A scan that meets no element below the pivot changes nothing. */
  lemma {:induction false} NothingBelow(t: seq<int>, pivot: int, high: int, i: int, j: int)
    requires -1 <= i < j <= high < |t|
    requires forall k :: j <= k < high ==> pivot <= t[k]
    ensures Scan(t, pivot, high, i, j) == (t, i)
    decreases high - j
  {
    if j < high {
      NothingBelow(t, pivot, high, i, j + 1);
    }
  }

  // ---- the recursion with the evident intent ----

  /** Segment [lo, hi) of a is in ascending order. */
  ghost predicate SortedBetween(a: seq<int>, lo: int, hi: int) {
    forall p, q :: lo <= p < q < hi && 0 <= p && q < |a| ==> a[p] <= a[q]
  }

  /** QuickSortRange where each partition copies the array on display, as
      the recursion evidently intends: the range [low, high] ends sorted,
      rearranged in place, and nothing outside it changes. */
  method QuickSortRangeFixed(input: seq<int>, shown0: seq<int>, steps0: seq<Step>, tracker0: set<int>, low: int, high: int)
    returns (shown: seq<int>, steps: seq<Step>, tracker: set<int>)
    requires 0 <= low <= high + 1 <= |input| && |shown0| == |input|
    requires multiset(shown0) == multiset(input)
    requires SortTraceOf(steps0, input, true, tracker0)
    ensures SameOutside(shown, shown0, low, high + 1) && multiset(shown) == multiset(shown0)
    ensures SortedBetween(shown, low, high + 1)
    ensures tracker == tracker0 + Span(low, high + 1)
    ensures SortTraceOf(steps, input, true, tracker)
    decreases high - low + 1
  {
    if low < high {
      var t, pi, s1;
      t, pi, steps := Partition(input, shown0, shown0, steps0, tracker0, low, high);
      LomutoPartitions(shown0, low, high);
      s1, steps, tracker := QuickSortRangeFixed(input, t, steps, tracker0 + {pi}, low, pi - 1);
      shown, steps, tracker := QuickSortRangeFixed(input, s1, steps, tracker, pi + 1, high);
      PartsSorted(shown0, t, s1, shown, low, pi, high);
      SpanSplits(tracker0, low, pi, high);
    } else {
      shown, steps, tracker := MarkSingleton(input, shown0, steps0, tracker0, low, high);
    }
  }

  /** Every element of a[lo..hi) is below x. */
  ghost predicate AllBelow(a: seq<int>, lo: int, hi: int, x: int) {
    forall k :: lo <= k < hi && 0 <= k < |a| ==> a[k] < x
  }

  /** No element of a[lo..hi) is below x. */
  ghost predicate AllAtLeast(a: seq<int>, lo: int, hi: int, x: int) {
    forall k :: lo <= k < hi && 0 <= k < |a| ==> x <= a[k]
  }

  lemma SplitElements(a: seq<int>, lo: int, hi: int)
    requires 0 <= lo <= hi <= |a|
    ensures multiset(a) == multiset(a[..lo]) + multiset(a[lo..hi]) + multiset(a[hi..])
  {
    assert a == a[..lo] + a[lo..hi] + a[hi..];
  }

  /** A permutation of a that agrees with a outside [lo, hi) permutes that
      segment. */
  lemma SegmentPermuted(a: seq<int>, b: seq<int>, lo: int, hi: int)
    requires 0 <= lo <= hi <= |a| && SameOutside(b, a, lo, hi) && multiset(b) == multiset(a)
    ensures multiset(b[lo..hi]) == multiset(a[lo..hi])
  {
    SplitElements(a, lo, hi);
    SplitElements(b, lo, hi);
    assert a[..lo] == b[..lo];
    assert a[hi..] == b[hi..];
    forall x
      ensures multiset(b[lo..hi])[x] == multiset(a[lo..hi])[x]
    {
      assert multiset(b)[x] == multiset(a)[x];
    }
  }

  /** Each element of b[lo..hi) is an element of a[lo..hi). */
  lemma SegmentFrom(a: seq<int>, b: seq<int>, lo: int, hi: int, k: int)
    requires 0 <= lo <= k < hi <= |a| == |b| && multiset(b[lo..hi]) == multiset(a[lo..hi])
    ensures exists m :: lo <= m < hi && a[m] == b[k]
  {
    assert b[k] == b[lo..hi][k - lo];
    assert b[k] in multiset(a[lo..hi]);
    var m :| 0 <= m < hi - lo && a[lo..hi][m] == b[k];
    assert a[lo + m] == b[k];
  }

  /** Rearranging a segment keeps an upper bound on it. */
  lemma BelowKept(a: seq<int>, b: seq<int>, lo: int, hi: int, x: int)
    requires 0 <= lo <= hi <= |a| && SameOutside(b, a, lo, hi) && multiset(b) == multiset(a)
    requires AllBelow(a, lo, hi, x)
    ensures AllBelow(b, lo, hi, x)
  {
    SegmentPermuted(a, b, lo, hi);
    forall k | lo <= k < hi
      ensures b[k] < x
    {
      SegmentFrom(a, b, lo, hi, k);
    }
  }

  /** Rearranging a segment keeps a lower bound on it. */
  lemma AtLeastKept(a: seq<int>, b: seq<int>, lo: int, hi: int, x: int)
    requires 0 <= lo <= hi <= |a| && SameOutside(b, a, lo, hi) && multiset(b) == multiset(a)
    requires AllAtLeast(a, lo, hi, x)
    ensures AllAtLeast(b, lo, hi, x)
  {
    SegmentPermuted(a, b, lo, hi);
    forall k | lo <= k < hi
      ensures x <= b[k]
    {
      SegmentFrom(a, b, lo, hi, k);
    }
  }

  /** A sorted run of smaller elements, the pivot, and a sorted run of
      elements at least the pivot, make a sorted range. */
  lemma JoinSorted(s: seq<int>, low: int, pi: int, high: int)
    requires 0 <= low <= pi <= high < |s|
    requires SortedBetween(s, low, pi) && SortedBetween(s, pi + 1, high + 1)
    requires AllBelow(s, low, pi, s[pi]) && AllAtLeast(s, pi + 1, high + 1, s[pi])
    ensures SortedBetween(s, low, high + 1)
  {
  }

  /** Sorting the two sides of a partition in place sorts the whole range. */
  lemma PartsSorted(a: seq<int>, t: seq<int>, s1: seq<int>, s2: seq<int>, low: int, pi: int, high: int)
    requires Partitioned(t, low, pi, high) && SameOutside(t, a, low, high + 1)
    requires SameOutside(s1, t, low, pi) && multiset(s1) == multiset(t) && SortedBetween(s1, low, pi)
    requires SameOutside(s2, s1, pi + 1, high + 1) && multiset(s2) == multiset(s1) && SortedBetween(s2, pi + 1, high + 1)
    ensures SameOutside(s2, a, low, high + 1) && SortedBetween(s2, low, high + 1)
  {
    assert AllBelow(t, low, pi, t[pi]);
    BelowKept(t, s1, low, pi, t[pi]);
    assert AllAtLeast(s1, pi + 1, high + 1, t[pi]);
    AtLeastKept(s1, s2, pi + 1, high + 1, t[pi]);
    assert s2[pi] == t[pi];
    assert AllBelow(s2, low, pi, s2[pi]);
    assert SortedBetween(s2, low, pi);
    JoinSorted(s2, low, pi, high);
  }

  /** The corrected generator: the same trace properties, and the final
      array is the input sorted ascending. */
  method QuickSortStepsFixed(input: seq<int>) returns (steps: seq<Step>)
    ensures |steps| > 0 && SortTrace(steps, |input|) && Permutations(steps, input) && SortedGrows(steps)
    ensures Last(steps).action == Finished && Last(steps).sorted == AllIndices(|input|)
    ensures Last(steps).values == SortAscending(input)
  {
    var shown, tracker;
    shown, steps, tracker := QuickSortRangeFixed(input, input, [], {}, 0, |input| - 1);
    steps := FinishQuickTrace(input, shown, steps, tracker);
    SortedPermutationUnique(shown, SortAscending(input));
  }
}
