/** The binary search step generator (`getBinarySearchSteps`). The array is
    only read; every record carries low, high, mid and the found flag. */
module BinarySearch {
  import opened Steps
  import opened Sorting

  /** Every step is a binary search step over the unchanged input with the
      same target, highlighting only indices of the array. */
  ghost predicate BinaryTrace(steps: seq<Step>, input: seq<int>, target: int) {
    forall st <- steps ::
      st.BinaryStep? && st.values == input && st.target == target && InBounds(st.highlight, |input|)
  }

  /** Every probe inspects an index of the array inside the current window. */
  ghost predicate ProbesInWindow(steps: seq<Step>, n: int) {
    forall st <- steps :: st.BinaryStep? && st.action == CheckMid ==>
      st.low <= st.mid <= st.high && 0 <= st.mid < n && st.highlight == [st.mid]
  }

  /** No step claims the target was found. */
  ghost predicate NoneFound(steps: seq<Step>) {
    forall st <- steps :: st.BinaryStep? && !st.found
  }

  /** On a sorted array, everything left of the window is below the target
      and everything right of it above. */
  ghost predicate WindowHolds(input: seq<int>, target: int, low: int, high: int) {
    Sorted(input) ==>
      (forall k :: 0 <= k < low && k < |input| ==> input[k] < target) &&
      (forall k :: high < k < |input| && 0 <= k ==> target < input[k])
  }

  method BinarySearchSteps(input: seq<int>, target: int) returns (steps: seq<Step>)
    ensures |steps| > 0 && steps[0] == BinaryStep(input, SearchStarted, [], 0, |input| - 1, -1, false, target)
    ensures BinaryTrace(steps, input, target) && ProbesInWindow(steps, |input|)
    ensures NoneFound(steps[..|steps| - 1])
    ensures Last(steps).found ==>
      Last(steps).action == Success && 0 <= Last(steps).mid < |input| &&
      input[Last(steps).mid] == target && Last(steps).highlight == [Last(steps).mid]
    ensures !Last(steps).found ==>
      Last(steps).action == Failure && Last(steps).mid == -1 &&
      Last(steps).low > Last(steps).high && Last(steps).highlight == []
    ensures Sorted(input) ==> (Last(steps).found <==> target in input)
  {
    var n := |input|;
    steps := [BinaryStep(input, SearchStarted, [], 0, n - 1, -1, false, target)];
    var low, high, found, mid := 0, n - 1, false, -1;
    while low <= high && !found
      invariant 0 <= low <= high + 1 <= n
      invariant WindowHolds(input, target, low, high)
      invariant found ==> 0 <= mid < n && input[mid] == target
      invariant |steps| > 0 && steps[0] == BinaryStep(input, SearchStarted, [], 0, n - 1, -1, false, target)
      invariant BinaryTrace(steps, input, target) && ProbesInWindow(steps, n) && NoneFound(steps)
      decreases high - low + (if found then 0 else 1)
    {
      steps, low, high, mid, found := Probe(input, target, steps, low, high);
    }
    steps := Conclude(input, target, steps, low, high, mid, found);
  }

  /** One iteration of the search loop: the probe of the middle index, and
      unless it holds the target, the halving of the window with its step. */
  method Probe(input: seq<int>, target: int, steps0: seq<Step>, low0: int, high0: int)
    returns (steps: seq<Step>, low: int, high: int, mid: int, found: bool)
    requires 0 <= low0 <= high0 < |input|
    requires WindowHolds(input, target, low0, high0)
    requires |steps0| > 0 && BinaryTrace(steps0, input, target) && ProbesInWindow(steps0, |input|) && NoneFound(steps0)
    ensures low0 <= mid <= high0 && (found <==> input[mid] == target)
    ensures found ==> low == low0 && high == high0
    ensures !found ==> 0 <= low <= high + 1 <= |input| && high - low < high0 - low0
    ensures WindowHolds(input, target, low, high)
    ensures |steps| > |steps0| && steps[..|steps0|] == steps0
    ensures BinaryTrace(steps, input, target) && ProbesInWindow(steps, |input|) && NoneFound(steps)
  {
    low, high := low0, high0;
    mid := (low + high) / 2;
    steps := steps0 + [BinaryStep(input, CheckMid, [mid], low, high, mid, false, target)];
    found := input[mid] == target;
    if found {
    } else if input[mid] < target {
      NarrowRight(input, target, low, high, mid);
      low := mid + 1;
      steps := steps + [BinaryStep(input, SearchRight, [], low, high, mid, false, target)];
    } else {
      NarrowLeft(input, target, low, high, mid);
      high := mid - 1;
      steps := steps + [BinaryStep(input, SearchLeft, [], low, high, mid, false, target)];
    }
  }

  /** The closing step: success at mid, or failure with mid reset to -1. */
  method Conclude(input: seq<int>, target: int, steps0: seq<Step>, low: int, high: int, mid: int, found: bool)
    returns (steps: seq<Step>)
    requires found ==> 0 <= mid < |input| && input[mid] == target
    requires !found ==> high < low && WindowHolds(input, target, low, high)
    requires |steps0| > 0 && BinaryTrace(steps0, input, target) && ProbesInWindow(steps0, |input|) && NoneFound(steps0)
    ensures |steps| == |steps0| + 1 && steps[..|steps0|] == steps0
    ensures BinaryTrace(steps, input, target) && ProbesInWindow(steps, |input|)
    ensures Last(steps).found ==>
      Last(steps).action == Success && 0 <= Last(steps).mid < |input| &&
      input[Last(steps).mid] == target && Last(steps).highlight == [Last(steps).mid]
    ensures !Last(steps).found ==>
      Last(steps).action == Failure && Last(steps).mid == -1 &&
      Last(steps).low > Last(steps).high && Last(steps).highlight == []
    ensures Sorted(input) ==> (Last(steps).found <==> target in input)
  {
    if found {
      steps := steps0 + [BinaryStep(input, Success, [mid], low, high, mid, true, target)];
    } else {
      WindowEmpty(input, target, low, high);
      steps := steps0 + [BinaryStep(input, Failure, [], low, high, -1, false, target)];
    }
  }

  /** A probe below the target moves the window right of it. */
  lemma NarrowRight(input: seq<int>, target: int, low: int, high: int, mid: int)
    requires 0 <= low <= mid <= high < |input| && input[mid] < target
    requires WindowHolds(input, target, low, high)
    ensures WindowHolds(input, target, mid + 1, high)
  {
  }

  /** A probe above the target moves the window left of it. */
  lemma NarrowLeft(input: seq<int>, target: int, low: int, high: int, mid: int)
    requires 0 <= low <= mid <= high < |input| && target < input[mid]
    requires WindowHolds(input, target, low, high)
    ensures WindowHolds(input, target, low, mid - 1)
  {
  }

  /** Once the window is empty a sorted array cannot hold the target. */
  lemma WindowEmpty(input: seq<int>, target: int, low: int, high: int)
    requires high < low && WindowHolds(input, target, low, high)
    ensures Sorted(input) ==> target !in input
  {
    if Sorted(input) {
      forall k | 0 <= k < |input| ensures input[k] != target {
        assert k < low || high < k;
      }
    }
  }
}
