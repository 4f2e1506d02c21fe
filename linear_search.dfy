/** The linear search step generator (`getLinearSearchSteps`): a comparison
    step per visited index, a mismatch step after each one that does not
    match, and a closing success or failure step. */
module LinearSearch {
  import opened Steps

  /** The trace after m mismatches: the start step, then for each k < m the
      comparison of index k and its mismatch step. */
  function Visited(input: seq<int>, target: int, m: nat): (r: seq<Step>)
    ensures |r| == 2 * m + 1
  {
    if m == 0 then [LinearStep(input, SearchStarted, [], -1, false, target)]
    else Visited(input, target, m - 1) + [LinearStep(input, Compare, [m - 1], m - 1, false, target),
                                          LinearStep(input, NoMatch, [], m - 1, false, target)]
  }

  /** Every step shows the unchanged input and the same target, and only its
      last step may report the target found. */
  ghost predicate LinearTrace(steps: seq<Step>, input: seq<int>, target: int) {
    |steps| > 0 &&
    (forall k :: 0 <= k < |steps| ==>
       steps[k].LinearStep? && steps[k].values == input && steps[k].target == target) &&
    (forall k :: 0 <= k < |steps| - 1 ==> !steps[k].found)
  }

  method LinearSearchSteps(input: seq<int>, target: int) returns (steps: seq<Step>)
    ensures LinearTrace(steps, input, target)
    ensures Last(steps).found <==> target in input
    ensures Last(steps).found ==>
      var k := Last(steps).current;
      0 <= k < |input| && input[k] == target && (forall p :: 0 <= p < k ==> input[p] != target) &&
      |steps| == 2 * k + 3 && Last(steps) == LinearStep(input, Success, [k], k, true, target)
    ensures !Last(steps).found ==>
      |steps| == 2 * |input| + 2 && Last(steps) == LinearStep(input, Failure, [], |input| - 1, false, target)
  {
    var n := |input|;
    steps := [LinearStep(input, SearchStarted, [], -1, false, target)];
    var found, foundIndex := false, -1;
    var i := 0;
    while i < n
      invariant 0 <= i <= n && steps == Visited(input, target, i)
      invariant forall k :: 0 <= k < i ==> input[k] != target
    {
      steps := steps + [LinearStep(input, Compare, [i], i, false, target)];
      if input[i] == target {
        found, foundIndex := true, i;
        break;
      }
      steps := steps + [LinearStep(input, NoMatch, [], i, false, target)];
      i := i + 1;
    }
    VisitedSteps(input, target, i);
    if found {
      steps := steps + [LinearStep(input, Success, [foundIndex], foundIndex, true, target)];
      Closed(Visited(input, target, i) + [LinearStep(input, Compare, [i], i, false, target)], input, target, Last(steps));
    } else {
      steps := steps + [LinearStep(input, Failure, [], n - 1, false, target)];
      Closed(Visited(input, target, i), input, target, Last(steps));
    }
  }

  /** Every visited step shows the input and the target and reports nothing
      found. */
  lemma {:induction false} VisitedSteps(input: seq<int>, target: int, m: nat)
    ensures forall k :: 0 <= k < |Visited(input, target, m)| ==>
      var st := Visited(input, target, m)[k];
      st.LinearStep? && st.values == input && st.target == target && !st.found
  {
    if m > 0 {
      VisitedSteps(input, target, m - 1);
      var prev := Visited(input, target, m - 1);
      var cur := Visited(input, target, m);
      forall k | 0 <= k < |cur|
        ensures cur[k].LinearStep? && cur[k].values == input && cur[k].target == target && !cur[k].found
      {
        if k < |prev| {
          assert cur[k] == prev[k];
        }
      }
    }
  }

  /** Appending the closing step to a trace of unfound steps. */
  lemma Closed(init: seq<Step>, input: seq<int>, target: int, last: Step)
    requires forall k :: 0 <= k < |init| ==>
      init[k].LinearStep? && init[k].values == input && init[k].target == target && !init[k].found
    requires last.LinearStep? && last.values == input && last.target == target
    ensures LinearTrace(init + [last], input, target)
  {
    var steps := init + [last];
    forall k | 0 <= k < |steps| ensures steps[k].LinearStep? && steps[k].values == input && steps[k].target == target {
      if k < |init| {
        assert steps[k] == init[k];
      }
    }
    forall k | 0 <= k < |steps| - 1 ensures !steps[k].found {
      assert steps[k] == init[k];
    }
  }
}
