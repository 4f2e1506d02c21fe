/** The merge sort step generator (`getMergeSortSteps`).

    `merge` slices its two runs from its parameter `arr`, and every call
    passes the untouched copy of the input there, while the merged output
    is written into a copy of the displayed array. So each merge combines
    runs of the ORIGINAL input, and the final array is the merge of the
    input's two unsorted halves. MergeSortSteps models this as written;
    MergeSortStepsFixed passes the displayed array instead and sorts. */
module MergeSort {
  import opened Steps
  import opened Sorting

  /** Which run the next merged element comes from, once i elements of
      left and j of right are placed: the left one on ties
      (`left[i] <= right[j]`), and whichever run is not exhausted. */
  predicate TakesLeft(left: seq<int>, right: seq<int>, i: int, j: int)
    requires 0 <= i <= |left| && 0 <= j <= |right|
  {
    j == |right| || (i < |left| && left[i] <= right[j])
  }

  /** The stable merge of left[i..] with right[j..]. */
  function MergeTail(left: seq<int>, right: seq<int>, i: int, j: int): (m: seq<int>)
    requires 0 <= i <= |left| && 0 <= j <= |right|
    ensures |m| == |left| - i + |right| - j
    decreases |left| - i + |right| - j
  {
    if i == |left| && j == |right| then []
    else if TakesLeft(left, right, i, j) then [left[i]] + MergeTail(left, right, i + 1, j)
    else [right[j]] + MergeTail(left, right, i, j + 1)
  }

  /** The stable merge of two whole runs. */
  function MergeRuns(left: seq<int>, right: seq<int>): (m: seq<int>)
    ensures |m| == |left| + |right|
  {
    MergeTail(left, right, 0, 0)
  }

  /** A merge holds exactly the elements of its two runs. */
  lemma {:induction false} MergeTailElements(left: seq<int>, right: seq<int>, i: int, j: int)
    requires 0 <= i <= |left| && 0 <= j <= |right|
    ensures multiset(MergeTail(left, right, i, j)) == multiset(left[i..]) + multiset(right[j..])
    decreases |left| - i + |right| - j
  {
    if i == |left| && j == |right| {
    } else if TakesLeft(left, right, i, j) {
      MergeTailElements(left, right, i + 1, j);
      TakeHead(left, i);
      ConsElements(left[i], MergeTail(left, right, i + 1, j));
    } else {
      MergeTailElements(left, right, i, j + 1);
      TakeHead(right, j);
      ConsElements(right[j], MergeTail(left, right, i, j + 1));
    }
  }

  lemma ConsElements(h: int, t: seq<int>)
    ensures multiset([h] + t) == multiset{h} + multiset(t)
  {
  }

  /** s[i..] is s[i] followed by s[i + 1..]. */
  lemma TakeHead(s: seq<int>, i: int)
    requires 0 <= i < |s|
    ensures s[i..] == [s[i]] + s[i + 1..]
    ensures multiset(s[i..]) == multiset{s[i]} + multiset(s[i + 1..])
  {
    assert s[i..] == [s[i]] + s[i + 1..];
  }

  lemma MergeRunsElements(left: seq<int>, right: seq<int>)
    ensures multiset(MergeRuns(left, right)) == multiset(left) + multiset(right)
  {
    MergeTailElements(left, right, 0, 0);
    assert left[0..] == left && right[0..] == right;
  }

  /** A merge is sorted exactly when both remaining runs are. */
  lemma {:induction false} MergeTailSorted(left: seq<int>, right: seq<int>, i: int, j: int)
    requires 0 <= i <= |left| && 0 <= j <= |right|
    ensures Sorted(MergeTail(left, right, i, j)) <==> Sorted(left[i..]) && Sorted(right[j..])
    decreases |left| - i + |right| - j
  {
    if i == |left| && j == |right| {
    } else if TakesLeft(left, right, i, j) {
      MergeTailSorted(left, right, i + 1, j);
      MergeTailElements(left, right, i + 1, j);
      TakeHead(left, i);
      ConsMerge(left[i], left[i + 1..], right[j..], MergeTail(left, right, i + 1, j));
    } else {
      MergeTailSorted(left, right, i, j + 1);
      MergeTailElements(left, right, i, j + 1);
      TakeHead(right, j);
      ConsMerge(right[j], right[j + 1..], left[i..], MergeTail(left, right, i, j + 1));
    }
  }

  /** The merge of two runs is sorted exactly when both runs are. */
  lemma MergeRunsSorted(left: seq<int>, right: seq<int>)
    ensures Sorted(MergeRuns(left, right)) <==> Sorted(left) && Sorted(right)
  {
    MergeTailSorted(left, right, 0, 0);
    assert left[0..] == left && right[0..] == right;
  }

  /** One step of the induction: t merges x with o, and h is at most o's
      head; then h followed by t is sorted exactly when h followed by x is,
      and o is. */
  lemma ConsMerge(h: int, x: seq<int>, o: seq<int>, t: seq<int>)
    requires o == [] || h <= o[0]
    requires multiset(t) == multiset(x) + multiset(o)
    requires Sorted(t) <==> Sorted(x) && Sorted(o)
    ensures Sorted([h] + t) <==> Sorted([h] + x) && Sorted(o)
  {
    if Sorted([h] + x) && Sorted(o) {
      ConsParts(h, x);
      forall e <- t ensures h <= e {
        assert e in multiset(t);
        if e in multiset(o) {
          HeadIsLeast(o, e);
        } else {
          assert e in multiset(x);
          assert e in x;
        }
      }
      SortedCons(h, t);
    }
    if Sorted([h] + t) {
      ConsParts(h, t);
      forall e <- x ensures h <= e {
        assert e in multiset(x);
        assert e in multiset(t);
        assert e in t;
      }
      SortedCons(h, x);
    }
  }

  lemma ConsParts(h: int, t: seq<int>)
    requires Sorted([h] + t)
    ensures Sorted(t)
    ensures forall e <- t :: h <= e
  {
    var s := [h] + t;
    assert forall k :: 0 <= k < |t| ==> t[k] == s[k + 1];
    forall e <- t ensures h <= e {
      var k :| 0 <= k < |t| && t[k] == e;
      assert s[0] <= s[k + 1];
    }
  }

  // ---- the recorded steps ----

  predicate IsPlacement(a: Action) {
    a.Place? || a.PlaceRemainingLeft? || a.PlaceRemainingRight?
  }

  /** A step either shows the previous array unchanged, or is a placement
      step highlighting one index k whose array differs from the previous
      one at most at k. */
  ghost predicate Local(prev: seq<int>, st: Step) {
    st.values == prev
    || (st.SortStep? && IsPlacement(st.action) && |st.highlight| == 1
        && 0 <= st.highlight[0] < |prev| == |st.values|
        && st.values == prev[st.highlight[0] := st.values[st.highlight[0]]])
  }

  /** The first step shows the input, and every later one is Local with
      respect to the one before it. */
  ghost predicate Evolves(steps: seq<Step>, input: seq<int>)
    decreases |steps|
  {
    steps == []
    || (Evolves(steps[..|steps| - 1], input)
        && if |steps| == 1 then Last(steps).values == input else Local(steps[|steps| - 2].values, Last(steps)))
  }

  /** w is the array on display: the last step's, or the input before any. */
  ghost predicate Shows(steps: seq<Step>, input: seq<int>, w: seq<int>) {
    (if steps == [] then input else Last(steps).values) == w
  }

  ghost predicate MergeTraceOf(steps: seq<Step>, input: seq<int>, w: seq<int>) {
    SortTraceOf(steps, input, false, {}) && Evolves(steps, input) && Shows(steps, input, w)
  }

  lemma EvolvesAppend(steps: seq<Step>, input: seq<int>, w: seq<int>, st: Step)
    requires Evolves(steps, input) && Shows(steps, input, w) && Local(w, st)
    requires steps == [] ==> st.values == w
    ensures Evolves(steps + [st], input) && Shows(steps + [st], input, st.values)
  {
    assert (steps + [st])[..|steps|] == steps;
  }

  lemma RecordMergeStep(steps: seq<Step>, input: seq<int>, w: seq<int>, st: Step)
    requires MergeTraceOf(steps, input, w)
    requires st.SortStep? && st.sorted == {} && |st.values| == |input| && InBounds(st.highlight, |input|)
    requires Local(w, st) && (steps == [] ==> st.values == w)
    ensures MergeTraceOf(steps + [st], input, st.values)
  {
    RecordSortStep(steps, input, false, {}, st);
    EvolvesAppend(steps, input, w, st);
  }

  lemma {:induction false} EvolvesTrace(steps: seq<Step>, input: seq<int>)
    requires Evolves(steps, input)
    ensures |steps| > 0 ==> steps[0].values == input
    ensures forall k :: 0 < k < |steps| ==> Local(steps[k - 1].values, steps[k])
    decreases |steps|
  {
    if steps != [] {
      var init := steps[..|steps| - 1];
      EvolvesTrace(init, input);
      assert steps == init + [Last(steps)];
    }
  }

  // ---- merge ----

  /** The merge loops' invariant: the first i elements of left and the
      first j of right have been merged into w[start..start + i + j], and
      merging the rest completes the whole merge. */
  ghost predicate Merging(w: seq<int>, start: int, left: seq<int>, right: seq<int>, i: int, j: int) {
    0 <= start && 0 <= i <= |left| && 0 <= j <= |right| && start + i + j <= |w|
    && w[start..start + i + j] + MergeTail(left, right, i, j) == MergeRuns(left, right)
  }

  lemma MergingStarts(w: seq<int>, start: int, left: seq<int>, right: seq<int>)
    requires 0 <= start <= |w|
    ensures Merging(w, start, left, right, 0, 0)
  {
    assert w[start..start] == [];
  }

  lemma MergingEnds(w: seq<int>, start: int, left: seq<int>, right: seq<int>)
    requires Merging(w, start, left, right, |left|, |right|)
    ensures w[start..start + |left| + |right|] == MergeRuns(left, right)
  {
  }

  /** Placing the next merged element keeps the invariant, and changes w
      only inside [start, end). */
  lemma Advance(w: seq<int>, w0: seq<int>, start: int, end: int, left: seq<int>, right: seq<int>, i: int, j: int)
    requires Merging(w, start, left, right, i, j) && SameOutside(w, w0, start, end)
    requires end == start + |left| + |right| <= |w| && (i < |left| || j < |right|)
    ensures TakesLeft(left, right, i, j) ==>
              && i < |left|
              && Merging(w[start + i + j := left[i]], start, left, right, i + 1, j)
              && SameOutside(w[start + i + j := left[i]], w0, start, end)
    ensures !TakesLeft(left, right, i, j) ==>
              && j < |right|
              && Merging(w[start + i + j := right[j]], start, left, right, i, j + 1)
              && SameOutside(w[start + i + j := right[j]], w0, start, end)
  {
    if TakesLeft(left, right, i, j) {
      PlaceKeepsMerging(w, w0, start, end, left, right, i, j, i + 1, j, left[i]);
    } else {
      PlaceKeepsMerging(w, w0, start, end, left, right, i, j, i, j + 1, right[j]);
    }
  }

  /** Writing x, the head of the rest of the merge, at the next position. */
  lemma PlaceKeepsMerging(w: seq<int>, w0: seq<int>, start: int, end: int, left: seq<int>, right: seq<int>,
                          i: int, j: int, i': int, j': int, x: int)
    requires Merging(w, start, left, right, i, j) && SameOutside(w, w0, start, end)
    requires end == start + |left| + |right| <= |w|
    requires 0 <= i' <= |left| && 0 <= j' <= |right| && i' + j' == i + j + 1
    requires MergeTail(left, right, i, j) == [x] + MergeTail(left, right, i', j')
    ensures Merging(w[start + i + j := x], start, left, right, i', j')
    ensures SameOutside(w[start + i + j := x], w0, start, end)
  {
    var k := start + i + j;
    ExtendSlice(w, start, k, x);
    SameOutsideUpdate(w, w0, start, end, k, x);
  }

  /** Writing x at k extends the slice [start, k) by x. */
  lemma ExtendSlice(w: seq<int>, start: int, k: int, x: int)
    requires 0 <= start <= k < |w|
    ensures w[k := x][start..k + 1] == w[start..k] + [x]
  {
  }

  /** A write inside [start, end) keeps everything outside it. */
  lemma SameOutsideUpdate(w: seq<int>, w0: seq<int>, start: int, end: int, k: int, x: int)
    requires SameOutside(w, w0, start, end) && 0 <= start <= k < end && k < |w|
    ensures SameOutside(w[k := x], w0, start, end)
  {
  }

  /** `merge(arr, start, mid, end)`: merges arr[start..mid] with
      arr[mid..end] into a copy of the displayed array w0. */
  method Merge(input: seq<int>, arr: seq<int>, w0: seq<int>, steps0: seq<Step>, start: int, mid: int, end: int)
    returns (w: seq<int>, steps: seq<Step>)
    requires 0 <= start < mid < end <= |input| == |arr| == |w0|
    requires MergeTraceOf(steps0, input, w0)
    ensures SameOutside(w, w0, start, end)
    ensures w[start..end] == MergeRuns(arr[start..mid], arr[mid..end])
    ensures MergeTraceOf(steps, input, w)
  {
    var left := arr[start..mid];
    var right := arr[mid..end];
    steps := steps0;
    RecordMergeStep(steps, input, w0, SortStep(w0, PrepareMerge, Interval(start, end), {}, None, None));
    steps := steps + [SortStep(w0, PrepareMerge, Interval(start, end), {}, None, None)];
    var i, j;
    w, steps, i, j := MergeBoth(input, left, right, start, mid, end, w0, steps);
    w, steps, i := MergeRestLeft(input, left, right, start, end, w0, w, steps, i, j);
    w, steps := MergeRestRight(input, left, right, start, end, w0, w, steps, i, j);
    assert start + |left| + |right| == end;
    MergingEnds(w, start, left, right);
    RecordMergeStep(steps, input, w, SortStep(w, MergedSegment, Interval(start, end), {}, None, None));
    steps := steps + [SortStep(w, MergedSegment, Interval(start, end), {}, None, None)];
  }

  /** The first loop: while both runs have elements, the comparison step and
      the placement of the smaller head (the left one on ties). */
  method MergeBoth(input: seq<int>, left: seq<int>, right: seq<int>, start: int, mid: int, end: int, w0: seq<int>, steps0: seq<Step>)
    returns (w: seq<int>, steps: seq<Step>, i: int, j: int)
    requires 0 <= start && mid == start + |left| && end == mid + |right| <= |input| == |w0|
    requires MergeTraceOf(steps0, input, w0) && |steps0| > 0
    ensures Merging(w, start, left, right, i, j) && (i == |left| || j == |right|)
    ensures SameOutside(w, w0, start, end)
    ensures MergeTraceOf(steps, input, w) && |steps| > 0
  {
    w, steps, i, j := w0, steps0, 0, 0;
    MergingStarts(w, start, left, right);
    while i < |left| && j < |right|
      invariant Merging(w, start, left, right, i, j)
      invariant SameOutside(w, w0, start, end)
      invariant MergeTraceOf(steps, input, w) && |steps| > 0
      decreases |left| - i + |right| - j
    {
      steps := RecordCompare(input, w, steps, start + i, mid + j);
      steps := RecordPlacement(input, w, steps, start + i + j, NextMerged(left, right, i, j), Place);
      w, i, j := PlaceNext(left, right, start, end, w0, w, i, j);
    }
  }

  method RecordCompare(input: seq<int>, w: seq<int>, steps0: seq<Step>, p: int, q: int) returns (steps: seq<Step>)
    requires 0 <= p < |input| && 0 <= q < |input| && |w| == |input|
    requires MergeTraceOf(steps0, input, w)
    ensures MergeTraceOf(steps, input, w) && |steps| > 0
  {
    RecordMergeStep(steps0, input, w, SortStep(w, Compare, [p, q], {}, None, None));
    steps := steps0 + [SortStep(w, Compare, [p, q], {}, None, None)];
  }

  /** Places the next merged element at start + i + j: the head of the left
      run when it is taken (TakesLeft), otherwise the head of the right run. */
  method PlaceNext(left: seq<int>, right: seq<int>, start: int, end: int, w0: seq<int>, w1: seq<int>, i0: int, j0: int)
    returns (w: seq<int>, i: int, j: int)
    requires end == start + |left| + |right| <= |w0|
    requires Merging(w1, start, left, right, i0, j0) && (i0 < |left| || j0 < |right|)
    requires SameOutside(w1, w0, start, end)
    ensures w == w1[start + i0 + j0 := NextMerged(left, right, i0, j0)]
    ensures TakesLeft(left, right, i0, j0) ==> i == i0 + 1 && j == j0
    ensures !TakesLeft(left, right, i0, j0) ==> i == i0 && j == j0 + 1
    ensures Merging(w, start, left, right, i, j)
    ensures SameOutside(w, w0, start, end)
  {
    Advance(w1, w0, start, end, left, right, i0, j0);
    if TakesLeft(left, right, i0, j0) {
      w := w1[start + i0 + j0 := left[i0]];
      i, j := i0 + 1, j0;
    } else {
      w := w1[start + i0 + j0 := right[j0]];
      i, j := i0, j0 + 1;
    }
  }

  /** The element merged next. */
  function NextMerged(left: seq<int>, right: seq<int>, i: int, j: int): int
    requires 0 <= i <= |left| && 0 <= j <= |right| && (i < |left| || j < |right|)
  {
    if TakesLeft(left, right, i, j) then left[i] else right[j]
  }

  /** The step showing w0[k] := v. */
  method RecordPlacement(input: seq<int>, w0: seq<int>, steps0: seq<Step>, k: int, v: int, action: Action)
    returns (steps: seq<Step>)
    requires 0 <= k < |w0| == |input| && IsPlacement(action)
    requires MergeTraceOf(steps0, input, w0) && |steps0| > 0
    ensures MergeTraceOf(steps, input, w0[k := v]) && |steps| > 0
  {
    var w := w0[k := v];
    RecordMergeStep(steps0, input, w0, SortStep(w, action, [k], {}, None, None));
    steps := steps0 + [SortStep(w, action, [k], {}, None, None)];
  }

  /** The second loop: the rest of the left run. */
  method MergeRestLeft(input: seq<int>, left: seq<int>, right: seq<int>, start: int, end: int, w0: seq<int>, w1: seq<int>, steps0: seq<Step>, i0: int, j: int)
    returns (w: seq<int>, steps: seq<Step>, i: int)
    requires end == start + |left| + |right| <= |input| == |w0|
    requires Merging(w1, start, left, right, i0, j) && (i0 == |left| || j == |right|)
    requires SameOutside(w1, w0, start, end)
    requires MergeTraceOf(steps0, input, w1) && |steps0| > 0
    ensures Merging(w, start, left, right, i, j) && i == |left|
    ensures SameOutside(w, w0, start, end)
    ensures MergeTraceOf(steps, input, w) && |steps| > 0
  {
    w, steps, i := w1, steps0, i0;
    while i < |left|
      invariant Merging(w, start, left, right, i, j) && (i == |left| || j == |right|)
      invariant SameOutside(w, w0, start, end)
      invariant MergeTraceOf(steps, input, w) && |steps| > 0
    {
      steps := RecordPlacement(input, w, steps, start + i + j, NextMerged(left, right, i, j), PlaceRemainingLeft);
      var j';
      w, i, j' := PlaceNext(left, right, start, end, w0, w, i, j);
    }
  }

  /** The third loop: the rest of the right run. */
  method MergeRestRight(input: seq<int>, left: seq<int>, right: seq<int>, start: int, end: int, w0: seq<int>, w1: seq<int>, steps0: seq<Step>, i: int, j0: int)
    returns (w: seq<int>, steps: seq<Step>)
    requires end == start + |left| + |right| <= |input| == |w0|
    requires Merging(w1, start, left, right, i, j0) && i == |left|
    requires SameOutside(w1, w0, start, end)
    requires MergeTraceOf(steps0, input, w1) && |steps0| > 0
    ensures Merging(w, start, left, right, i, |right|)
    ensures SameOutside(w, w0, start, end)
    ensures MergeTraceOf(steps, input, w) && |steps| > 0
  {
    w, steps := w1, steps0;
    var j := j0;
    while j < |right|
      invariant Merging(w, start, left, right, i, j)
      invariant SameOutside(w, w0, start, end)
      invariant MergeTraceOf(steps, input, w) && |steps| > 0
      decreases |right| - j
    {
      steps := RecordPlacement(input, w, steps, start + i + j, NextMerged(left, right, i, j), PlaceRemainingRight);
      var i';
      w, i', j := PlaceNext(left, right, start, end, w0, w, i, j);
    }
  }

  // ---- the recursion and the generator ----

  /** `mergeSortHelper(arr, start, end)`: segments of length two or more are
      announced, split at the midpoint, sorted recursively and merged (from
      arr). */
  method MergeSortRange(input: seq<int>, arr: seq<int>, w0: seq<int>, steps0: seq<Step>, start: int, end: int)
    returns (w: seq<int>, steps: seq<Step>)
    requires 0 <= start <= end <= |input| == |arr| == |w0|
    requires MergeTraceOf(steps0, input, w0)
    ensures SameOutside(w, w0, start, end)
    ensures end - start < 2 ==> w == w0 && steps == steps0
    ensures end - start >= 2 ==>
      w[start..end] == MergeRuns(arr[start..(start + end) / 2], arr[(start + end) / 2..end])
    ensures MergeTraceOf(steps, input, w)
    decreases end - start
  {
    if end - start <= 1 {
      return w0, steps0;
    }
    RecordMergeStep(steps0, input, w0, SortStep(w0, Split, Interval(start, end), {}, None, None));
    steps := steps0 + [SortStep(w0, Split, Interval(start, end), {}, None, None)];
    var mid := (start + end) / 2;
    var w1, w2;
    w1, steps := MergeSortRange(input, arr, w0, steps, start, mid);
    w2, steps := MergeSortRange(input, arr, w1, steps, mid, end);
    w, steps := Merge(input, arr, w2, steps, start, mid, end);
    SameOutsideWider(w2, w1, w0, mid, end, start, mid, start, end);
    SameOutsideWider(w, w2, w0, start, end, start, end, start, end);
  }

  /** The generator as written: every merge reads the original input. The
      final array is the merge of the input's two halves, which is sorted
      exactly when both halves already are. */
  method MergeSortSteps(input: seq<int>) returns (steps: seq<Step>)
    ensures |steps| > 0 && SortTrace(steps, |input|) && SortedGrows(steps)
    ensures Last(steps).action == Finished && Last(steps).sorted == AllIndices(|input|)
    ensures steps[0].values == input
    ensures forall k :: 0 < k < |steps| ==> Local(steps[k - 1].values, steps[k])
    ensures |input| < 2 ==> Last(steps).values == input
    ensures |input| >= 2 ==>
      Last(steps).values == MergeRuns(input[..|input| / 2], input[|input| / 2..])
    ensures |input| >= 2 ==>
      (Sorted(Last(steps).values) <==> Sorted(input[..|input| / 2]) && Sorted(input[|input| / 2..]))
  {
    var n := |input|;
    var w;
    w, steps := MergeSortRange(input, input, input, [], 0, n);
    steps := FinishMergeTrace(input, w, steps);
    if n >= 2 {
      assert w[0..n] == w && input[0..n / 2] == input[..n / 2] && input[n / 2..n] == input[n / 2..];
      MergeRunsSorted(input[..n / 2], input[n / 2..]);
    }
  }

  /** The finished step, showing the last array with every index sorted. */
  method FinishMergeTrace(input: seq<int>, w: seq<int>, steps0: seq<Step>) returns (steps: seq<Step>)
    requires |w| == |input| && MergeTraceOf(steps0, input, w)
    ensures |steps| > 0 && SortTrace(steps, |input|) && SortedGrows(steps)
    ensures Last(steps) == SortStep(w, Finished, [], AllIndices(|input|), None, None)
    ensures steps[0].values == input
    ensures forall k :: 0 < k < |steps| ==> Local(steps[k - 1].values, steps[k])
  {
    var st := SortStep(w, Finished, [], AllIndices(|input|), None, None);
    RecordSortStep(steps0, input, false, {}, st);
    EvolvesAppend(steps0, input, w, st);
    steps := steps0 + [st];
    RecordedTrace(steps, input, false);
    EvolvesTrace(steps, input);
  }

  /** MergeSortRange with the evident intent: each merge reads the array as
      left by the recursive calls. The segment ends sorted and holds the
      same elements. */
  method MergeSortRangeFixed(input: seq<int>, w0: seq<int>, steps0: seq<Step>, start: int, end: int)
    returns (w: seq<int>, steps: seq<Step>)
    requires 0 <= start <= end <= |input| == |w0|
    requires MergeTraceOf(steps0, input, w0)
    ensures SameOutside(w, w0, start, end)
    ensures Sorted(w[start..end]) && multiset(w[start..end]) == multiset(w0[start..end])
    ensures MergeTraceOf(steps, input, w)
    decreases end - start
  {
    if end - start <= 1 {
      return w0, steps0;
    }
    RecordMergeStep(steps0, input, w0, SortStep(w0, Split, Interval(start, end), {}, None, None));
    steps := steps0 + [SortStep(w0, Split, Interval(start, end), {}, None, None)];
    var mid := (start + end) / 2;
    var w1, w2;
    w1, steps := MergeSortRangeFixed(input, w0, steps, start, mid);
    w2, steps := MergeSortRangeFixed(input, w1, steps, mid, end);
    w, steps := Merge(input, w2, w2, steps, start, mid, end);
    SameOutsideWider(w2, w1, w0, mid, end, start, mid, start, end);
    SameOutsideWider(w, w2, w0, start, end, start, end, start, end);
    MergedHalves(w0, w1, w2, w, start, mid, end);
  }

  /** The correctness argument for one level of the fixed recursion. */
  lemma MergedHalves(w0: seq<int>, w1: seq<int>, w2: seq<int>, w: seq<int>, start: int, mid: int, end: int)
    requires 0 <= start < mid < end <= |w0| == |w|
    requires SameOutside(w1, w0, start, mid) && SameOutside(w2, w1, mid, end)
    requires Sorted(w1[start..mid]) && multiset(w1[start..mid]) == multiset(w0[start..mid])
    requires Sorted(w2[mid..end]) && multiset(w2[mid..end]) == multiset(w1[mid..end])
    requires w[start..end] == MergeRuns(w2[start..mid], w2[mid..end])
    ensures Sorted(w[start..end]) && multiset(w[start..end]) == multiset(w0[start..end])
  {
    assert w2[start..mid] == w1[start..mid];
    assert w1[mid..end] == w0[mid..end];
    MergeRunsSorted(w2[start..mid], w2[mid..end]);
    MergeRunsElements(w2[start..mid], w2[mid..end]);
    assert w0[start..end] == w0[start..mid] + w0[mid..end];
  }

  /** The corrected generator: same steps structure, and the final array is
      the input sorted ascending. */
  method MergeSortStepsFixed(input: seq<int>) returns (steps: seq<Step>)
    ensures |steps| > 0 && SortTrace(steps, |input|) && SortedGrows(steps)
    ensures Last(steps).action == Finished && Last(steps).sorted == AllIndices(|input|)
    ensures steps[0].values == input
    ensures forall k :: 0 < k < |steps| ==> Local(steps[k - 1].values, steps[k])
    ensures Last(steps).values == SortAscending(input)
  {
    var n := |input|;
    var w;
    w, steps := MergeSortRangeFixed(input, input, [], 0, n);
    assert w[0..n] == w && input[0..n] == input;
    steps := FinishMergeTrace(input, w, steps);
    SortedPermutationUnique(w, SortAscending(input));
  }

  /** The smallest input showing the stale reads: [4, 3, 2, 1] ends as
      [2, 1, 4, 3], not sorted. */
  lemma StaleMergeExample()
    ensures MergeRuns([4, 3], [2, 1]) == [2, 1, 4, 3]
    ensures !Sorted([2, 1, 4, 3])
  {
    assert [2, 1, 4, 3][0] > [2, 1, 4, 3][1];
  }
}
