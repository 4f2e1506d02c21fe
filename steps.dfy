/** The step record every generator appends to its trace, and the predicates
    that describe a whole trace. */
module Steps {

  datatype Option<T> = None | Some(value: T)

  /** The human-readable `action` text of a step, kept as an abstract tag.
      Only the pivot-placement tag keeps a number: the contract of one
      partition call states which value it placed. */
  datatype Action =
    // shared by several sorts
    | Compare | Swap | ResetHighlights | Finalized | FinalElementSorted | Finished
    // merge sort
    | Split | PrepareMerge | Place | PlaceRemainingLeft | PlaceRemainingRight | MergedSegment
    // quick sort
    | SelectPivot | PivotPlaced(pivot: int) | SingletonSorted
    // shell sort and selection sort
    | StartPass | SelectElement | Shift | PlaceSelected | NewMinimum | AlreadySmallest
    // searches
    | SearchStarted | CheckMid | SearchRight | SearchLeft | NoMatch | Success | Failure

  /** One snapshot of the visualisation. The three shapes follow the keys the
      records of the sort generators, of binary search and of linear search
      carry; a key a record carries with the value `null` is `None`. */
  datatype Step =
    | SortStep(values: seq<int>, action: Action, highlight: seq<int>, sorted: set<int>,
               pivot: Option<int>, gap: Option<int>)
    | BinaryStep(values: seq<int>, action: Action, highlight: seq<int>,
                 low: int, high: int, mid: int, found: bool, target: int)
    | LinearStep(values: seq<int>, action: Action, highlight: seq<int>,
                 current: int, found: bool, target: int)

  function Last(steps: seq<Step>): Step
    requires |steps| > 0
  {
    steps[|steps| - 1]
  }

  /** The indices lo, lo + 1, ..., hi - 1 (`Array.from({length: hi - lo}, ...)`). */
  function Interval(lo: int, hi: int): (r: seq<int>)
    requires lo <= hi
    ensures |r| == hi - lo
    ensures forall k :: 0 <= k < |r| ==> r[k] == lo + k
    decreases hi - lo
  {
    if lo == hi then [] else [lo] + Interval(lo + 1, hi)
  }

  /** Every index of an array of length n: the sorted indices of the closing
      step of every sort trace. */
  function AllIndices(n: int): (r: set<int>)
    ensures forall x :: x in r <==> 0 <= x < n
  {
    if n <= 0 then {} else AllIndices(n - 1) + {n - 1}
  }

  ghost predicate InBounds(xs: seq<int>, n: int) {
    forall x <- xs :: 0 <= x < n
  }

  ghost predicate IndicesBelow(xs: set<int>, n: int) {
    forall x <- xs :: 0 <= x < n
  }

  /** Every step is a sort step over an array of length n, and its highlighted
      and sorted indices lie in [0, n). */
  ghost predicate SortTrace(steps: seq<Step>, n: nat) {
    forall st <- steps ::
      st.SortStep? && |st.values| == n && InBounds(st.highlight, n) && IndicesBelow(st.sorted, n)
  }

  /** Every snapshot is a permutation of the input. */
  ghost predicate Permutations(steps: seq<Step>, input: seq<int>) {
    forall st <- steps :: multiset(st.values) == multiset(input)
  }

  /** The set of sorted indices never loses a member from one step to the next. */
  ghost predicate SortedGrows(steps: seq<Step>) {
    forall k :: 0 <= k < |steps| - 1 && steps[k].SortStep? && steps[k + 1].SortStep? ==>
      steps[k].sorted <= steps[k + 1].sorted
  }

  /** One well-formed sort step over an array of the input's length: its
      highlighted and sorted indices are in range and, when perm holds, its
      array is a permutation of the input. */
  ghost predicate SortStepFits(st: Step, input: seq<int>, perm: bool) {
    st.SortStep? && |st.values| == |input| && InBounds(st.highlight, |input|) &&
    IndicesBelow(st.sorted, |input|) && (perm ==> multiset(st.values) == multiset(input))
  }

  /** The trace as the generators build it: every step fits, and each step's
      sorted set contains the previous step's. Stated on the last step, so
      that recording one more step only looks at the step before it. */
  ghost predicate Recorded(steps: seq<Step>, input: seq<int>, perm: bool)
    decreases |steps|
  {
    steps == [] ||
    (Recorded(steps[..|steps| - 1], input, perm) && SortStepFits(Last(steps), input, perm) &&
     (|steps| > 1 ==> steps[|steps| - 2].SortStep? && steps[|steps| - 2].sorted <= Last(steps).sorted))
  }

  /** The state of a sort generator between two records: the trace so far,
      and the sorted indices it will record next, which contain the last
      recorded ones. */
  ghost predicate SortTraceOf(steps: seq<Step>, input: seq<int>, perm: bool, sorted: set<int>) {
    Recorded(steps, input, perm) && IndicesBelow(sorted, |input|) &&
    (|steps| > 0 ==> Last(steps).SortStep? && Last(steps).sorted <= sorted)
  }

  /** Recording one step (`recordStep`): the new step may mark more indices
      sorted, never fewer. */
  lemma RecordSortStep(steps: seq<Step>, input: seq<int>, perm: bool, sorted: set<int>, st: Step)
    requires SortTraceOf(steps, input, perm, sorted)
    requires st.SortStep? && sorted <= st.sorted && IndicesBelow(st.sorted, |input|)
    requires |st.values| == |input| && InBounds(st.highlight, |input|)
    requires perm ==> multiset(st.values) == multiset(input)
    ensures SortTraceOf(steps + [st], input, perm, st.sorted)
  {
    assert (steps + [st])[..|steps|] == steps;
  }

  /** What a recorded trace means for every step: the quantified properties
      the generators promise. */
  lemma {:induction false} RecordedTrace(steps: seq<Step>, input: seq<int>, perm: bool)
    requires Recorded(steps, input, perm)
    ensures SortTrace(steps, |input|) && SortedGrows(steps)
    ensures perm ==> Permutations(steps, input)
    decreases |steps|
  {
    if steps != [] {
      var init := steps[..|steps| - 1];
      RecordedTrace(init, input, perm);
      assert steps == init + [Last(steps)];
      forall k | 0 <= k < |steps| - 1 && steps[k].SortStep? && steps[k + 1].SortStep?
        ensures steps[k].sorted <= steps[k + 1].sorted
      {
        if k < |steps| - 2 {
          assert steps[k] == init[k] && steps[k + 1] == init[k + 1];
        }
      }
    }
  }
}
