/** The visualiser's player: the page state that holds the array on display,
    the chosen algorithm, the recorded steps and the cursor into them, and the
    handlers that change it. A React state update becomes a field
    assignment, an effect that re-runs becomes an explicit call, and every
    random array the page draws arrives as a parameter. */
module Player {
  import opened Steps
  import opened Sorting
  import opened CustomInput
  import BubbleSort
  import SelectionSort
  import MergeSort
  import QuickSort
  import ShellSort
  import BinarySearch
  import LinearSearch

  /** The entries of the algorithm menu. */
  datatype Algorithm =
    | Bubble | Selection | Merge | Quick | Shell
    | Linear | Binary
    | BstInsert | BstSearch

  predicate IsSort(alg: Algorithm) {
    alg in {Bubble, Selection, Merge, Quick, Shell}
  }

  predicate IsSearch(alg: Algorithm) {
    alg == Linear || alg == Binary
  }

  predicate IsTree(alg: Algorithm) {
    alg == BstInsert || alg == BstSearch
  }

  /** The target shown when the page opens. */
  const InitialTarget := 250

  /** What `generateRandomArray(size)` may return: `size` values, each between
      the minimum and the maximum bar value. */
  ghost predicate RandomArray(r: seq<int>, size: int) {
    |r| == size && forall v <- r :: MinArrayValue <= v <= MaxArrayValue
  }

  /** Every bar value lies between 1 and the maximum. */
  ghost predicate BarValues(a: seq<int>) {
    forall v <- a :: 1 <= v <= MaxArrayValue
  }

  /** A new array as the page keeps it: searches get it sorted ascending,
      every other algorithm as it came. */
  function Arranged(alg: Algorithm, a: seq<int>): (r: seq<int>)
    ensures multiset(r) == multiset(a)
    ensures IsSearch(alg) ==> Sorted(r)
    ensures !IsSearch(alg) ==> r == a
  {
    if IsSearch(alg) then SortAscending(a) else a
  }

  /** Rearranging the bars keeps their values. */
  lemma ArrangedValues(alg: Algorithm, a: seq<int>)
    requires BarValues(a)
    ensures BarValues(Arranged(alg, a)) && |Arranged(alg, a)| == |a|
  {
    var r := Arranged(alg, a);
    assert |multiset(r)| == |multiset(a)|;
    forall v | v in r ensures 1 <= v <= MaxArrayValue {
      assert v in multiset(r) && v in multiset(a);
      assert v in a;
    }
  }

  /** The array the last step of a sort shows. Bubble, selection and shell
      sort end on the ascending arrangement. Merge sort and quick sort read a
      stale copy of the input, so merge sort ends on the merge of the input's
      two halves and quick sort on the result of its last partition. */
  ghost function SortOutcome(alg: Algorithm, a: seq<int>): seq<int> {
    match alg
    case Merge => if |a| < 2 then a else MergeSort.MergeRuns(a[..|a| / 2], a[|a| / 2..])
    case Quick => QuickSort.QuickFinal(a)
    case _ => SortAscending(a)
  }

  /** What the recorded steps of a run promise, by kind of algorithm: a sort
      ends on SortOutcome with every index marked sorted, and its last array
      holds the input's elements; a search never changes the array and ends
      found exactly when the target is present. */
  ghost predicate Trace(alg: Algorithm, a: seq<int>, target: int, steps: seq<Step>) {
    |steps| > 0 &&
    (IsSort(alg) ==>
       SortTrace(steps, |a|) && Last(steps).action == Finished &&
       Last(steps).sorted == AllIndices(|a|) && Last(steps).values == SortOutcome(alg, a) &&
       multiset(Last(steps).values) == multiset(a)) &&
    (IsSearch(alg) ==>
       (Last(steps).BinaryStep? || Last(steps).LinearStep?) &&
       Last(steps).values == a && (Last(steps).found <==> target in a))
  }

  /** The dispatch of `handleExecuteAlgorithm`: the array the run works on
      (binary search sorts its copy first) and the generator's steps, or
      nothing for a menu entry without a generator. */
  method Generate(alg: Algorithm, a: seq<int>, target: int) returns (shown: seq<int>, r: Option<seq<Step>>)
    ensures shown == (if alg == Binary then SortAscending(a) else a)
    ensures r.None? <==> IsTree(alg)
    ensures r.Some? ==> Trace(alg, shown, target, r.value)
  {
    if IsSort(alg) {
      var steps := RunSort(alg, a);
      shown, r := a, Some(steps);
    } else if IsSearch(alg) {
      shown := if alg == Binary then SortAscending(a) else a;
      var steps := RunSearch(alg, shown, target);
      r := Some(steps);
    } else {
      shown, r := a, None;
    }
  }

  /** The sorting entries of the dispatch, each calling the generator as
      written: every sort ends on a rearrangement of the input, which is the
      ascending one for bubble, selection and shell sort; merge sort ends
      sorted exactly when both halves of the input were. */
  method RunSort(alg: Algorithm, a: seq<int>) returns (steps: seq<Step>)
    requires IsSort(alg)
    ensures |steps| > 0 && SortTrace(steps, |a|) && Last(steps).action == Finished
    ensures Last(steps).sorted == AllIndices(|a|) && Last(steps).values == SortOutcome(alg, a)
    ensures multiset(Last(steps).values) == multiset(a)
    ensures alg in {Bubble, Selection, Shell} ==> Last(steps).values == SortAscending(a)
    ensures alg == Merge && |a| >= 2 ==>
      (Sorted(Last(steps).values) <==> Sorted(a[..|a| / 2]) && Sorted(a[|a| / 2..]))
  {
    match alg {
      case Bubble =>
        steps := BubbleSort.BubbleSortSteps(a);
      case Merge =>
        steps := MergeSort.MergeSortSteps(a);
        if |a| >= 2 {
          MergeSort.MergeRunsElements(a[..|a| / 2], a[|a| / 2..]);
          assert a[..|a| / 2] + a[|a| / 2..] == a;
        }
      case Quick =>
        steps := QuickSort.QuickSortSteps(a);
        assert Last(steps) in steps;
      case Shell =>
        steps := ShellSort.ShellSortSteps(a);
      case Selection =>
        steps := SelectionSort.SelectionSortSteps(a);
    }
  }

  /** The searching entries of the dispatch; binary search is handed the
      array already sorted. */
  method RunSearch(alg: Algorithm, a: seq<int>, target: int) returns (steps: seq<Step>)
    requires IsSearch(alg) && (alg == Binary ==> Sorted(a))
    ensures |steps| > 0 && (Last(steps).BinaryStep? || Last(steps).LinearStep?)
    ensures Last(steps).values == a && (Last(steps).found <==> target in a)
  {
    if alg == Binary {
      steps := BinarySearch.BinarySearchSteps(a, target);
      assert Last(steps) in steps;
    } else {
      steps := LinearSearch.LinearSearchSteps(a, target);
      assert Last(steps) == steps[|steps| - 1];
    }
  }

  class Player {
    /** The array on display when no step is loaded. */
    var values: seq<int>
    var arraySize: int
    var algorithm: Algorithm
    var target: int
    /** The recorded steps of the last run; None before any run. */
    var steps: Option<seq<Step>>
    var stepIndex: int
    var isAnimating: bool

    /** The cursor always points at a recorded step, nothing plays without
        steps, and the array holds at least one bar of a legal value. */
    ghost predicate Valid()
      reads this
    {
      arraySize > 0 && |values| > 0 && BarValues(values) &&
      (steps.None? ==> stepIndex == 0 && !isAnimating) &&
      (steps.Some? ==> 0 <= stepIndex < |steps.value|)
    }

    /** `isAnimationComplete`: the cursor is on the last recorded step. */
    ghost predicate Complete()
      reads this
    {
      steps.Some? && |steps.value| > 0 && stepIndex >= |steps.value| - 1
    }

    /** The animation effect will schedule another step. */
    ghost predicate Playing()
      reads this
    {
      isAnimating && steps.Some? && 0 < |steps.value| && stepIndex < |steps.value| - 1
    }

    /** The state right after a reset of the array: nothing plays, no steps
        are loaded, and the array is the drawn one arranged for the
        algorithm, unless the drawn one is empty and the old array stays. */
    ghost predicate ResetTo(before: seq<int>, drawn: seq<int>)
      reads this
    {
      !isAnimating && stepIndex == 0 && steps.None? &&
      values == (if |drawn| == 0 then before else Arranged(algorithm, drawn))
    }

    /** The state right after `handleExecuteAlgorithm` ran on the array
        `before`: the cursor is back at the first step, binary search keeps
        its sorted copy, and either the run's steps are loaded and play or,
        for a menu entry without a generator, nothing plays and the old steps
        stay. */
    ghost predicate Executed(before: seq<int>, stepsBefore: Option<seq<Step>>)
      reads this
    {
      Valid() && stepIndex == 0 &&
      values == (if algorithm == Binary then SortAscending(before) else before) &&
      (IsTree(algorithm) ==> steps == stepsBefore && !isAnimating) &&
      (!IsTree(algorithm) ==> steps.Some? && isAnimating && Trace(algorithm, values, target, steps.value))
    }

    /** The page as it opens, after the mount effect has drawn its random
        array. */
    constructor (random: seq<int>)
      requires RandomArray(random, DefaultArraySize)
      ensures Valid()
      ensures values == random && arraySize == DefaultArraySize && algorithm == Bubble
      ensures target == InitialTarget && steps == None && stepIndex == 0 && !isAnimating
    {
      values := random;
      arraySize := DefaultArraySize;
      algorithm := Bubble;
      target := InitialTarget;
      steps := None;
      stepIndex := 0;
      isAnimating := false;
    }

    /** `handleGenerateNewArray(size, input)`: stops playing and drops the
        steps first, then takes the parsed input (or the random array when
        the input is empty); an empty result keeps the old array. */
    method GenerateNewArray(size: nat, input: string, random: seq<int>)
      requires Valid()
      requires input == "" ==> RandomArray(random, size)
      modifies this
      ensures Valid()
      ensures ResetTo(old(values), if input != "" then ParseCustomArray(input) else random)
      ensures algorithm == old(algorithm) && target == old(target) && arraySize == old(arraySize)
    {
      isAnimating := false;
      stepIndex := 0;
      steps := None;
      var drawn := if input != "" then ParseCustomArray(input) else random;
      if |drawn| == 0 {
        return;
      }
      ArrangedValues(algorithm, drawn);
      values := Arranged(algorithm, drawn);
    }

    /** `handleExecuteAlgorithm`, allowed unless a run is loaded and
        playing. */
    method Execute()
      requires Valid() && !(isAnimating && steps.Some?)
      modifies this
      ensures Executed(old(values), old(steps))
      ensures algorithm == old(algorithm) && target == old(target) && arraySize == old(arraySize)
    {
      isAnimating := false;
      stepIndex := 0;
      var shown, r := Generate(algorithm, values, target);
      if algorithm == Binary {
        ArrangedValues(Binary, values);
        values := shown;
      }
      if r.Some? && |r.value| > 0 {
        steps := r;
        isAnimating := true;
      }
    }

    /** One pass of the animation effect: while a run plays and the cursor is
        short of the last step, the timer moves it one step on; otherwise
        playing stops. */
    method Tick()
      requires Valid()
      modifies this
      ensures Valid()
      ensures values == old(values) && steps == old(steps) && algorithm == old(algorithm)
      ensures target == old(target) && arraySize == old(arraySize)
      ensures old(Playing()) ==> isAnimating && stepIndex == old(stepIndex) + 1
      ensures !old(Playing()) ==> !isAnimating && stepIndex == old(stepIndex)
    {
      if !isAnimating || steps.None? || |steps.value| == 0 || stepIndex >= |steps.value| - 1 {
        isAnimating := false;
      } else {
        stepIndex := stepIndex + 1;
      }
    }

    /** `handleStartStopAnimation`: the first press runs the algorithm, later
        presses toggle playing. Disabled on a finished run that is not
        playing. */
    method StartStop()
      requires Valid() && !(Complete() && !isAnimating)
      modifies this
      ensures old(steps).None? ==> Executed(old(values), old(steps))
      ensures old(steps).Some? ==>
        Valid() && isAnimating == !old(isAnimating) && steps == old(steps) &&
        stepIndex == old(stepIndex) && values == old(values)
      ensures algorithm == old(algorithm) && target == old(target) && arraySize == old(arraySize)
    {
      if steps.None? {
        Execute();
      } else {
        isAnimating := !isAnimating;
      }
    }

    /** `handleNextStep`, disabled while playing or on the last step. Without
        loaded steps the handler fails and nothing changes. */
    method NextStep()
      requires Valid() && !isAnimating && !Complete()
      modifies this
      ensures Valid() && !isAnimating
      ensures values == old(values) && steps == old(steps) && algorithm == old(algorithm)
      ensures target == old(target) && arraySize == old(arraySize)
      ensures steps.Some? ==> stepIndex == old(stepIndex) + 1 && stepIndex <= |steps.value| - 1
      ensures steps.None? ==> stepIndex == old(stepIndex)
    {
      if steps.Some? {
        if stepIndex < |steps.value| - 1 {
          stepIndex := stepIndex + 1;
        }
      }
    }

    /** `handlePrevStep`, disabled while playing or on the first step: one
        step back, and playing stays stopped. */
    method PrevStep()
      requires Valid() && !isAnimating && stepIndex != 0
      modifies this
      ensures Valid() && !isAnimating && stepIndex == old(stepIndex) - 1 && stepIndex >= 0
      ensures values == old(values) && steps == old(steps) && algorithm == old(algorithm)
      ensures target == old(target) && arraySize == old(arraySize)
    {
      if stepIndex > 0 {
        stepIndex := stepIndex - 1;
        isAnimating := false;
      }
    }

    /** The seek-to-start button, disabled while playing or on the first
        step. */
    method SeekStart()
      requires Valid() && !isAnimating && stepIndex != 0
      modifies this
      ensures Valid() && !isAnimating && stepIndex == 0
      ensures values == old(values) && steps == old(steps) && algorithm == old(algorithm)
      ensures target == old(target) && arraySize == old(arraySize)
    {
      stepIndex := 0;
    }

    /** The seek-to-end button, disabled while playing or on the last step.
        Without loaded steps the handler fails and nothing changes. */
    method SeekEnd()
      requires Valid() && !isAnimating && !Complete()
      modifies this
      ensures Valid() && !isAnimating
      ensures values == old(values) && steps == old(steps) && algorithm == old(algorithm)
      ensures target == old(target) && arraySize == old(arraySize)
      ensures steps.Some? ==> stepIndex == |steps.value| - 1 && Complete()
      ensures steps.None? ==> stepIndex == old(stepIndex)
    {
      if steps.Some? {
        stepIndex := |steps.value| - 1;
      }
    }

    /** The target box, shown for the searches only. */
    method SetTarget(v: int)
      requires Valid() && IsSearch(algorithm)
      modifies this
      ensures Valid() && target == v
      ensures values == old(values) && steps == old(steps) && algorithm == old(algorithm)
      ensures arraySize == old(arraySize) && stepIndex == old(stepIndex) && isAnimating == old(isAnimating)
    {
      target := v;
    }

    /** The algorithm menu: the handler resets the array as the algorithm it
        replaces would have it, and when the choice moves between sorting
        and searching, the reset effect runs again with a random array of the
        default size, arranged for the new choice. */
    method SelectAlgorithm(alg: Algorithm, random: seq<int>, rerun: seq<int>)
      requires Valid()
      requires RandomArray(random, arraySize) && RandomArray(rerun, DefaultArraySize)
      modifies this
      ensures Valid() && algorithm == alg && target == old(target) && arraySize == old(arraySize)
      ensures IsSearch(alg) == IsSearch(old(algorithm)) ==>
        ResetTo(old(values), random) && values == Arranged(old(algorithm), random)
      ensures IsSearch(alg) != IsSearch(old(algorithm)) ==> ResetTo(old(values), rerun)
    {
      var searching := IsSearch(algorithm);
      GenerateNewArray(arraySize, "", random);
      assert values == Arranged(algorithm, random);
      algorithm := alg;
      if IsSearch(alg) != searching {
        GenerateNewArray(DefaultArraySize, "", rerun);
      }
    }

    /** `handleArraySizeChange`, on the slider shown for the sorts, as
        written: a size from 5 to 50 is stored and a random array of that
        size drawn; but a changed size makes the reset effect run again,
        which replaces that array with one of the default size. */
    method SetArraySize(newSize: int, random: seq<int>, rerun: seq<int>)
      requires Valid() && IsSort(algorithm)
      requires 5 <= newSize <= 50 ==> RandomArray(random, newSize)
      requires RandomArray(rerun, DefaultArraySize)
      modifies this
      ensures Valid() && algorithm == old(algorithm) && target == old(target)
      ensures !(5 <= newSize <= 50) ==>
        values == old(values) && arraySize == old(arraySize) && steps == old(steps) &&
        stepIndex == old(stepIndex) && isAnimating == old(isAnimating)
      ensures 5 <= newSize <= 50 ==>
        arraySize == newSize && !isAnimating && stepIndex == 0 && steps.None? &&
        values == (if newSize == old(arraySize) then random else rerun)
    {
      if 5 <= newSize <= 50 {
        var before := arraySize;
        arraySize := newSize;
        GenerateNewArray(newSize, "", random);
        if newSize != before {
          GenerateNewArray(DefaultArraySize, "", rerun);
        }
      }
    }

    /** The slider with the reset effect running once on mount only: the
        array drawn has the size chosen. */
    method SetArraySizeFixed(newSize: int, random: seq<int>)
      requires Valid() && IsSort(algorithm)
      requires 5 <= newSize <= 50 ==> RandomArray(random, newSize)
      modifies this
      ensures Valid() && algorithm == old(algorithm) && target == old(target)
      ensures !(5 <= newSize <= 50) ==>
        values == old(values) && arraySize == old(arraySize) && steps == old(steps) &&
        stepIndex == old(stepIndex) && isAnimating == old(isAnimating)
      ensures 5 <= newSize <= 50 ==>
        arraySize == newSize && |values| == newSize && values == random &&
        !isAnimating && stepIndex == 0 && steps.None?
    {
      if 5 <= newSize <= 50 {
        arraySize := newSize;
        GenerateNewArray(newSize, "", random);
      }
    }

    /** `handleCustomArraySubmit`, as written, disabled while playing or with
        an empty box: a parse with values stores its length as the size and
        shows it; but when that length differs from the old size, the reset
        effect runs again and replaces it with a random array of the default
        size. A parse without values changes nothing. */
    method SubmitCustom(input: string, rerun: seq<int>)
      requires Valid() && !isAnimating && input != ""
      requires RandomArray(rerun, DefaultArraySize)
      modifies this
      ensures Valid() && algorithm == old(algorithm) && target == old(target)
      ensures |ParseCustomArray(input)| == 0 ==>
        values == old(values) && arraySize == old(arraySize) && steps == old(steps) &&
        stepIndex == old(stepIndex) && isAnimating == old(isAnimating)
      ensures |ParseCustomArray(input)| > 0 ==>
        arraySize == |ParseCustomArray(input)| &&
        ResetTo(old(values), if arraySize == old(arraySize) then ParseCustomArray(input) else rerun)
    {
      var parsed := ParseCustomArray(input);
      if |parsed| > 0 {
        var before := arraySize;
        arraySize := |parsed|;
        GenerateNewArray(|parsed|, input, []);
        if |parsed| != before {
          GenerateNewArray(DefaultArraySize, "", rerun);
        }
      }
    }

    /** The custom array submit with the reset effect running once on mount
        only: the parsed values are shown, arranged for the algorithm. */
    method SubmitCustomFixed(input: string)
      requires Valid() && !isAnimating && input != ""
      modifies this
      ensures Valid() && algorithm == old(algorithm) && target == old(target)
      ensures |ParseCustomArray(input)| == 0 ==>
        values == old(values) && arraySize == old(arraySize) && steps == old(steps) &&
        stepIndex == old(stepIndex) && isAnimating == old(isAnimating)
      ensures |ParseCustomArray(input)| > 0 ==>
        arraySize == |ParseCustomArray(input)| == |values| &&
        ResetTo(old(values), ParseCustomArray(input))
    {
      var parsed := ParseCustomArray(input);
      if |parsed| > 0 {
        arraySize := |parsed|;
        GenerateNewArray(|parsed|, input, []);
        ArrangedValues(algorithm, parsed);
      }
    }
  }

  /** Submitting custom input on a freshly opened page when its values
      number other than the default size (as "5,350,120,abc,-3" does, whose
      values are [5, 350, 120]): the parsed values are replaced by the
      default-size random array of the re-run reset effect. */
  method CustomInputReplaced(input: string, random: seq<int>, rerun: seq<int>) returns (shown: seq<int>)
    requires input != "" && |ParseCustomArray(input)| > 0
    requires |ParseCustomArray(input)| != DefaultArraySize
    requires RandomArray(random, DefaultArraySize) && RandomArray(rerun, DefaultArraySize)
    ensures shown == rerun && shown != ParseCustomArray(input)
  {
    var p := new Player(random);
    p.SubmitCustom(input, rerun);
    shown := p.values;
  }

  /** The same submission with the effect running on mount only shows the
      parsed values. */
  method CustomInputKept(input: string, random: seq<int>) returns (shown: seq<int>)
    requires input != "" && |ParseCustomArray(input)| > 0
    requires RandomArray(random, DefaultArraySize)
    ensures shown == ParseCustomArray(input)
  {
    var p := new Player(random);
    p.SubmitCustomFixed(input);
    shown := p.values;
  }

  /** Moving the size slider to 30 on a freshly opened page: the size reads
      30 but the re-run reset effect leaves the default number of bars. */
  method SizeChangeLost(random: seq<int>, drawn: seq<int>, rerun: seq<int>) returns (size: int, bars: int)
    requires RandomArray(random, DefaultArraySize) && RandomArray(drawn, 30)
    requires RandomArray(rerun, DefaultArraySize)
    ensures size == 30 && bars == DefaultArraySize && size != bars
  {
    var p := new Player(random);
    p.SetArraySize(30, drawn, rerun);
    size, bars := p.arraySize, |p.values|;
  }

  /** The same move with the effect running on mount only gives 30 bars. */
  method SizeChangeKept(random: seq<int>, drawn: seq<int>) returns (size: int, bars: int)
    requires RandomArray(random, DefaultArraySize) && RandomArray(drawn, 30)
    ensures size == 30 && bars == 30
  {
    var p := new Player(random);
    p.SetArraySizeFixed(30, drawn);
    size, bars := p.arraySize, |p.values|;
  }
}
