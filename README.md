# Algorithm Visualizer: the array player, in Dafny

This project models the core of the array page of the Algorithm Visualizer
(`frontend/src/components/ArrayVisualizer.js`). Each of the seven step
generators turns an array into the list of animation steps the page plays
back:

- sorts: bubble, merge, quick, shell and selection;
- searches: binary and linear.

The model also covers the parser for the custom-array text box and the page
state that plays the steps back: the cursor, the play/pause flag and the
handlers that move them.

Modules:

- `Steps`: the recorded step and the invariants that every sort trace keeps.
- `Sorting`: sortedness, the ascending arrangement, and swaps.
- `BubbleSort`, `SelectionSort`, `ShellSort`, `MergeSort`, `QuickSort`,
  `BinarySearch`, `LinearSearch`: one module per generator. Each generator
  is a method whose loops carry their invariants. Its contract says what the
  recorded trace shows and what the last step holds.
- `CustomInput`: `parseCustomArray`, with JavaScript's `split`, `trim` and
  `parseInt` written out.
- `Player`: the page state as a class whose fields are the React state
  variables. React's batched state updates become field assignments. A
  re-run effect becomes an explicit call. Every random array arrives as a
  parameter. A button's `disabled` condition becomes the precondition of its
  handler.

Each step's `action` text is an abstract tag. A step's highlight list is
kept as a sequence and its sorted indices as a set.

Some behaviour of the code is modelled as written even though it is evidently
not what the authors meant:

- Merge sort and quick sort read a stale copy of the input. The as-written
  generators model this, and lemmas exhibit it.
- The player re-runs its reset effect. The as-written handlers model this,
  and counterexample methods show it.

The corrected versions are modelled next to the as-written ones, with the
intended properties proved about them. The player dispatches to the
generators as written, as the page does, so a merge sort or quick sort run
ends on the stale result. See "## Findings".

Three behaviours of the code that a reader may not expect are modelled as the code has them:

- An empty parse rejected through `handleGenerateNewArray` still clears the
  loaded steps and stops playback (`Player.Player.GenerateNewArray`). Only
  the custom-submit handler leaves the state untouched.
- The target value is not range-checked anywhere.
- `parseInt` also reads a `0x` hexadecimal prefix.

## Model

| member | source | states |
|---|---|---|
| Steps.Interval | frontend/src/components/ArrayVisualizer.js:324 | `Array.from({length: end - start}, (_, idx) => start + idx)` holds start, start+1, …, end-1, in that order |
| Steps.AllIndices | frontend/src/components/ArrayVisualizer.js:298 | the final sorted-index list holds exactly the indices 0 … n-1 |
| Steps.RecordSortStep | frontend/src/components/ArrayVisualizer.js:250-258 | recording one step keeps the trace well formed: indices in range, sorted set never smaller than the step before, and a permutation of the input when the driver only swaps |
| Steps.RecordedTrace | frontend/src/components/ArrayVisualizer.js:250-258 | a trace built one record at a time has every step in bounds and sorted sets that only grow, and every snapshot is a permutation of the input when each record was |
| Sorting.SortAscending | frontend/src/components/ArrayVisualizer.js:997 | the numeric ascending `sort((a, b) => a - b)`: the result is sorted and has the same elements |
| Sorting.SortedPermutationUnique | frontend/src/components/ArrayVisualizer.js:997 | two sorted arrangements of the same elements are equal, so a sorted permutation of the input is SortAscending(input) |
| Sorting.Swapped | frontend/src/components/ArrayVisualizer.js:268 | the destructuring swap exchanges positions i and j and leaves every other position alone |
| Sorting.SwappedElements | frontend/src/components/ArrayVisualizer.js:268 | a swap is a permutation |
| Sorting.SameOutsideWider | frontend/src/components/ArrayVisualizer.js:358-367 | changes confined to two ranges are confined to any range containing both |
| BubbleSort.BubbleSortSteps | frontend/src/components/ArrayVisualizer.js:244-302 | every snapshot is a permutation of the input with in-range highlights; sorted indices only grow; the last step is "finished", marks every index sorted and shows SortAscending(input) |
| BubbleSort.BubblePass | frontend/src/components/ArrayVisualizer.js:261-289 | one outer pass keeps the elements, moves the largest of the unsorted prefix to position m, and a pass without a swap leaves the array sorted (the early exit) |
| BubbleSort.PassStep | frontend/src/components/ArrayVisualizer.js:262-275 | one compare-and-maybe-swap: the swapped flag becomes true exactly when a[j] > a[j+1], and the prefix maximum moves to j+1 |
| BubbleSort.CompareAdjacent | frontend/src/components/ArrayVisualizer.js:264-274 | the array after the three records is the adjacent swap when a[j] > a[j+1], the same array otherwise |
| BubbleSort.AdjacentKeepsSettled | frontend/src/components/ArrayVisualizer.js:266-268 | an adjacent swap inside the unsorted prefix keeps the settled suffix settled |
| BubbleSort.AdjacentCarriesMax | frontend/src/components/ArrayVisualizer.js:266-268 | after the compare at j, position j+1 holds the maximum of a[0..j+1] |
| BubbleSort.AdjacentKeepsOrder | frontend/src/components/ArrayVisualizer.js:266 | with no swap so far, an ordered pair extends the sorted prefix |
| BubbleSort.PassEnds | frontend/src/components/ArrayVisualizer.js:277-289 | after a pass position m is settled, and without a swap the whole array is sorted |
| BubbleSort.MarkPrefixSorted | frontend/src/components/ArrayVisualizer.js:282-287 | the early-exit backfill adds exactly the indices below m to the sorted set |
| BubbleSort.CloseBubbleTrace | frontend/src/components/ArrayVisualizer.js:292-299 | the closing records end on "finished" with all indices sorted and the array equal to SortAscending(input) |
| SelectionSort.SelectionSortSteps | frontend/src/components/ArrayVisualizer.js:510-565 | every snapshot is a permutation of the input; sorted indices only grow; the last step marks every index sorted and shows SortAscending(input) |
| SelectionSort.ScanForMinimum | frontend/src/components/ArrayVisualizer.js:533-543 | minIndex is the first position of the minimum of a[i..] (strict `<` keeps the earliest) |
| SelectionSort.PlaceMinimum | frontend/src/components/ArrayVisualizer.js:545-550 | swaps only when minIndex differs from i, and afterwards the prefix up to i holds the i+1 smallest elements in order |
| SelectionSort.SwapMinimumPlaces | frontend/src/components/ArrayVisualizer.js:546 | swapping the suffix minimum into i extends the placed prefix |
| SelectionSort.FinalizeIndex | frontend/src/components/ArrayVisualizer.js:552-553 | after pass i the sorted set is exactly 0 … i |
| SelectionSort.CloseSelectionTrace | frontend/src/components/ArrayVisualizer.js:556-562 | the last index is marked, and the trace ends on "finished" with SortAscending(input) |
| ShellSort.ShellSortSteps | frontend/src/components/ArrayVisualizer.js:455-508 | the trace is in bounds with sorted indices only growing; the last step has gap 0, marks every index sorted and shows SortAscending(input) |
| ShellSort.GapPass | frontend/src/components/ArrayVisualizer.js:476-499 | a pass keeps the elements and leaves the array gap-sorted (a[p] <= a[p+gap] everywhere) |
| ShellSort.InsertWithGap | frontend/src/components/ArrayVisualizer.js:477-498 | the gapped insertion of a[i] keeps the elements and extends the gap-sorted prefix to i |
| ShellSort.InsertingStarts | frontend/src/components/ArrayVisualizer.js:477-481 | the insertion invariant holds before the first shift |
| ShellSort.ShiftStep | frontend/src/components/ArrayVisualizer.js:483-494 | one shift with its records keeps the insertion invariant at j-gap |
| ShellSort.ShiftOnce | frontend/src/components/ArrayVisualizer.js:487-489 | the shift copies a[j-gap] into j and nothing else |
| ShellSort.ShiftKeepsInserting | frontend/src/components/ArrayVisualizer.js:483-491 | the insertion invariant survives one shift |
| ShellSort.ShiftKeepsElements | frontend/src/components/ArrayVisualizer.js:487-496 | shifting then placing the held value leaves the same elements |
| ShellSort.ShiftKeepsLeft | frontend/src/components/ArrayVisualizer.js:487 | the part left of the hole stays gap-sorted after a shift |
| ShellSort.ShiftKeepsOrder | frontend/src/components/ArrayVisualizer.js:487 | the filled part right of the hole stays ordered after a shift |
| ShellSort.PlaceEndsInserting | frontend/src/components/ArrayVisualizer.js:496-498 | placing the held value ends the insertion: same elements, gap-sorted up to i |
| ShellSort.GapOneSorted | frontend/src/components/ArrayVisualizer.js:501-505 | a gap-1 sorted array is sorted, so the last pass leaves the array sorted |
| MergeSort.MergeRuns | frontend/src/components/ArrayVisualizer.js:319-356 | the merge of two runs (ties to the left, then the remainders) has their combined length |
| MergeSort.MergeRunsElements | frontend/src/components/ArrayVisualizer.js:328-353 | the merge of two runs holds exactly their elements |
| MergeSort.MergeRunsSorted | frontend/src/components/ArrayVisualizer.js:328-353 | the merge is sorted if and only if both runs are |
| MergeSort.EvolvesTrace | frontend/src/components/ArrayVisualizer.js:309-317 | the first snapshot is the input, and each later one repeats the one before or changes only the single index it highlights |
| MergeSort.Merge | frontend/src/components/ArrayVisualizer.js:319-356 | merge(arr, start, mid, end) writes MergeRuns(arr[start..mid], arr[mid..end]) into [start, end) of the working array and changes nothing outside it |
| MergeSort.PlaceNext | frontend/src/components/ArrayVisualizer.js:332-341 | each placement takes the left head when left[i] <= right[j], the right head otherwise, and writes it at k |
| MergeSort.MergeRestLeft | frontend/src/components/ArrayVisualizer.js:344-348 | copies the rest of the left run |
| MergeSort.MergeRestRight | frontend/src/components/ArrayVisualizer.js:349-353 | copies the rest of the right run |
| MergeSort.MergeSortRange | frontend/src/components/ArrayVisualizer.js:358-367 | as written: a range of two or more elements ends as the merge of the ORIGINAL input's two halves, and nothing outside it changes |
| MergeSort.MergeSortSteps | frontend/src/components/ArrayVisualizer.js:305-375 | as written: the first step shows the input; every step is local; the last step marks every index sorted and shows the merge of the input's two unsorted halves, which is sorted only when both halves already are |
| MergeSort.MergeSortRangeFixed | frontend/src/components/ArrayVisualizer.js:358-367 | corrected: the range ends sorted and rearranged within itself |
| MergeSort.MergedHalves | frontend/src/components/ArrayVisualizer.js:364-366 | corrected: merging two sorted halves of the live array sorts the range |
| MergeSort.MergeSortStepsFixed | frontend/src/components/ArrayVisualizer.js:305-375 | corrected: the same trace shape, and the last step shows SortAscending(input) |
| MergeSort.StaleMergeExample | frontend/src/components/ArrayVisualizer.js:366 | on [4,3,2,1] the as-written top merge yields [2,1,4,3], which is not sorted |
| QuickSort.Lomuto | frontend/src/components/ArrayVisualizer.js:394-421 | the Lomuto partition of arr[low..high] returns a pivot index in [low, high] |
| QuickSort.LomutoPartitions | frontend/src/components/ArrayVisualizer.js:394-421 | after partitioning: elements left of pi are below the pivot, those right are at least it, the pivot sits at pi, the elements are the same and nothing outside [low, high] moves |
| QuickSort.ScanningRuns | frontend/src/components/ArrayVisualizer.js:401-413 | the scan loop keeps the partition invariant to its end |
| QuickSort.ScanningSwaps | frontend/src/components/ArrayVisualizer.js:405-410 | a swap of a smaller element keeps the invariant |
| QuickSort.ScanningEnds | frontend/src/components/ArrayVisualizer.js:415-416 | the final pivot swap establishes the partition |
| QuickSort.Partition | frontend/src/components/ArrayVisualizer.js:394-421 | the recorded partition computes Lomuto(arr, low, high) and ends with the pivot-placed step marking pi sorted |
| QuickSort.ScanAll | frontend/src/components/ArrayVisualizer.js:401-413 | the recorded loop computes the scan function |
| QuickSort.ScanOne | frontend/src/components/ArrayVisualizer.js:403-412 | one iteration computes one scan step |
| QuickSort.SwapIntoZone | frontend/src/components/ArrayVisualizer.js:405-409 | the in-loop swap exchanges i+1 and j |
| QuickSort.DisplayIsLast | frontend/src/components/ArrayVisualizer.js:381-390 | the array on display after a call tree is the result of its last partition (each partition's snapshot replaces the working reference) |
| QuickSort.QuickFinalIsLastPartition | frontend/src/components/ArrayVisualizer.js:423-441 | as written: the final array is the result of the last partition alone, computed on the original input |
| QuickSort.QuickSortRange | frontend/src/components/ArrayVisualizer.js:423-439 | as written: the array on display follows the call tree over the original input; every index of [low, high] gets marked sorted |
| QuickSort.MarkSingleton | frontend/src/components/ArrayVisualizer.js:433-437 | a one-element range is marked sorted and the display is unchanged |
| QuickSort.QuickSortSteps | frontend/src/components/ArrayVisualizer.js:377-453 | as written: every snapshot is a permutation of the input, sorted indices only grow, and the last step marks all indices and shows QuickFinal(input) |
| QuickSort.QuickStaleExample | frontend/src/components/ArrayVisualizer.js:425-432 | on [4,3,2,1] the as-written final array is [4,3,1,2], which is not sorted |
| QuickSort.StalePartitions | frontend/src/components/ArrayVisualizer.js:394-421 | the three partitions run on [4,3,2,1] and what each returns |
| QuickSort.QuickSortRangeFixed | frontend/src/components/ArrayVisualizer.js:423-439 | corrected: the range ends sorted, rearranged within itself, with every index marked |
| QuickSort.PartsSorted | frontend/src/components/ArrayVisualizer.js:425-432 | a partition followed by sorting both sides sorts the whole range |
| QuickSort.QuickSortStepsFixed | frontend/src/components/ArrayVisualizer.js:377-453 | corrected: the last step shows SortAscending(input) |
| BinarySearch.BinarySearchSteps | frontend/src/components/ArrayVisualizer.js:568-663 | the array is never changed; every probe's mid lies in [low, high] and in the array; found means array[mid] == target at the last step; otherwise found is false, mid is -1 and low > high; on a sorted array the search ends found exactly when the target is present |
| BinarySearch.Probe | frontend/src/components/ArrayVisualizer.js:589-633 | one iteration probes mid = floor((low+high)/2) and narrows the window strictly, keeping the target's possible positions inside it |
| BinarySearch.Conclude | frontend/src/components/ArrayVisualizer.js:636-660 | the closing step is success at mid or failure with mid = -1 |
| BinarySearch.NarrowRight | frontend/src/components/ArrayVisualizer.js:607-608 | on a sorted array a probe below the target rules out everything up to mid |
| BinarySearch.NarrowLeft | frontend/src/components/ArrayVisualizer.js:620-621 | on a sorted array a probe above the target rules out everything from mid |
| BinarySearch.WindowEmpty | frontend/src/components/ArrayVisualizer.js:589 | once low > high a sorted array cannot hold the target |
| LinearSearch.LinearSearchSteps | frontend/src/components/ArrayVisualizer.js:665-734 | the array is never changed and only the last step may be found; found exactly when the target is present; then current_index is its first occurrence k and the trace has 2k+3 steps; otherwise 2n+2 steps ending in failure with current_index n-1 |
| LinearSearch.Visited | frontend/src/components/ArrayVisualizer.js:672-709 | the trace after m mismatches has 2m+1 steps |
| LinearSearch.VisitedSteps | frontend/src/components/ArrayVisualizer.js:682-709 | no visited step reports the target found |
| CustomInput.TrimStartRemovesSpaces | frontend/src/components/ArrayVisualizer.js:235 | the leading part removed is white space and what is left does not start with white space |
| CustomInput.TrimEndRemovesSpaces | frontend/src/components/ArrayVisualizer.js:235 | the same at the end of the token |
| CustomInput.DigitRunIsLongest | frontend/src/components/ArrayVisualizer.js:235 | `parseInt` reads the longest run of digits of the radix |
| CustomInput.LargeValueClamped | frontend/src/components/ArrayVisualizer.js:234-237 | the clamp: the decimal text of any number of 400 or more is read as 400, both as a token and as a whole input |
| CustomInput.ParseToken | frontend/src/components/ArrayVisualizer.js:234-237 | a kept token's value lies in [1, 400] |
| CustomInput.Split | frontend/src/components/ArrayVisualizer.js:233 | `split(',')` gives at least one piece and no piece contains a comma |
| CustomInput.JoinSplit | frontend/src/components/ArrayVisualizer.js:233 | joining the pieces with commas gives the string back |
| CustomInput.SplitAt | frontend/src/components/ArrayVisualizer.js:233 | splitting a + "," + b splits a and b separately |
| CustomInput.MapAppends | frontend/src/components/ArrayVisualizer.js:234-237 | `map` distributes over concatenation |
| CustomInput.Present | frontend/src/components/ArrayVisualizer.js:238 | `filter(n => n !== null)` keeps only present values, each taken from some input position |
| CustomInput.PresentAppends | frontend/src/components/ArrayVisualizer.js:238 | `filter` distributes over concatenation |
| CustomInput.ParseCustomArray | frontend/src/components/ArrayVisualizer.js:232-240 | at most one value per token, and every value lies in [1, 400] |
| CustomInput.ParseConcat | frontend/src/components/ArrayVisualizer.js:232-240 | token order is kept: parsing a + "," + b is parsing a followed by parsing b |
| CustomInput.ParseDecimal | frontend/src/components/ArrayVisualizer.js:235 | parseInt of a number's decimal text is that number |
| CustomInput.ParseDecimalToken | frontend/src/components/ArrayVisualizer.js:232-240 | the text of one admissible value parses to exactly that value |
| CustomInput.FormatRoundTrip | frontend/src/components/ArrayVisualizer.js:232-240 | parsing the comma-joined decimal text of values in [1, 400] gives them back |
| CustomInput.ParseExample | frontend/src/components/ArrayVisualizer.js:232-240 | "5,350,120,abc,-3" parses to [5, 350, 120] |
| CustomInput.WordDropped | frontend/src/components/ArrayVisualizer.js:234-237 | every token without a decimal digit is dropped, whatever white space, sign or letters it holds (`parseInt` gives NaN, even where a `0x` prefix could start) |
| CustomInput.NegativeDropped | frontend/src/components/ArrayVisualizer.js:234-237 | every token made of a minus sign and the decimal text of a number, `-0` included, is dropped |
| Player.Arranged | frontend/src/components/ArrayVisualizer.js:958-961 | a new array is kept as it came, except that searches sort it ascending; either way the elements are the same |
| Player.ArrangedValues | frontend/src/components/ArrayVisualizer.js:958-963 | arranging keeps every bar value in [1, 400] and the length |
| Player.Generate | frontend/src/components/ArrayVisualizer.js:976-1007 | the dispatch: binary search sorts its copy first; the tree entries have no generator; a sort's trace ends finished, with every index sorted, on a rearrangement of the input (the ascending one for bubble, selection and shell sort, the stale merge or partition result for merge and quick sort); a search's ends found exactly when the target is in the array |
| Player.RunSort | frontend/src/components/ArrayVisualizer.js:979-994 | each sorting entry calls its generator as written and ends finished with every index sorted, on a rearrangement of the input; bubble, selection and shell sort end ascending, merge sort on the merge of the input's halves (sorted exactly when both halves are), quick sort on its last partition's result |
| Player.RunSearch | frontend/src/components/ArrayVisualizer.js:995-1003 | both searches keep the array and end found exactly when the target is present |
| Player.Player.constructor | frontend/src/components/ArrayVisualizer.js:903-912 | the opening state: bubble sort, target 250, size 15, no steps, cursor 0, not playing |
| Player.Player.GenerateNewArray | frontend/src/components/ArrayVisualizer.js:941-964 | playing stops and the steps are dropped before validation, so an input without values empties the steps but keeps the array; otherwise the parsed (or random) array is shown, sorted for searches |
| Player.Player.Execute | frontend/src/components/ArrayVisualizer.js:972-1014 | the cursor goes back to 0; a run with a generator loads its steps and starts playing; binary search leaves the array sorted; the loaded steps satisfy the dispatch's trace contract (a merge or quick sort run ends on the stale result); the tree entries stop playing and keep the old steps |
| Player.Player.Tick | frontend/src/components/ArrayVisualizer.js:1018-1029 | while playing short of the last step the cursor moves one step on; otherwise, at the last step too, playing stops and the cursor stays |
| Player.Player.StartStop | frontend/src/components/ArrayVisualizer.js:1033-1039 | without steps it runs the algorithm; with steps it toggles playing and nothing else |
| Player.Player.NextStep | frontend/src/components/ArrayVisualizer.js:1041-1045 | the cursor advances by one and stays at most at the last step |
| Player.Player.PrevStep | frontend/src/components/ArrayVisualizer.js:1047-1052 | the cursor moves back by one, never below 0, and playing is off |
| Player.Player.SeekStart | frontend/src/components/ArrayVisualizer.js:1282 | the cursor goes to the first step |
| Player.Player.SeekEnd | frontend/src/components/ArrayVisualizer.js:1304 | the cursor goes to the last step, completing the animation |
| Player.Player.SetTarget | frontend/src/components/ArrayVisualizer.js:1152 | only the target changes |
| Player.Player.SelectAlgorithm | frontend/src/components/ArrayVisualizer.js:1125-1128 | the handler resets as the old algorithm would; when the choice moves between sorting and searching, the re-run reset effect replaces the array with a default-size one arranged for the new choice |
| Player.Player.SetArraySize | frontend/src/components/ArrayVisualizer.js:1055-1061 | as written: a size in [5, 50] is stored, but a changed size lets the re-run reset effect replace the new array with one of the default size |
| Player.Player.SetArraySizeFixed | frontend/src/components/ArrayVisualizer.js:1055-1061 | corrected: the array shown has the chosen size |
| Player.Player.SubmitCustom | frontend/src/components/ArrayVisualizer.js:1063-1072 | as written: input without values changes nothing; otherwise the size becomes the parse's length and the parse is shown, unless that length differs from the old size, when the re-run reset effect shows a default-size random array instead |
| Player.Player.SubmitCustomFixed | frontend/src/components/ArrayVisualizer.js:1063-1072 | corrected: the parsed values are shown |
| Player.CustomInputReplaced | frontend/src/components/ArrayVisualizer.js:964-968 | on a fresh page, custom input whose value count differs from 15 never reaches the screen |
| Player.CustomInputKept | frontend/src/components/ArrayVisualizer.js:1063-1072 | corrected: on a fresh page the parsed values are what is shown |
| Player.SizeChangeLost | frontend/src/components/ArrayVisualizer.js:964-968 | moving the slider to 30 on a fresh page leaves 15 bars while the size reads 30 |
| Player.SizeChangeKept | frontend/src/components/ArrayVisualizer.js:1055-1061 | corrected: the slider at 30 gives 30 bars |

## Left out

- Rendering is not modelled: `ArrayBar`, its colours, the JSX layout, bar widths and the resize listener are presentation only.
- `generateRandomArray` uses `Math.random`. Each random array is a parameter, constrained to its length and to values in [10, 400].
- The timer is not modelled. One pass of the animation effect is the explicit method `Player.Player.Tick`, and the speed slider is left out.
- The BST entries have no generator, and `BSTVisualizer.js` is not part of this model. Running a BST entry takes the defensive `default` branch.
- The pseudocode tables and the action strings are left out. An action is an abstract tag.
- `parseInt` is modelled for white space, one sign, a `0x`/`0X` prefix and decimal or hexadecimal digits. It does not cover radix arguments, numeric separators, or tokens whose value exceeds what a double holds exactly. Such tokens are clamped to 400 anyway.
- Step records keep their sorted indices as a set. The order in which indices were pushed, and a duplicate push, are not represented.
- `Player.Player.NextStep` and `Player.Player.SeekEnd`: clicking them with no steps loaded throws a TypeError in the code. The model leaves the state unchanged instead.
- `Player.Player.SetTarget`: the target is an integer. A fractional or NaN value from `Number(...)` is not modelled.
- The empty-array `alert` of `handleGenerateNewArray` (ArrayVisualizer.js:954) and the `console.error` calls at :1005 and :1070 are not modelled: they only report to the user or the console and change no state.
- `Player.Player.GenerateNewArray`: it has no `!isAnimating` precondition, because the size slider and the effects call it unguarded. Only the Reset Array button is disabled while playing.
- `MergeSort.MergeSortSteps` and `MergeSort.MergeSortStepsFixed`: intermediate snapshots are not claimed to be permutations of the input. Every placement in `merge` (ArrayVisualizer.js:333-352) overwrites index k and records the array before the value it displaces has been placed, so a mid-merge snapshot can hold a value twice. This happens in the corrected generator too: on [4,3,2,1] the first merge shows [3,3,2,1]. Each step is only claimed to change its highlighted index.
- `BinarySearch.BinarySearchSteps`: the loop exits through its condition `low <= high && !found` rather than `break`. The steps recorded are the same.

## Findings

| source | as written | input that shows it | evidently intended | confidence | as-written member | corrected member |
|---|---|---|---|---|---|---|
| frontend/src/components/ArrayVisualizer.js:364-366 | `mergeSortHelper` passes the original copy `arr` to every `merge`, so each merge reads halves that the recursive calls never sorted | [4,3,2,1] ends as [2,1,4,3] | merge the halves the recursive calls just sorted, ending with the input sorted | high; not executed | MergeSort.MergeSortSteps, MergeSort.StaleMergeExample | MergeSort.MergeSortStepsFixed |
| frontend/src/components/ArrayVisualizer.js:394-432 | each `partition` copies the original `arr`, so later partitions undo earlier ones and the display ends on the last partition alone | [4,3,2,1] ends as [4,3,1,2] | partition the live array so that the recursion sorts in place | high; not executed | QuickSort.QuickSortSteps, QuickSort.QuickStaleExample | QuickSort.QuickSortStepsFixed |
| frontend/src/components/ArrayVisualizer.js:964-968 | the reset effect depends on the callback, whose dependencies include `arraySize`, so a submit that changes the size re-runs the effect, which draws a default-size random array | "5,350,120,abc,-3" submitted on a fresh page (size 15) shows 15 random bars, not [5,350,120] | the effect runs on mount only and the custom array stays | high; not executed | Player.Player.SubmitCustom, Player.CustomInputReplaced | Player.Player.SubmitCustomFixed, Player.CustomInputKept |
| frontend/src/components/ArrayVisualizer.js:1055-1061 | the same re-run after the size slider moves replaces the new array with a default-size one | slider moved to 30 on a fresh page: the size reads 30 but 15 bars show | the array has the chosen size | high; not executed | Player.Player.SetArraySize, Player.SizeChangeLost | Player.Player.SetArraySizeFixed, Player.SizeChangeKept |
