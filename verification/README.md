# Sorting visualizer: the verified engine and players

This project models the engine of a sorting-algorithm visualizer in Dafny. An
*initiator* builds an array holding 1..n. A *sorter* sorts a copy of the array with
instrumented primitives, and every primitive appends one *step* to a trace. A *cursor*
walks that trace with a replay index. A *player* (worker) consumes the trace step by step
or in a loop. It keeps per-kind counters and asks a diagram and some callbacks to show
what happens.

| file | module | what it holds |
|---|---|---|
| `sorting_steps.dfy` | `SortingSteps` | The eight step kinds (SortingSteps.py). It also holds the per-kind tally of a trace, `Replay`, and the proof that replaying a trace permutes the array unless the trace has a Replace step. |
| `ordering.dfy` | `Ordering` | Sortedness, strict monotonicity, distinctness and bounds on sequences. |
| `sorter.dfy` | `Sorter` | The recorder class with the primitives `Compare`, `Swap`, `Mark`, `Unmark` and `Focus` (Sorter.py:38-78, the delay-free copy at Algorithms.py:92-127). It also holds the `Sweep` value that functional pass specifications use. |
| `selection_sorter.dfy`, `insertion_sorter.dfy`, `shell_sorter.dfy`, `bubble_sorter.dfy`, `shaker_sorter.dfy`, `comb_sorter.dfy`, `quick_sorter.dfy` | one module each | The seven sorters of SortingAlgorithms.py, in place on an `array<int>`. |
| `plain_sorters.dfy` | `PlainSorters` | Selection and bubble sort of Algorithms.py, which record only Comparison and Swap steps. |
| `initiators.dfy` | `Initiators` | The five initiators of Initiator.py (copied at Algorithms.py:12-68). |
| `trace_cursor.dfy` | `TraceCursor` | The replay index as values: next, previous, checkout, draining, and the tally of a session. |
| `data_cursor.dfy`, `visualization_data.dfy` | `DataCursor`, `VisualizationDataCursor` | The cursor classes of Data.py and VisualizationData.py. |
| `worker.dfy`, `visualization_worker.dfy` | `PlaybackWorker`, `VisualizationPlayback` | The players of Worker.py and VisualizationWorker.py. |

The sorters share one contract shape:
- on return the array is sorted and is a permutation of the input;
- replaying the recorded trace on the input gives exactly the final array (`Replay(old(data[..]), steps) == data[..]`).

Two sorters are the exceptions the source itself forces:
- Shaker sort is stated exactly, as the data and trace it produces, because it does not always sort.
- Comb sort requires pairwise distinct values, because on equal values it never terminates.

Sorter.py repeats selection, insertion, Shell, bubble and quicksort of SortingAlgorithms.py
(Sorter.py:81-105, 108-130, 133-183, 186-215, 218-270). The code and the steps it records
are the same, so the modules above model both copies. Algorithms.py's quicksort
(Algorithms.py:175-227) records the same steps as QuickSorter's, so it is
`QuickSorter.QuickSort`.

Each player's diagram and callbacks are a log of requests (`calls`), in order. The
continuous loop runs in line. The moment the user pauses it is a parameter: the loop
iteration before which the stop flag is set.

## Model

| member | source | states |
|---|---|---|
| SortingSteps.TallyTotal | SortingSteps.py:4-100 | Every step of a trace is counted under exactly one of the eight kinds: the tally's counters add up to the trace length. |
| SortingSteps.TallyAppend | SortingSteps.py:4-100 | The tally of two traces joined is the sum of their tallies. |
| SortingSteps.SwapAt | Sorter.py:56-63 | Exchanging two slots: each takes the other's value and every other slot is kept. |
| SortingSteps.SwapAtPermutes | Sorter.py:56-63 | An exchange keeps the multiset of values. |
| SortingSteps.Apply | Sorter.py:56-63 | One step changes the array's values but never its length. That a step other than Swap or Replace changes nothing is ReplayDataStepsOnly. |
| SortingSteps.Replay | Sorter.py:41-78 | Replaying a trace keeps the array's length. ReplayAppend and ReplayPermutes state what it does to the values. |
| SortingSteps.ReplayAppend | Sorter.py:41-78 | Replaying a trace extended by further steps equals replaying the extension on the result of the first part. |
| SortingSteps.DataSteps | Sorter.py:56-63 | The data-changing steps of a trace: only Swap and Replace steps, one for each Swap and Replace the trace tallies. |
| SortingSteps.ReplayDataStepsOnly | Sorter.py:56-63 | Replaying only the Swap and Replace steps of a trace gives the same array as replaying the whole trace, since no other step changes data. |
| SortingSteps.ReplayPermutes | Sorter.py:56-63 | A trace with no Replace step, replayed on an array, yields a permutation of that array. |
| SortingSteps.PrefixReplayPermutes | Sorter.py:41-78 | Every prefix of such a trace replays to a permutation of the whole trace's result. |
| Sorter.Sorter.constructor | SortingAlgorithms.py:11 | A sort starts from an empty trace, as the clearing of the shared list at the start of every sort provides. |
| Sorter.Sorter.Compare | Sorter.py:48-53 | Appends exactly one Comparison(pos1, pos2) with the given delay, answers `data[pos1] <= data[pos2]`, and leaves the array alone. The delay-free copy is Algorithms.py:102-107. |
| Sorter.Sorter.Swap | Sorter.py:56-63 | Exchanges the two slots, keeps every other one, and appends exactly one Swap(pos1, pos2). It keeps "the array is the replay of the trace". The copy is Algorithms.py:110-117. |
| Sorter.Sorter.Mark | Sorter.py:65-68 | Appends exactly one Mark(pos) and touches no data. The copy is Algorithms.py:120-122. |
| Sorter.Sorter.Unmark | Sorter.py:70-73 | Appends exactly one Unmark and touches no data. |
| Sorter.Sorter.Focus | Sorter.py:75-78 | Appends exactly one Focus(pos1, pos2) and touches no data. The copy is Algorithms.py:125-127. |
| SelectionSorter.RoundsClosedForm | SortingAlgorithms.py:15-24 | After i rounds, the comparisons made equal i(2n-i-1)/2. |
| SelectionSorter.AllRounds | SortingAlgorithms.py:15-24 | A full selection sort makes n(n-1)/2 comparisons. |
| SelectionSorter.SwapMinimumSettles | SortingAlgorithms.py:26-27 | Swapping the minimum of the unsorted suffix to its front extends the sorted, settled prefix by one. |
| SelectionSorter.ScanForMinimum | SortingAlgorithms.py:17-24 | Returns the last position of the minimum of data[i..n-1]: every slot after it holds a larger value. It records one Focus and n-i-1 comparisons, no swap, and does not change the array. |
| SelectionSorter.SelectionSort | SortingAlgorithms.py:6-30 | Sorted and a permutation, and the trace replays to the result. Exactly n(n-1)/2 comparisons, n swaps (self-swaps included) and n focuses. |
| InsertionSorter.InsertSlot | SortingAlgorithms.py:73-82 | Sinks slot i by gap k. If data[0..i-1] is gap-k sorted (every value at most the one k slots above it), data[0..i] is gap-k sorted afterwards, and the slots above i are untouched. The array stays the replay of the trace, and every swap it records exchanges two slots a gap of the sort apart. |
| InsertionSorter.InsertionPass | SortingAlgorithms.py:71-82 | A gap-k pass over every slot from k leaves the whole array gap-k sorted. With k = 1 the array is sorted. |
| InsertionSorter.SinkStep | SortingAlgorithms.py:78-80 | Swapping the sunk value k slots down, past a value at least as large, keeps the chain of gap k in order around it and changes nothing above slot i. |
| InsertionSorter.GapOneSorted | SortingAlgorithms.py:70-84 | Gap-1 sorted is sorted, which is why the final gap 1 sorts the array. |
| InsertionSorter.InsertionSort | SortingAlgorithms.py:33-55 | Sorted and a permutation, and the trace replays to the result. Every swap exchanges adjacent slots (j-1, j). |
| ShellSorter.StripTwos | SortingAlgorithms.py:97-98 | Dividing out all factors 2 leaves a positive odd number. |
| ShellSorter.StripThrees | SortingAlgorithms.py:101-102 | Dividing out all factors 3 leaves a positive number not divisible by 3. |
| ShellSorter.SmoothIsProduct | SortingAlgorithms.py:94-106 | The divide-out test accepts x exactly when x = 2^p·3^q for some p and q. |
| ShellSorter.GetIncrements | SortingAlgorithms.py:87-108 | The gaps lie in [1, n-1], are strictly descending and 3-smooth, and include every 3-smooth number there. They are empty for n <= 1 and end with 1 for n >= 2. |
| ShellSorter.ShellSort | SortingAlgorithms.py:58-85 | Sorted and a permutation, and the trace replays to the result. Every swap exchanges two slots one gap apart. |
| BubbleSorter.QuietPassTally | SortingAlgorithms.py:119-137 | A pass over strictly increasing data records m comparisons and m unmarks and nothing else. |
| BubbleSorter.BubbleStep | SortingAlgorithms.py:121-133 | One compare-and-swap carries the maximum of the pass one slot up and keeps the settled suffix. |
| BubbleSorter.CompareAndSwap | SortingAlgorithms.py:122-133 | Compares (j+1, j). On "less or equal" it records Mark(j) and swaps j with j+1, otherwise it records Unmark. |
| BubbleSorter.BubblePass | SortingAlgorithms.py:120-133 | After the pass over 0..i, slot i holds the maximum of data[0..i] and the suffix stays sorted. A pass that reports no swap saw strictly increasing data. On strictly increasing data the pass is quiet: nothing moves. |
| BubbleSorter.SortedByEarlyStop | SortingAlgorithms.py:135-137 | Stopping after a swap-free pass leaves the array sorted. |
| BubbleSorter.BubbleSort | SortingAlgorithms.py:111-140 | Sorted and a permutation, and the trace replays to the result. On strictly increasing input the trace is exactly n-1 comparisons and n-1 unmarks (one pass, no swap). |
| ShakerSorter.UpStep | SortingAlgorithms.py:156-166 | One upward compare-and-swap keeps the number of slots. UpPass proves the in-place step does exactly this. |
| ShakerSorter.DownStep | SortingAlgorithms.py:173-183 | One downward compare-and-swap keeps the number of slots. CompareAndSwapDown proves the in-place step does exactly this. |
| ShakerSorter.UpSweep | SortingAlgorithms.py:156-166 | The upward pass as a value: only slots j..hi can change. |
| ShakerSorter.DownSweep | SortingAlgorithms.py:173-183 | The downward pass as a value: only slots lo..j can change. |
| ShakerSorter.UpSweepCarriesMax | SortingAlgorithms.py:156-166 | After an upward pass the top slot of its range holds the range's maximum. |
| ShakerSorter.DownSweepCarriesMin | SortingAlgorithms.py:173-183 | After a downward pass the bottom slot of its range holds the range's minimum. |
| ShakerSorter.ShakerRounds | SortingAlgorithms.py:151-186 | The rounds i, i+1, ... keep the number of slots. QuietUpSweep and IncreasingShakerQuiet state when they stop. |
| ShakerSorter.QuietUpSweep | SortingAlgorithms.py:155-169 | An upward pass swaps nothing exactly when every adjacent pair of its range is strictly increasing (and none was swapped before). Such a pass leaves the data unchanged and records only compare/unmark pairs. |
| ShakerSorter.IncreasingShakerQuiet | SortingAlgorithms.py:143-189 | On strictly increasing input the data is returned unchanged. From four slots up, the trace is one quiet upward pass of n-1 compare/unmark pairs and the sort stops. There are no swaps and no marks. |
| ShakerSorter.Shaker | SortingAlgorithms.py:143-189 | Shaker sort as values. Inputs of at most three slots are returned unchanged with an empty trace. |
| ShakerSorter.FourReversedEndsUnsorted | SortingAlgorithms.py:151-186 | [4, 3, 2, 1] ends as [1, 3, 2, 4], which is not sorted. |
| ShakerSorter.CompareAndSwapDown | SortingAlgorithms.py:175-183 | The downward compare-and-swap on the array does what DownStep describes. |
| ShakerSorter.UpPass | SortingAlgorithms.py:155-166 | The in-place upward pass produces exactly UpSweep's data, trace and swap flag. |
| ShakerSorter.DownPass | SortingAlgorithms.py:172-183 | The in-place downward pass produces exactly DownSweep's data, trace and swap flag. |
| ShakerSorter.ShakerSort | SortingAlgorithms.py:143-189 | The array and trace are exactly Shaker's. The result is a permutation, and the trace replays to it. |
| CombSorter.ShrinkGap | SortingAlgorithms.py:206 | The next gap is floor(10h/13), the largest r with 13r <= 10h, and it is below h for every positive h. |
| CombSorter.CombStep | SortingAlgorithms.py:212-222 | One compare-and-swap across gap h keeps the number of slots. CompareAcrossGap proves the in-place step does exactly this. |
| CombSorter.GapSweep | SortingAlgorithms.py:211-222 | A gap-h pass keeps the number of slots. QuietSweep, IncreasingSweepQuiet and SweepRaisesWeight state what it does to the values. |
| CombSorter.QuietRun | SortingAlgorithms.py:211-222 | A swap-free pass over lo..hi-1 records two steps per slot. |
| CombSorter.QuietRunTally | SortingAlgorithms.py:211-222 | Those steps are one comparison and one unmark per slot and nothing else. |
| CombSorter.SweepStaysSwapped | SortingAlgorithms.py:211-222 | Once a pass has swapped, its swap flag stays set to the end of the pass. |
| CombSorter.QuietSweep | SortingAlgorithms.py:211-222 | A pass that swaps nothing leaves the data unchanged, records only compare/unmark pairs, and saw every pair h apart strictly in order. |
| CombSorter.IncreasingSweepQuiet | SortingAlgorithms.py:211-222 | Conversely, a pass over data whose pairs h apart are all strictly increasing swaps nothing. |
| CombSorter.SweepRaisesWeight | SortingAlgorithms.py:211-222 | On distinct values a pass keeps them distinct and never lowers the weight Σ k·a[k]. A pass that swaps raises it, so the gap-1 rounds end. |
| CombSorter.CompareAcrossGap | SortingAlgorithms.py:212-222 | Compares (i+h, i). On "less or equal" it records Mark(i) and swaps i with i+h, otherwise it records Unmark. |
| CombSorter.CombPass | SortingAlgorithms.py:211-222 | The in-place pass produces exactly GapSweep's data, trace and swap flag. |
| CombSorter.PassOutcome | SortingAlgorithms.py:204-222 | One pass over distinct values bounded by m keeps them distinct and bounded. If it swapped, it raised the weight. If not, the data is unchanged, the trace grew by a quiet run, and every pair h apart is strictly increasing. Strictly increasing data gives a swap-free pass. |
| CombSorter.Round | SortingAlgorithms.py:206-222 | A round as a value: the shrunk gap, at least 1, and the gap-h pass, which keeps the number of slots. |
| CombSorter.RoundOutcome | SortingAlgorithms.py:204-222 | On distinct values bounded by m, a round keeps them distinct and bounded. It shrinks a gap of 2 or more. From a gap of at most 2, a quiet round found neighbours strictly increasing and ends the trace with that pass, and a swapping round raises the weight. Strictly increasing data gives a quiet round. |
| CombSorter.CombRound | SortingAlgorithms.py:205-222 | The gap becomes exactly floor(h0/1.3), clamped at 1 (Round). The data and trace become exactly those of the gap-h pass, and the flag stays set exactly when the gap had reached 1 and the pass swapped nothing. The trace then ends with that quiet pass, and a swapping gap-1 round raises the weight. On strictly increasing data the round changes nothing and records one quiet run. |
| CombSorter.CombSort | SortingAlgorithms.py:192-225 | On distinct values: sorted and a permutation, and the trace replays to the result. The trace ends with a quiet gap-1 pass of n-1 compare/unmark pairs. On strictly increasing input it records no swap and no mark. |
| CombSorter.DuplicatesNeverSettle | SortingAlgorithms.py:204-222 | On any input with two equal values, the gap-1 pass swaps and leaves two equal values behind, so a swap-free gap-1 pass, the loop's only exit, never comes. |
| QuickSorter.JoinAroundPivot | SortingAlgorithms.py:277-280 | Two sorted sides around a pivot that bounds both make the whole range sorted. |
| QuickSorter.ScanUp | SortingAlgorithms.py:259-263 | Moves i up to the first slot whose value is at least the pivot. Every slot skipped is below the pivot. |
| QuickSorter.ScanDown | SortingAlgorithms.py:265-269 | Moves j down to a slot whose value is at most the pivot, or to i. Every slot skipped is above the pivot. |
| QuickSorter.Partition | SortingAlgorithms.py:246-276 | The pivot ends at some l <= i <= r, with data[l..i-1] <= pivot <= data[i+1..r]. Nothing outside l..r changes. |
| QuickSorter.Recursion | SortingAlgorithms.py:242-280 | Sorts data[l..r] in place and permutes the array, touching nothing outside the range. Records nothing when r <= l. |
| QuickSorter.QuickSort | SortingAlgorithms.py:228-239 | Sorted and a permutation, and the trace replays to the result. The trace holds only Focus, Mark, Comparison and Swap steps, and is empty for n <= 1. |
| PlainSorters.ScanPlain | Algorithms.py:140-144 | Finds the last position of the minimum of data[i..n-1], since it moves on "less or equal", with n-i-1 comparisons and no other step. |
| PlainSorters.SelectionSort | Algorithms.py:129-150 | Sorted and a permutation, and the trace replays to the result. The trace is exactly n(n-1)/2 comparisons and n swaps. |
| PlainSorters.QuietComparesTally | Algorithms.py:160-169 | A swap-free pass over 0..m records m comparisons and nothing else. |
| PlainSorters.CompareAndSwapPlain | Algorithms.py:163-166 | Compares (j+1, j) and swaps j with j+1 on "less or equal", recording only those two steps. |
| PlainSorters.PlainPassStep | Algorithms.py:162-166 | One comparison of the pass keeps the pass invariant: max carried up, suffix settled, only Comparison/Swap recorded. |
| PlainSorters.PlainPass | Algorithms.py:160-169 | Slot i ends with the maximum of data[0..i]. A swap-free pass saw strictly increasing data. On such data the pass records exactly i comparisons. |
| PlainSorters.BubbleSort | Algorithms.py:152-172 | Sorted and a permutation, and the trace replays to the result. It records only Comparison and Swap steps, and on strictly increasing input exactly n-1 comparisons. |
| Initiators.Ascending | Initiator.py:80-84 | SortedInitiator: element k is k+1, strictly increasing, a permutation of 1..n. |
| Initiators.Reverse | Initiator.py:33-37 | ReverseInitiator: element k is n-k, strictly decreasing, a permutation of 1..n. |
| Initiators.Permutation | Initiator.py:26-30 | PermutationInitiator: 1..n taken in the drawn order, a permutation of 1..n. |
| Initiators.Pigeonhole | Initiator.py:26-84 | n distinct values drawn from 1..n hold every value of 1..n, so "permutation of 1..n" is what every initiator's result is. |
| Initiators.Transposed | Initiator.py:49-54 | The ascending array with pos1 and pos2 exchanged. It differs from ascending exactly at those two slots and is a permutation of 1..n. |
| Initiators.TranspositionInit | Initiator.py:40-57 | Fails (the empty-range error) exactly when n < 3. Otherwise it returns the transposition of the drawn pos1 < pos2 <= n-2, so the last slot keeps n. |
| Initiators.Shuffled | Initiator.py:71-74 | Ascending outside [pos, pos+length); inside, only values from the section's own range (pos, pos+length]. A permutation of 1..n. |
| Initiators.LocalInit | Initiator.py:60-77 | Fails exactly when the range for pos is empty (n - floor(n/r) <= 1). Otherwise it returns the shuffled array, whose section stays clear of the last slot. |
| TraceCursor.Next | Data.py:24-27 | When a step follows the index, moves onto it and returns it. Otherwise returns nothing and stays. The index stays in [-1, len-1]. |
| TraceCursor.Previous | Data.py:29-34 | When the index is on a step, returns that step and moves back one. At -1 returns nothing and stays. |
| TraceCursor.Checkout | Data.py:42-44 | Returns a step exactly when the index is not -1. |
| TraceCursor.NextThenPrevious | Data.py:24-34 | A get_previous_steps after a get_next_step returns the same step and restores the index. |
| TraceCursor.PreviousThenNext | Data.py:24-34 | A get_next_step after a get_previous_steps returns the same step and restores the index. |
| TraceCursor.CheckoutLooksTwoBack | Data.py:42-44 | Past slot 0 checkout shows what a second get_previous_steps would return. On slot 0 it shows the last step, where a second move back returns nothing. |
| TraceCursor.Drain | Data.py:24-37 | Calling get_next_step until it returns nothing yields one step per slot after the index. |
| TraceCursor.DrainReturnsRest | Data.py:24-37 | Repeated get_next_step from index returns every later step once, in order. From a fresh cursor that is the whole trace. |
| TraceCursor.SessionTallyCounts | Worker.py:111-165 | The counts a session keeps step by step equal the per-kind tally of the trace slots it consumed. |
| DataCursor.Data.constructor | Data.py:11-19 | Keeps the initiator's array unchanged and starts at index -1. Replaying the trace on it gives a sorted array for every sorter but shaker sort, whose trace is Shaker's. |
| DataCursor.Data.NextStepAvailable | Data.py:36-37 | True exactly when get_next_step would return a step. |
| DataCursor.Data.PreviousStepAvailable | Data.py:39-40 | True exactly when get_previous_steps would return a step. |
| DataCursor.Data.GetNextStep | Data.py:24-27 | Moves and returns as Next does; the index stays valid. |
| DataCursor.Data.GetPreviousSteps | Data.py:29-34 | Moves and returns as Previous does; the index stays valid. |
| DataCursor.Data.CheckoutPreviousStep | Data.py:42-44 | Returns Checkout's step and does not move. |
| VisualizationDataCursor.Raising | VisualizationData.py:15-29 | A move succeeds exactly when it yields a step. Otherwise it raises StopIteration. |
| VisualizationDataCursor.VisualizationData.constructor | VisualizationData.py:5-13 | Keeps the initial array unchanged and starts at index -1. Replaying the trace on it gives a sorted array. |
| VisualizationDataCursor.VisualizationData.NextStepAvailable | VisualizationData.py:31-32 | True exactly when get_next_step would not raise. |
| VisualizationDataCursor.VisualizationData.PreviousStepAvailable | VisualizationData.py:34-35 | True exactly when get_previous_steps would not raise. |
| VisualizationDataCursor.VisualizationData.GetNextStep | VisualizationData.py:15-20 | Moves as Next does. Returns its step, or raises StopIteration at the end. |
| VisualizationDataCursor.VisualizationData.GetPreviousSteps | VisualizationData.py:22-29 | Moves as Previous does. Returns its step, or raises StopIteration at -1. |
| VisualizationDataCursor.VisualizationData.CheckoutPreviousStep | VisualizationData.py:37-39 | Returns Checkout's step (nothing at -1, the last step at 0) and does not move. |
| PlaybackWorker.StepCalls | Worker.py:111-165 | The requests that show one step never include the end-of-session report. |
| PlaybackWorker.Played | Worker.py:96-105 | The loop's requests over several steps never include the end-of-session report. |
| PlaybackWorker.Worker.constructor | Worker.py:11-48 | No cursor bound, counters at 0, stop flag clear, the given delay. |
| PlaybackWorker.Worker.InitiateVisualization | Worker.py:50-67 | Binds the cursor and sets the three counters to 0. Reports each counter once, then has the diagram create slots from the initial data. |
| PlaybackWorker.Worker.PauseVisualization | Worker.py:77-79 | Sets the stop flag. |
| PlaybackWorker.Worker.SetDelay | Worker.py:93-94 | Sets the delay. |
| PlaybackWorker.Worker.VisualizeStep | Worker.py:111-165 | A Comparison, Swap or Replace raises its own counter by one and reports the new value. Other kinds leave the counters alone. Returns the step's delay flag. |
| PlaybackWorker.Worker.FinishVisualization | Worker.py:167-172 | Clears the diagram, then reports that no step is left. |
| PlaybackWorker.Worker.VisualizeNextStep | Worker.py:81-91 | A no-op when no step is left. Otherwise consumes exactly one step and shows it with the session's counts. Ends the session when that step was the last, which keeps the end reported exactly once. |
| PlaybackWorker.Worker.ShowNextAndWait | Worker.py:103-105 | One loop iteration: consumes and shows the next step, then sleeps only if its delay flag is set. The counters stay the session's tally. |
| PlaybackWorker.Worker.EndIfExhausted | Worker.py:107-109 | After the loop, ends the session exactly when no step is left. |
| PlaybackWorker.Worker.VisualizeSteps | Worker.py:96-109 | The loop stops at the pause or the end of the trace, and the stop flag is set exactly when the pause came first. The requests are the steps shown in order, plus the end of the session when the trace ran out. |
| PlaybackWorker.Worker.StartVisualization | Worker.py:69-75 | A no-op when the trace is exhausted. Otherwise clears the stop flag and runs the loop. |
| VisualizationPlayback.Reports | VisualizationWorker.py:126-141 | A Comparison or a Swap reports one count and other kinds report nothing, never the end of the session. |
| VisualizationPlayback.Bump | VisualizationWorker.py:126-141 | A Comparison moves only the comparison counter by the increment, a Swap only the swap counter. Every other kind leaves both alone. |
| VisualizationPlayback.BumpCounts | VisualizationWorker.py:126-141 | An update by 1 from a tally's comparison and swap counts gives those of the tally with the step counted. |
| VisualizationPlayback.DiagramCalls | VisualizationWorker.py:102-112 | Comparison, Swap, Mark and Focus each ask the diagram for exactly one thing. Every other kind asks for nothing. |
| VisualizationPlayback.Stepped | VisualizationWorker.py:70-87 | The requests for one consumed step include the end-of-session report exactly when the step is the last. |
| VisualizationPlayback.SteppedReportsOnce | VisualizationWorker.py:85-87 | One step reports the end of the session once if it is the last step, and never otherwise. |
| VisualizationPlayback.Looped | VisualizationWorker.py:89-100 | The loop's requests include the end-of-session report exactly when the loop consumed the last step. |
| VisualizationPlayback.LoopedReportsOnce | VisualizationWorker.py:89-100 | However far the loop runs, the end of the session is reported at most once. |
| VisualizationPlayback.VisualizationWorker.constructor | VisualizationWorker.py:11-41 | No cursor bound, counters at 0, stop flag clear, the given delay. |
| VisualizationPlayback.VisualizationWorker.InitiateVisualization | VisualizationWorker.py:43-56 | Binds the cursor, sets both counters to 0, reports each, then asks for the bars of the initial data. |
| VisualizationPlayback.VisualizationWorker.PauseVisualization | VisualizationWorker.py:66-68 | Sets the stop flag. |
| VisualizationPlayback.VisualizationWorker.SetDelay | VisualizationWorker.py:143-144 | Sets the delay. |
| VisualizationPlayback.VisualizationWorker.VisualizeStep | VisualizationWorker.py:102-112 | Asks the diagram for what DiagramCalls gives and does not touch the counters. |
| VisualizationPlayback.VisualizationWorker.UpdateComparisonAndSwapCount | VisualizationWorker.py:126-141 | Moves the comparison counter (Comparison) or the swap counter (Swap) by increment and reports it. Other kinds change nothing. |
| VisualizationPlayback.VisualizationWorker.CleanUpVisualization | VisualizationWorker.py:121-124 | Unhighlights, unmarks and unfocuses, in that order. |
| VisualizationPlayback.VisualizationWorker.FinishVisualization | VisualizationWorker.py:114-119 | Cleans up, then reports that no step is left. |
| VisualizationPlayback.VisualizationWorker.VisualizeNextStep | VisualizationWorker.py:70-87 | A no-op when no step is left. Otherwise consumes exactly one step, shows it, counts it by one, and ends the session when it was the last. The counters stay the session's comparison and swap tally. |
| VisualizationPlayback.VisualizationWorker.ShowNextAndSleep | VisualizationWorker.py:96-100 | One loop iteration: visualize_next_step, then a sleep regardless of any delay flag. |
| VisualizationPlayback.VisualizationWorker.VisualizeSteps | VisualizationWorker.py:89-100 | The loop stops at the pause or the end of the trace, and the stop flag is set exactly when the pause came first. The requests are the steps shown in order, each followed by a sleep. |
| VisualizationPlayback.VisualizationWorker.StartVisualization | VisualizationWorker.py:58-64 | A no-op when the trace is exhausted. Otherwise clears the stop flag and runs the loop. |

## Left out

- Threads: both players start `_visualize_steps` and, in Worker.py, `_visualize_step` on threads. Here they run in line, in program order. In particular, `visualize_next_step` of Worker.py may report the end of the session before its thread has shown the step; the model shows the step first.
- The unsynchronised stop flag: the point at which the user pauses is the parameter `pauseBefore` of the loop, an iteration number, rather than an arbitrary interleaving.
- `stepwise` of VisualizationWorker.visualize_next_step only chooses whether `_visualize_step` runs on a thread. With threads left out it changes nothing, so it is not a parameter.
- `time.sleep` and the clock: a sleep is the request `Sleep(delay)` in the log. The delay is an opaque `real` that the model passes through.
- The diagrams (Diagram.py, VisualizationDiagram.py) and the views (View.py, VisualizationView.py): canvas drawing, pixel geometry, widgets and the floating-point speed mapping are not part of this model. The players' requests to them are recorded as values.
- `setup_bars` (VisualizationWorker.py:56) is a method the diagram does not define. It is recorded as the request `SetupBars` like any other.
- numpy's randomness: every random draw of the initiators is a parameter, constrained to the range the call draws from. An empty `randint` range is the error result `EmptyRange`.
- Initiators.TranspositionInit: requires its draws to lie in the ranges `randint` would draw them from, when n >= 3.
- Initiators.LocalInit: requires its divisor in 2..6, its start in the drawn range and its order to be a permutation of the section, as the numpy calls guarantee.
- Comb sort's shrink factor 1.3 is a float. The model uses the exact floor(10h/13); they differ only where h/1.3 lies within a rounding error of an integer.
- CombSorter.CombSort: requires pairwise distinct values, because the source's gap-1 pass swaps equal neighbours on every pass and never ends on them (CombSorter.DuplicatesNeverSettle).
- ShakerSorter.ShakerSort: states the exact data and trace rather than sortedness, because the source does not sort every input (ShakerSorter.FourReversedEndsUnsorted).
- Python class identity: Sorter.py and Algorithms.py declare step classes of their own, distinct from SortingSteps.py's. All are one `Step` datatype here. Taken literally, the `match type(step)` of Worker.py:113-161 compares against SortingSteps.py's classes, while the sorters it plays (SortingAlgorithms.py:3 imports Sorter.py's recorder) record Sorter.py's. No case would then match, and no step would be shown or counted. The model follows the annotations instead (Data.py:16 and Worker.py:111 type the trace and the step as SortingSteps.Step): every step is matched by its kind.
  - Sorter.py's Mark has no `multiple`; it is `multiple = false`.
  - Algorithms.py's steps have no delay; they are `delay = true`, which the second player never reads.
- The class-level shared `Sorter.steps` list and its aliasing between sorts and cursors: each sort records into a fresh recorder and returns the trace as a value.
- The `Data` and `VisualizationData` constructors take the initiator's output and a sorter choice (`Engine`) rather than the initiator and sorter objects. The initiators are modelled separately.
- Heap, merge and radix sort are named by the view but are not part of this model. No sorter here records Replace or Unreplace steps.
- DataCursor.Data.constructor: requires distinct values for comb sort, as CombSorter.CombSort does.
- The players' request log `calls` is a session log: InitiateVisualization starts a new one rather than appending to the previous session's requests.
