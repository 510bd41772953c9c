/**
 * The trace cursor of the first player (Data.py): the initiator's array, the trace a
 * sorter records on a copy of it, and a replay index moved by get_next_step and
 * get_previous_steps as TraceCursor describes.
 */
module DataCursor {
  import opened Wrappers
  import opened SortingSteps
  import opened Ordering
  import opened TraceCursor
  import SelectionSorter
  import InsertionSorter
  import ShellSorter
  import BubbleSorter
  import ShakerSorter
  import CombSorter
  import QuickSorter

  /** The sorters of SortingAlgorithms.py a cursor can be built with. */
  datatype Engine = Selection | Insertion | Shell | Bubble | Shaker | Comb | Quick

  class Data {
    /** What the initiator produced; sorting works on a copy, so this never changes. */
    const initialData: seq<int>
    const steps: seq<Step>
    var index: int

    ghost predicate Valid()
      reads this
    {
      ValidIndex(steps, index)
    }

    /**
     * Record the trace of `engine` on a copy of the initiator's output `initial` and
     * start before the first step. The initial data is kept as it was, and replaying
     * the trace on it gives what the sorter produced: a sorted array for every engine
     * but shaker sort, whose result is ShakerSorter.Shaker's.
     */
    constructor(initial: seq<int>, engine: Engine)
      requires engine == Comb ==> Distinct(initial)
      ensures Valid() && index == -1
      ensures initialData == initial
      ensures engine != Shaker ==> Sorted(Replay(initial, steps))
      ensures engine == Shaker ==> steps == ShakerSorter.Shaker(initial).1
    {
      var copy := new int[|initial|];
      forall k | 0 <= k < |initial| {
        copy[k] := initial[k];
      }
      assert copy[..] == initial;
      var trace: seq<Step>;
      match engine {
        case Selection => trace := SelectionSorter.SelectionSort(copy);
        case Insertion => trace := InsertionSorter.InsertionSort(copy);
        case Shell => trace := ShellSorter.ShellSort(copy);
        case Bubble => trace := BubbleSorter.BubbleSort(copy);
        case Shaker => trace := ShakerSorter.ShakerSort(copy);
        case Comb => trace := CombSorter.CombSort(copy);
        case Quick => trace := QuickSorter.QuickSort(copy);
      }
      initialData := initial;
      steps := trace;
      index := -1;
    }

    /** next_step_available: exactly when get_next_step would return a step. */
    predicate NextStepAvailable()
      requires Valid()
      reads this
      ensures NextStepAvailable() <==> Next(steps, index).1.Some?
    {
      index < |steps| - 1
    }

    /** previous_step_available: exactly when get_previous_steps would return a step. */
    predicate PreviousStepAvailable()
      requires Valid()
      reads this
      ensures PreviousStepAvailable() <==> Previous(steps, index).1.Some?
    {
      index >= 0
    }

    /** get_next_step: advance onto the next step and return it, or return None at the end. */
    method GetNextStep() returns (step: Option<Step>)
      requires Valid()
      modifies this
      ensures Valid()
      ensures (index, step) == Next(steps, old(index))
    {
      if NextStepAvailable() {
        index := index + 1;
        step := Some(steps[index]);
      } else {
        step := None;
      }
    }

    /** get_previous_steps: return the current step and move back, or return None at -1. */
    method GetPreviousSteps() returns (step: Option<Step>)
      requires Valid()
      modifies this
      ensures Valid()
      ensures (index, step) == Previous(steps, old(index))
    {
      if PreviousStepAvailable() {
        var current := steps[index];
        index := index - 1;
        step := Some(current);
      } else {
        step := None;
      }
    }

    /** checkout_previous_step: read the step before the current one without moving. */
    method CheckoutPreviousStep() returns (step: Option<Step>)
      requires Valid()
      ensures step == Checkout(steps, index)
    {
      if PreviousStepAvailable() {
        step := Some(steps[if index == 0 then |steps| - 1 else index - 1]);
      } else {
        step := None;
      }
    }
  }
}
