/**
 * The trace cursor of the second player (VisualizationData.py): as DataCursor.Data,
 * built with the sorters of Algorithms.py, except that moving past either end raises
 * StopIteration instead of returning None.
 */
module VisualizationDataCursor {
  import opened Wrappers
  import opened SortingSteps
  import opened Ordering
  import opened TraceCursor
  import PlainSorters
  import QuickSorter

  /** The sorters of Algorithms.py a cursor can be built with. */
  datatype Engine = Selection | Bubble | Quick

  /** Python's StopIteration, raised when the cursor cannot move. */
  datatype StopIteration = StopIteration

  /** A cursor move that returns nothing raises instead. */
  function Raising(step: Option<Step>): (r: Result<Step, StopIteration>)
    ensures r.Ok? <==> step.Some?
    ensures r.Ok? ==> step == Some(r.value)
  {
    match step
    case Some(s) => Ok(s)
    case None => Err(StopIteration)
  }

  class VisualizationData {
    /** What the initiator produced; sorting works on a copy, so this never changes. */
    const initialData: seq<int>
    const steps: seq<Step>
    var index: int

    ghost predicate Valid()
      reads this
    {
      ValidIndex(steps, index)
    }

    /**
     * Record the trace of `engine` on a copy of the initiator's output `initial` and
     * start before the first step; the initial data is kept as it was and replaying the
     * trace on it gives a sorted array.
     */
    constructor(initial: seq<int>, engine: Engine)
      ensures Valid() && index == -1
      ensures initialData == initial
      ensures Sorted(Replay(initial, steps))
    {
      var copy := new int[|initial|];
      forall k | 0 <= k < |initial| {
        copy[k] := initial[k];
      }
      assert copy[..] == initial;
      var trace: seq<Step>;
      match engine {
        case Selection => trace := PlainSorters.SelectionSort(copy);
        case Bubble => trace := PlainSorters.BubbleSort(copy);
        case Quick => trace := QuickSorter.QuickSort(copy);
      }
      initialData := initial;
      steps := trace;
      index := -1;
    }

    /** next_step_available: exactly when get_next_step would not raise. */
    predicate NextStepAvailable()
      requires Valid()
      reads this
      ensures NextStepAvailable() <==> Next(steps, index).1.Some?
    {
      index < |steps| - 1
    }

    /** previous_step_available: exactly when get_previous_steps would not raise. */
    predicate PreviousStepAvailable()
      requires Valid()
      reads this
      ensures PreviousStepAvailable() <==> Previous(steps, index).1.Some?
    {
      index >= 0
    }

    /** get_next_step: advance onto the next step and return it, or raise at the end. */
    method GetNextStep() returns (r: Result<Step, StopIteration>)
      requires Valid()
      modifies this
      ensures Valid()
      ensures index == Next(steps, old(index)).0 && r == Raising(Next(steps, old(index)).1)
    {
      if NextStepAvailable() {
        index := index + 1;
        r := Ok(steps[index]);
      } else {
        r := Err(StopIteration);
      }
    }

    /** get_previous_steps: return the current step and move back, or raise at -1. */
    method GetPreviousSteps() returns (r: Result<Step, StopIteration>)
      requires Valid()
      modifies this
      ensures Valid()
      ensures index == Previous(steps, old(index)).0 && r == Raising(Previous(steps, old(index)).1)
    {
      if PreviousStepAvailable() {
        var current := steps[index];
        index := index - 1;
        r := Ok(current);
      } else {
        r := Err(StopIteration);
      }
    }

    /** checkout_previous_step: read the step before the current one without moving; None at -1. */
    method CheckoutPreviousStep() returns (step: Option<Step>)
      requires Valid()
      ensures step == Checkout(steps, index)
    {
      if PreviousStepAvailable() {
        step := Some(steps[if index == 0 then |steps| - 1 else index - 1]);
      } else {
        step := None;
      }
    }
  }
}
