/**
 * The first player (Worker.py): it binds a DataCursor.Data, shows its steps one at a
 * time or in a continuous loop, and keeps the comparison, swap and replace counters of
 * the session. The diagram, the four callbacks and the clock are not modelled; what
 * the worker asks of them is recorded, in order, in `calls`. The loop runs on a thread
 * in the source and here runs in line; the point at which the user pauses it is a
 * parameter.
 */
module PlaybackWorker {
  import opened Wrappers
  import opened SortingSteps
  import opened TraceCursor
  import opened DataCursor

  /** A request to the diagram (Diagram.py), to one of the callbacks, or to the clock. */
  datatype Call =
    | CreateSlots(values: seq<int>)
    | CompareSlots(step: Step)
    | SwapSlots(step: Step)
    | MarkSlot(step: Step)
    | UnmarkSlots
    | FocusSlots(step: Step)
    | UnfocusSlots
    | ReplaceSlot(step: Step)
    | UnreplaceSlots
    | CleanSlots
    | ComparisonCount(count: int)
    | SwapCount(count: int)
    | ReplaceCount(count: int)
    | NoNextStep
    | Sleep(seconds: real)

  /**
   * The requests that show `step` when the counters stand at `c` once it is counted:
   * the diagram call of its kind and, for the three counted kinds, the new count.
   */
  function StepCalls(step: Step, c: Tally): (r: seq<Call>)
    ensures NoNextStep !in r
  {
    match step
    case Comparison(_, _, _) => [CompareSlots(step), ComparisonCount(c.comparisons)]
    case Swap(_, _, _) => [SwapSlots(step), SwapCount(c.swaps)]
    case Mark(_, _, _) => [MarkSlot(step)]
    case Unmark(_) => [UnmarkSlots]
    case Focus(_, _, _) => [FocusSlots(step)]
    case Unfocus(_) => [UnfocusSlots]
    case Replace(_, _, _) => [ReplaceSlot(step), ReplaceCount(c.replacements)]
    case Unreplace(_) => [UnreplaceSlots]
  }

  /** The end of a session: clear the diagram, then report that no step is left. */
  const FinishCalls: seq<Call> := [CleanSlots, NoNextStep]

  /**
   * What the continuous loop asks for when it consumes slot k of a session that began
   * after slot `start`: the step shown with the session's counts up to it, then a sleep
   * of `delay` when the step's flag asks for one.
   */
  function Shown(steps: seq<Step>, start: int, k: int, delay: real): (r: seq<Call>)
    requires -1 <= start < k < |steps|
    ensures NoNextStep !in r
  {
    StepCalls(steps[k], SessionTally(steps, start, k)) + if steps[k].delay then [Sleep(delay)] else []
  }

  /** What the continuous loop asks for while it consumes the slots lo+1..hi, in order. */
  function Played(steps: seq<Step>, start: int, lo: int, hi: int, delay: real): (r: seq<Call>)
    requires -1 <= start <= lo <= hi < |steps|
    ensures NoNextStep !in r
    decreases hi - lo
  {
    if hi == lo then [] else Played(steps, start, lo, hi - 1, delay) + Shown(steps, start, hi, delay)
  }

  lemma PlayedExtend(prefix: seq<Call>, steps: seq<Step>, start: int, lo: int, hi: int, delay: real)
    requires -1 <= start <= lo <= hi < |steps| - 1
    ensures prefix + Played(steps, start, lo, hi, delay) + Shown(steps, start, hi + 1, delay)
            == prefix + Played(steps, start, lo, hi + 1, delay)
  {
  }

  /** The calls end with the end of the session, reported there and nowhere before. */
  predicate Reported(calls: seq<Call>)
  {
    |calls| >= 2 && calls[|calls| - 2..] == FinishCalls && NoNextStep !in calls[..|calls| - 2]
  }

  /** Ending a session that had not reported its end reports it once. */
  lemma FinishReports(calls: seq<Call>)
    requires NoNextStep !in calls
    ensures Reported(calls + FinishCalls)
  {
    assert (calls + FinishCalls)[..|calls|] == calls;
  }

  class Worker {
    var data: Data?
    var comparisonCount: int
    var swapCount: int
    var replaceCount: int
    var stopThread: bool
    var delay: real
    /** The requests of the current session, in order. */
    var calls: seq<Call>
    /** The cursor index when the session began. */
    ghost var start: int

    /** The three counters stand at the counts of `t`. */
    ghost predicate Counts(t: Tally)
      reads this`comparisonCount, this`swapCount, this`replaceCount
    {
      comparisonCount == t.comparisons && swapCount == t.swaps && replaceCount == t.replacements
    }

    /** The session has consumed its last step. */
    ghost predicate Finished()
      requires data != null
      reads this, data
    {
      start < data.index == |data.steps| - 1
    }

    /**
     * Once a cursor is bound: each counter counts the steps of its kind consumed in the
     * session, and the end of the session has been reported exactly once if the
     * session consumed the last step, and never otherwise.
     */
    ghost predicate Valid()
      reads this, data
    {
      data != null ==>
        data.Valid() && -1 <= start <= data.index &&
        Counts(SessionTally(data.steps, start, data.index)) &&
        if Finished() then Reported(calls) else NoNextStep !in calls
    }

    /** A worker with no cursor bound yet. */
    constructor(delay: real)
      ensures Valid() && data == null && Counts(NoSteps) && !stopThread
      ensures this.delay == delay && calls == []
    {
      data := null;
      comparisonCount, swapCount, replaceCount := 0, 0, 0;
      stopThread := false;
      this.delay := delay;
      calls := [];
      start := -1;
    }

    /**
     * initiate_visualization: bind `d`, set the three counters to 0, report each, and
     * have the diagram build its slots from the initial data.
     */
    method InitiateVisualization(d: Data)
      requires d.Valid()
      modifies this
      ensures Valid() && data == d && start == d.index && Counts(NoSteps)
      ensures calls == [ComparisonCount(0), SwapCount(0), ReplaceCount(0), CreateSlots(d.initialData)]
      ensures stopThread == old(stopThread) && delay == old(delay)
    {
      data := d;
      start := d.index;
      comparisonCount, swapCount, replaceCount := 0, 0, 0;
      calls := [ComparisonCount(comparisonCount), SwapCount(swapCount), ReplaceCount(replaceCount)];
      calls := calls + [CreateSlots(data.initialData)];
    }

    /** pause_visualization: ask the loop to stop before its next step. */
    method PauseVisualization()
      modifies this`stopThread
      ensures stopThread
    {
      stopThread := true;
    }

    /** set_delay: the pause after a step whose flag asks for one. */
    method SetDelay(delay: real)
      modifies this`delay
      ensures this.delay == delay
    {
      this.delay := delay;
    }

    /**
     * _visualize_step: ask the diagram to show `step`; a Comparison, Swap or Replace
     * raises its counter by one and reports the new count, every other kind leaves
     * the counters alone. Returns the step's delay flag.
     */
    method VisualizeStep(step: Step, ghost before: Tally) returns (wait: bool)
      requires Counts(before)
      modifies this`calls, this`comparisonCount, this`swapCount, this`replaceCount
      ensures Counts(Tick(before, step))
      ensures calls == old(calls) + StepCalls(step, Tick(before, step))
      ensures wait == step.delay
    {
      match step {
        case Comparison(_, _, _) =>
          calls := calls + [CompareSlots(step)];
          comparisonCount := comparisonCount + 1;
          calls := calls + [ComparisonCount(comparisonCount)];
        case Swap(_, _, _) =>
          calls := calls + [SwapSlots(step)];
          swapCount := swapCount + 1;
          calls := calls + [SwapCount(swapCount)];
        case Mark(_, _, _) =>
          calls := calls + [MarkSlot(step)];
        case Unmark(_) =>
          calls := calls + [UnmarkSlots];
        case Focus(_, _, _) =>
          calls := calls + [FocusSlots(step)];
        case Unfocus(_) =>
          calls := calls + [UnfocusSlots];
        case Replace(_, _, _) =>
          calls := calls + [ReplaceSlot(step)];
          replaceCount := replaceCount + 1;
          calls := calls + [ReplaceCount(replaceCount)];
        case Unreplace(_) =>
          calls := calls + [UnreplaceSlots];
      }
      wait := step.delay;
    }

    /** _finish_visualization: clear the diagram and report that no step is left. */
    method FinishVisualization()
      modifies this`calls
      ensures calls == old(calls) + FinishCalls
    {
      calls := calls + [CleanSlots];
      calls := calls + [NoNextStep];
    }

    /**
     * visualize_next_step: nothing when the trace is exhausted; otherwise consume
     * exactly one step and show it, and when it was the last one, end the session.
     */
    method VisualizeNextStep()
      requires Valid() && data != null
      modifies this`calls, this`comparisonCount, this`swapCount, this`replaceCount, data
      ensures Valid()
      ensures !old(data.NextStepAvailable()) ==>
                data.index == old(data.index) && calls == old(calls) &&
                unchanged(this`comparisonCount, this`swapCount, this`replaceCount)
      ensures old(data.NextStepAvailable()) ==>
                data.index == old(data.index) + 1 &&
                calls == old(calls) + StepCalls(data.steps[data.index], SessionTally(data.steps, start, data.index))
                         + if data.index == |data.steps| - 1 then FinishCalls else []
    {
      if data.NextStepAvailable() {
        ghost var before := SessionTally(data.steps, start, data.index);
        var step := data.GetNextStep();
        var _ := VisualizeStep(step.value, before);
        if !data.NextStepAvailable() {
          FinishVisualization();
        }
      }
    }

    /**
     * The continuous loop, under way since slot i0 when the calls stood at c0: the
     * counters count the session's steps so far, and the calls since c0 show the steps
     * after slot i0 in order.
     */
    ghost predicate Playing(c0: seq<Call>, i0: int)
      reads this, data
    {
      data != null && data.Valid() && -1 <= start <= i0 <= data.index &&
      Counts(SessionTally(data.steps, start, data.index)) &&
      calls == c0 + Played(data.steps, start, i0, data.index, delay)
    }

    /**
     * The body of the continuous loop: consume the next step and show it, then sleep
     * when its flag asks for it.
     */
    method ShowNextAndWait(ghost c0: seq<Call>, ghost i0: int)
      requires Playing(c0, i0) && data.index < |data.steps| - 1
      modifies this`calls, this`comparisonCount, this`swapCount, this`replaceCount, data
      ensures Playing(c0, i0) && data.index == old(data.index) + 1
    {
      ghost var steps, i := data.steps, data.index;
      ghost var before := SessionTally(steps, start, i);
      PlayedExtend(c0, steps, start, i0, i, delay);
      var step := data.GetNextStep();
      assert SessionTally(steps, start, i + 1) == Tick(before, step.value);
      var wait := VisualizeStep(step.value, before);
      if wait {
        calls := calls + [Sleep(delay)];
      }
    }

    /** The end of _visualize_steps: end the session if no step is left. */
    method EndIfExhausted(ghost c0: seq<Call>, ghost i0: int)
      requires Playing(c0, i0) && NoNextStep !in c0
      requires data.index == |data.steps| - 1 ==> start < data.index
      modifies this`calls
      ensures Valid()
      ensures calls == old(calls) + if data.index == |data.steps| - 1 then FinishCalls else []
    {
      if !data.NextStepAvailable() {
        FinishReports(calls);
        FinishVisualization();
      }
    }

    /**
     * _visualize_steps: while a step is left, check the stop flag, then consume and
     * show the next step and sleep if its flag asks for it; at the end of the trace,
     * end the session. The user pauses (sets the stop flag) just before the check of
     * iteration `pauseBefore`, if the loop gets that far. Returns with the steps up
     * to slot min(start index + pauseBefore, last) consumed and shown.
     */
    method VisualizeSteps(pauseBefore: nat)
      requires Valid() && data != null && data.NextStepAvailable() && !stopThread
      modifies this`calls, this`comparisonCount, this`swapCount, this`replaceCount, this`stopThread, data
      ensures Valid()
      ensures data.index == if old(data.index) + pauseBefore < |data.steps| - 1
                            then old(data.index) + pauseBefore else |data.steps| - 1
      ensures stopThread <==> old(data.index) + pauseBefore < |data.steps| - 1
      ensures calls == old(calls) + Played(data.steps, start, old(data.index), data.index, delay)
                       + if data.index == |data.steps| - 1 then FinishCalls else []
    {
      ghost var i0, c0 := data.index, calls;
      var k := 0;
      while data.NextStepAvailable()
        invariant Playing(c0, i0) && data.index == i0 + k && k <= pauseBefore && !stopThread
        decreases |data.steps| - data.index
      {
        if k == pauseBefore {
          PauseVisualization();
        }
        if stopThread {
          break;
        }
        ShowNextAndWait(c0, i0);
        k := k + 1;
      }
      EndIfExhausted(c0, i0);
    }

    /**
     * start_visualization: nothing when the trace is exhausted; otherwise clear the
     * stop flag and run the loop.
     */
    method StartVisualization(pauseBefore: nat)
      requires Valid() && data != null
      modifies this`calls, this`comparisonCount, this`swapCount, this`replaceCount, this`stopThread, data
      ensures Valid()
      ensures old(data.index) <= data.index
      ensures !old(data.NextStepAvailable()) ==>
                data.index == old(data.index) && calls == old(calls) && stopThread == old(stopThread)
      ensures old(data.NextStepAvailable()) ==>
                (stopThread <==> old(data.index) + pauseBefore < |data.steps| - 1) &&
                calls == old(calls) + Played(data.steps, start, old(data.index), data.index, delay)
                         + if data.index == |data.steps| - 1 then FinishCalls else []
    {
      if data.NextStepAvailable() {
        stopThread := false;
        VisualizeSteps(pauseBefore);
      }
    }
  }
}
