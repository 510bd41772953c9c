/**
 * The second player (VisualizationWorker.py): it binds a
 * VisualizationDataCursor.VisualizationData, shows its steps one at a time or in a
 * continuous loop, and keeps a comparison and a swap counter. The diagram
 * (VisualizationDiagram.py), the three callbacks and the clock are not modelled; what
 * the worker asks of them is recorded, in order, in `calls`. The loop runs on a thread
 * in the source and here runs in line; the point at which the user pauses it is a
 * parameter.
 */
module VisualizationPlayback {
  import opened Wrappers
  import opened SortingSteps
  import opened TraceCursor
  import opened VisualizationDataCursor

  /** A request to the diagram, to one of the callbacks, or to the clock. */
  datatype Call =
    | SetupBars(values: seq<int>)
    | HighlightSlots(pos1: int, pos2: int)
    | SwapSlots(pos1: int, pos2: int)
    | MarkSlot(pos: int)
    | FocusSlots(fromPos: int, toPos: int)
    | UnhighlightSlots
    | UnmarkSlot
    | UnfocusSlots
    | ComparisonCount(count: int)
    | SwapCount(count: int)
    | NoNextStep
    | Sleep(seconds: real)

  /** The two counters of this player. */
  datatype Counters = Counters(comparisons: int, swaps: int)

  /** The counters that stand for the Comparison and Swap counts of `t`. */
  function CountersOf(t: Tally): Counters
  {
    Counters(t.comparisons, t.swaps)
  }

  /**
   * update_comparison_and_swap_count on values: a Comparison moves the comparison
   * counter by `increment`, a Swap the swap counter; other kinds change nothing.
   */
  function Bump(c: Counters, step: Step, increment: int): (r: Counters)
    ensures step.Comparison? ==> r.swaps == c.swaps && r.comparisons == c.comparisons + increment
    ensures step.Swap? ==> r.comparisons == c.comparisons && r.swaps == c.swaps + increment
    ensures !(step.Comparison? || step.Swap?) ==> r == c
  {
    match step
    case Comparison(_, _, _) => c.(comparisons := c.comparisons + increment)
    case Swap(_, _, _) => c.(swaps := c.swaps + increment)
    case _ => c
  }

  /** The count reported after a Comparison or a Swap moved the counters to `c`; nothing otherwise. */
  function Reports(c: Counters, step: Step): (r: seq<Call>)
    ensures NoNextStep !in r
    ensures |r| <= 1
  {
    match step
    case Comparison(_, _, _) => [ComparisonCount(c.comparisons)]
    case Swap(_, _, _) => [SwapCount(c.swaps)]
    case _ => []
  }

  /**
   * Moving the counters by one for a step counts it: starting from the Comparison and
   * Swap counts of `t`, the result is those of `t` with the step tallied.
   */
  lemma BumpCounts(t: Tally, step: Step)
    ensures Bump(CountersOf(t), step, 1) == CountersOf(Tick(t, step))
  {
  }

  /**
   * _visualize_step: what the diagram is asked to show for `step`. Comparison, Swap,
   * Mark and Focus each have one request, carrying the step's positions; every other
   * kind shows nothing.
   */
  function DiagramCalls(step: Step): (r: seq<Call>)
    ensures NoNextStep !in r
    ensures |r| <= 1
    ensures r == [] <==> !(step.Comparison? || step.Swap? || step.Mark? || step.Focus?)
  {
    match step
    case Comparison(_, p1, p2) => [HighlightSlots(p1, p2)]
    case Swap(_, p1, p2) => [SwapSlots(p1, p2)]
    case Mark(_, p, _) => [MarkSlot(p)]
    case Focus(_, p1, p2) => [FocusSlots(p1, p2)]
    case _ => []
  }

  /** clean_up_visualization's three requests. */
  const CleanUpCalls: seq<Call> := [UnhighlightSlots, UnmarkSlot, UnfocusSlots]

  /** _finish_visualization: clean up, then report that no step is left. */
  const FinishCalls: seq<Call> := CleanUpCalls + [NoNextStep]

  /**
   * What visualize_next_step asks for when it consumes slot k of a session that began
   * after slot `start`: the step shown, its count reported when it is a Comparison or
   * a Swap, and the end of the session when k is the last slot.
   */
  function Stepped(steps: seq<Step>, start: int, k: int): (r: seq<Call>)
    requires -1 <= start < k < |steps|
    ensures NoNextStep in r <==> k == |steps| - 1
  {
    DiagramCalls(steps[k]) + Reports(CountersOf(SessionTally(steps, start, k)), steps[k])
    + if k == |steps| - 1 then FinishCalls else []
  }

  /**
   * What the continuous loop asks for while it consumes the slots lo+1..hi: each
   * step as visualize_next_step shows it, followed by a sleep of `delay`.
   */
  function Looped(steps: seq<Step>, start: int, lo: int, hi: int, delay: real): (r: seq<Call>)
    requires -1 <= start <= lo <= hi < |steps|
    ensures NoNextStep in r <==> lo < hi == |steps| - 1
    decreases hi - lo
  {
    if hi == lo then [] else Looped(steps, start, lo, hi - 1, delay) + Stepped(steps, start, hi) + [Sleep(delay)]
  }

  /** One step reports the end of the session once if it is the last step, and never otherwise. */
  lemma SteppedReportsOnce(steps: seq<Step>, start: int, k: int)
    requires -1 <= start < k < |steps|
    ensures multiset(Stepped(steps, start, k))[NoNextStep] == if k == |steps| - 1 then 1 else 0
  {
    var shown := DiagramCalls(steps[k]) + Reports(CountersOf(SessionTally(steps, start, k)), steps[k]);
    assert NoNextStep !in multiset(shown);
  }

  /** However far the loop runs, it reports the end of the session at most once. */
  lemma {:induction false} LoopedReportsOnce(steps: seq<Step>, start: int, lo: int, hi: int, delay: real)
    requires -1 <= start <= lo <= hi < |steps|
    ensures multiset(Looped(steps, start, lo, hi, delay))[NoNextStep] == if lo < hi == |steps| - 1 then 1 else 0
    decreases hi - lo
  {
    if hi > lo {
      LoopedReportsOnce(steps, start, lo, hi - 1, delay);
      SteppedReportsOnce(steps, start, hi);
    }
  }

  lemma LoopedExtend(prefix: seq<Call>, steps: seq<Step>, start: int, lo: int, hi: int, delay: real)
    requires -1 <= start <= lo <= hi < |steps| - 1
    ensures prefix + Looped(steps, start, lo, hi, delay) + Stepped(steps, start, hi + 1) + [Sleep(delay)]
            == prefix + Looped(steps, start, lo, hi + 1, delay)
  {
  }

  class VisualizationWorker {
    var data: VisualizationData?
    var comparisonCount: int
    var swapCount: int
    var stopThread: bool
    var delay: real
    /** The requests of the current session, in order. */
    var calls: seq<Call>
    /** The cursor index when the session began. */
    ghost var start: int

    /** The two counters as a value. */
    function Current(): Counters
      reads this`comparisonCount, this`swapCount
    {
      Counters(comparisonCount, swapCount)
    }

    /** The session has consumed its last step. */
    ghost predicate Finished()
      requires data != null
      reads this, data
    {
      start < data.index == |data.steps| - 1
    }

    /**
     * Once a cursor is bound: the counters count the Comparison and Swap steps consumed
     * in the session, and the end of the session has been reported exactly when the
     * session consumed the last step.
     */
    ghost predicate Valid()
      reads this, data
    {
      data != null ==>
        data.Valid() && -1 <= start <= data.index &&
        Current() == CountersOf(SessionTally(data.steps, start, data.index)) &&
        (NoNextStep in calls <==> Finished())
    }

    /** A worker with no cursor bound yet; the delay defaults to 0.25 s in the source. */
    constructor(delay: real)
      ensures Valid() && data == null && Current() == Counters(0, 0) && !stopThread
      ensures this.delay == delay && calls == []
    {
      data := null;
      comparisonCount, swapCount := 0, 0;
      stopThread := false;
      this.delay := delay;
      calls := [];
      start := -1;
    }

    /**
     * initiate_visualization: bind `d`, set both counters to 0, report each, and have
     * the diagram set up its bars from the initial data.
     */
    method InitiateVisualization(d: VisualizationData)
      requires d.Valid()
      modifies this
      ensures Valid() && data == d && start == d.index && Current() == Counters(0, 0)
      ensures calls == [ComparisonCount(0), SwapCount(0), SetupBars(d.initialData)]
      ensures stopThread == old(stopThread) && delay == old(delay)
    {
      data := d;
      start := d.index;
      comparisonCount, swapCount := 0, 0;
      calls := [ComparisonCount(comparisonCount), SwapCount(swapCount)];
      calls := calls + [SetupBars(data.initialData)];
    }

    /** pause_visualization: ask the loop to stop before its next step. */
    method PauseVisualization()
      modifies this`stopThread
      ensures stopThread
    {
      stopThread := true;
    }

    /** set_delay: the pause after every step of the loop. */
    method SetDelay(delay: real)
      modifies this`delay
      ensures this.delay == delay
    {
      this.delay := delay;
    }

    /** _visualize_step: ask the diagram to show `step`; the counters are left alone. */
    method VisualizeStep(step: Step)
      modifies this`calls
      ensures calls == old(calls) + DiagramCalls(step)
    {
      match step {
        case Comparison(_, p1, p2) =>
          calls := calls + [HighlightSlots(p1, p2)];
        case Swap(_, p1, p2) =>
          calls := calls + [SwapSlots(p1, p2)];
        case Mark(_, p, _) =>
          calls := calls + [MarkSlot(p)];
        case Focus(_, p1, p2) =>
          calls := calls + [FocusSlots(p1, p2)];
        case _ =>
      }
    }

    /**
     * update_comparison_and_swap_count: move the counter of a Comparison or a Swap by
     * `increment` and report its new value; other kinds change and report nothing.
     */
    method UpdateComparisonAndSwapCount(step: Step, increment: int)
      modifies this`calls, this`comparisonCount, this`swapCount
      ensures Current() == Bump(old(Current()), step, increment)
      ensures calls == old(calls) + Reports(Current(), step)
    {
      match step {
        case Comparison(_, _, _) =>
          comparisonCount := comparisonCount + increment;
          calls := calls + [ComparisonCount(comparisonCount)];
        case Swap(_, _, _) =>
          swapCount := swapCount + increment;
          calls := calls + [SwapCount(swapCount)];
        case _ =>
      }
    }

    /** clean_up_visualization: clear the highlights, the mark and the focus. */
    method CleanUpVisualization()
      modifies this`calls
      ensures calls == old(calls) + CleanUpCalls
    {
      calls := calls + [UnhighlightSlots];
      calls := calls + [UnmarkSlot];
      calls := calls + [UnfocusSlots];
    }

    /** _finish_visualization: clean up, then report that no step is left. */
    method FinishVisualization()
      modifies this`calls
      ensures calls == old(calls) + FinishCalls
    {
      CleanUpVisualization();
      calls := calls + [NoNextStep];
    }

    /**
     * visualize_next_step: nothing when the trace is exhausted; otherwise consume
     * exactly one step, show it, count it, and when it was the last one, end the
     * session.
     */
    method VisualizeNextStep()
      requires Valid() && data != null
      modifies this`calls, this`comparisonCount, this`swapCount, data
      ensures Valid()
      ensures !old(data.NextStepAvailable()) ==>
                data.index == old(data.index) && calls == old(calls) && Current() == old(Current())
      ensures old(data.NextStepAvailable()) ==>
                data.index == old(data.index) + 1 && calls == old(calls) + Stepped(data.steps, start, data.index)
    {
      if data.NextStepAvailable() {
        ghost var c, i := calls, data.index;
        ghost var before := SessionTally(data.steps, start, i);
        var step := data.GetNextStep();
        BumpCounts(before, step.value);
        VisualizeStep(step.value);
        UpdateComparisonAndSwapCount(step.value, 1);
        ghost var shown := DiagramCalls(step.value) + Reports(Current(), step.value);
        assert calls == c + shown;
        if !data.NextStepAvailable() {
          FinishVisualization();
          assert calls == c + (shown + FinishCalls);
        } else {
          assert calls == c + (shown + []);
        }
      }
    }

    /**
     * The continuous loop, under way since slot i0 when the calls stood at c0: the
     * worker is valid and the calls since c0 show the steps after slot i0 in order.
     */
    ghost predicate Playing(c0: seq<Call>, i0: int)
      reads this, data
    {
      Valid() && data != null && start <= i0 <= data.index &&
      calls == c0 + Looped(data.steps, start, i0, data.index, delay)
    }

    /** The body of the continuous loop: visualize_next_step(False), then sleep. */
    method ShowNextAndSleep(ghost c0: seq<Call>, ghost i0: int)
      requires Playing(c0, i0) && data.index < |data.steps| - 1
      modifies this`calls, this`comparisonCount, this`swapCount, data
      ensures Playing(c0, i0) && data.index == old(data.index) + 1
    {
      LoopedExtend(c0, data.steps, start, i0, data.index, delay);
      VisualizeNextStep();
      calls := calls + [Sleep(delay)];
    }

    /**
     * _visualize_steps: while a step is left, check the stop flag, then
     * visualize_next_step and sleep. The user pauses (sets the stop flag) just before
     * the check of iteration `pauseBefore`, if the loop gets that far. Returns with the
     * steps up to slot min(start index + pauseBefore, last) consumed and shown; the end
     * of the session is reported by visualize_next_step, not by the loop.
     */
    method VisualizeSteps(pauseBefore: nat)
      requires Valid() && data != null && data.NextStepAvailable() && !stopThread
      modifies this`calls, this`comparisonCount, this`swapCount, this`stopThread, data
      ensures Valid()
      ensures data.index == if old(data.index) + pauseBefore < |data.steps| - 1
                            then old(data.index) + pauseBefore else |data.steps| - 1
      ensures stopThread <==> old(data.index) + pauseBefore < |data.steps| - 1
      ensures calls == old(calls) + Looped(data.steps, start, old(data.index), data.index, delay)
    {
      ghost var i0, c0 := data.index, calls;
      var k := 0;
      while data.NextStepAvailable()
        invariant Playing(c0, i0) && data.index == i0 + k && k <= pauseBefore && !stopThread
        decreases |data.steps| - data.index
      {
        if k == pauseBefore {
          PauseVisualization();
        }
        if stopThread {
          break;
        }
        ShowNextAndSleep(c0, i0);
        k := k + 1;
      }
    }

    /**
     * start_visualization: nothing when the trace is exhausted; otherwise clear the
     * stop flag and run the loop.
     */
    method StartVisualization(pauseBefore: nat)
      requires Valid() && data != null
      modifies this`calls, this`comparisonCount, this`swapCount, this`stopThread, data
      ensures Valid()
      ensures old(data.index) <= data.index
      ensures !old(data.NextStepAvailable()) ==>
                data.index == old(data.index) && calls == old(calls) && stopThread == old(stopThread)
      ensures old(data.NextStepAvailable()) ==>
                (stopThread <==> old(data.index) + pauseBefore < |data.steps| - 1) &&
                calls == old(calls) + Looped(data.steps, start, old(data.index), data.index, delay)
    {
      if data.NextStepAvailable() {
        stopThread := false;
        VisualizeSteps(pauseBefore);
      }
    }
  }
}
