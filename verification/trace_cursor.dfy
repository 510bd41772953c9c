/**
 * The replay index over a recorded trace, shared by both cursor classes (Data.py and
 * VisualizationData.py): an index from -1 ("before the first step") to the last slot
 * of the trace, and what each cursor operation does to it, as values.
 */
module TraceCursor {
  import opened Wrappers
  import opened SortingSteps

  /** The index is -1 or a slot of the trace. */
  predicate ValidIndex(steps: seq<Step>, index: int)
  {
    -1 <= index <= |steps| - 1
  }

  /**
   * get_next_step: when a step follows the index, move onto it and return it;
   * otherwise return nothing and stay.
   */
  function Next(steps: seq<Step>, index: int): (r: (int, Option<Step>))
    requires ValidIndex(steps, index)
    ensures ValidIndex(steps, r.0)
    ensures r.1.Some? <==> index < |steps| - 1
    ensures r.1.Some? ==> r.0 == index + 1 && r.1.value == steps[r.0]
    ensures r.1.None? ==> r.0 == index
  {
    if index < |steps| - 1 then (index + 1, Some(steps[index + 1])) else (index, None)
  }

  /**
   * get_previous_steps: when the index is on a step, return that step and move back
   * one; otherwise (index -1) return nothing and stay.
   */
  function Previous(steps: seq<Step>, index: int): (r: (int, Option<Step>))
    requires ValidIndex(steps, index)
    ensures ValidIndex(steps, r.0)
    ensures r.1.Some? <==> index >= 0
    ensures r.1.Some? ==> r.0 == index - 1 && r.1.value == steps[index]
    ensures r.1.None? ==> r.0 == index
  {
    if index >= 0 then (index - 1, Some(steps[index])) else (index, None)
  }

  /**
   * checkout_previous_step: when the index is on a step, the step before it, read with
   * Python's indexing, so that at index 0 the read `steps[-1]` wraps round to the last
   * step of the trace; nothing at index -1. The index does not move.
   */
  function Checkout(steps: seq<Step>, index: int): (r: Option<Step>)
    requires ValidIndex(steps, index)
    ensures r.Some? <==> index >= 0
  {
    if index >= 0 then Some(steps[if index == 0 then |steps| - 1 else index - 1]) else None
  }

  /** get_previous_steps undoes get_next_step: it returns the same step and restores the index. */
  lemma NextThenPrevious(steps: seq<Step>, index: int)
    requires ValidIndex(steps, index) && index < |steps| - 1
    ensures Previous(steps, Next(steps, index).0) == (index, Next(steps, index).1)
  {
  }

  /** get_next_step undoes get_previous_steps: it returns the same step and restores the index. */
  lemma PreviousThenNext(steps: seq<Step>, index: int)
    requires ValidIndex(steps, index) && index >= 0
    ensures Next(steps, Previous(steps, index).0) == (index, Previous(steps, index).1)
  {
  }

  /**
   * Past the first step, checkout_previous_step shows what a second get_previous_steps
   * would return; on the first step it shows the last step of the trace instead, where a
   * second get_previous_steps returns nothing.
   */
  lemma CheckoutLooksTwoBack(steps: seq<Step>, index: int)
    requires ValidIndex(steps, index) && index >= 0
    ensures index >= 1 ==> Checkout(steps, index) == Previous(steps, Previous(steps, index).0).1
    ensures index == 0 ==> Checkout(steps, index) == Some(steps[|steps| - 1])
    ensures index == 0 ==> Previous(steps, Previous(steps, index).0).1 == None
  {
  }

  /**
   * The steps that repeated get_next_step calls return from `index` until none is left,
   * in the order they are returned.
   */
  function Drain(steps: seq<Step>, index: int): (r: seq<Step>)
    requires ValidIndex(steps, index)
    ensures |r| == |steps| - 1 - index
    decreases |steps| - index
  {
    match Next(steps, index)
    case (_, None) => []
    case (i, Some(step)) => [step] + Drain(steps, i)
  }

  /**
   * Repeated get_next_step calls return every step after the index exactly once, in
   * trace order; from a fresh cursor (index -1) that is the whole trace.
   */
  lemma {:induction false} DrainReturnsRest(steps: seq<Step>, index: int)
    requires ValidIndex(steps, index)
    ensures Drain(steps, index) == steps[index + 1..]
    decreases |steps| - index
  {
    if index < |steps| - 1 {
      DrainReturnsRest(steps, index + 1);
      assert steps[index + 1..] == [steps[index + 1]] + steps[index + 2..];
    }
  }

  /**
   * The tally of the slots start+1..k of the trace: what a session that began after
   * slot `start` has consumed once the cursor stands on slot k.
   */
  function SessionTally(steps: seq<Step>, start: int, k: int): Tally
    requires -1 <= start <= k < |steps|
    decreases k - start
  {
    if k == start then NoSteps else Tick(SessionTally(steps, start, k - 1), steps[k])
  }

  /** The session's tally counts, kind by kind, the steps of the trace it consumed. */
  lemma {:induction false} SessionTallyCounts(steps: seq<Step>, start: int, k: int)
    requires -1 <= start <= k < |steps|
    ensures SessionTally(steps, start, k) == TallyOf(steps[start + 1..k + 1])
    decreases k - start
  {
    if k > start {
      SessionTallyCounts(steps, start, k - 1);
      assert steps[start + 1..k + 1][..k - start - 1] == steps[start + 1..k];
    }
  }
}
