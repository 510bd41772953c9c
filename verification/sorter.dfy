/**
 * The instrumented primitives of the sorting engine (Sorter.py:40-78, and the copy at
 * Algorithms.py:93-127). Every primitive appends exactly one step to the trace; only
 * `Swap` changes slot values, and it records exactly the exchange it performs, so a
 * sorter that works through these primitives alone keeps its array equal to the replay
 * of its own trace.
 */
module Sorter {
  import opened SortingSteps

  /**
   * A pass of a sorter as values: the array, the trace so far, and whether the pass
   * has swapped (the negation of the source's `sorted_flag`).
   */
  datatype Sweep = Sweep(data: seq<int>, steps: seq<Step>, swapped: bool)

  /**
   * The trace a sorter records. The source keeps it in one class-level list that every
   * sorter clears before it runs; here each sort owns a fresh recorder, which starts
   * empty. `initial` is the array the recording started from.
   */
  class Sorter {
    var steps: seq<Step>
    ghost const initial: seq<int>

    constructor (ghost start: seq<int>)
      ensures steps == [] && initial == start
    {
      steps := [];
      initial := start;
    }

    /** Records a Comparison and answers whether data[pos1] <= data[pos2]; reads only. */
    method Compare(data: array<int>, pos1: int, pos2: int, delay: bool) returns (le: bool)
      requires 0 <= pos1 < data.Length && 0 <= pos2 < data.Length
      modifies this
      ensures le <==> data[pos1] <= data[pos2]
      ensures steps == old(steps) + [Comparison(delay, pos1, pos2)]
    {
      steps := steps + [Comparison(delay, pos1, pos2)];
      le := data[pos1] <= data[pos2];
    }

    /**
     * Exchanges data[pos1] and data[pos2], leaving every other slot as it was, and
     * records the Swap: an array that was the replay of the trace still is.
     */
    method Swap(data: array<int>, pos1: int, pos2: int, delay: bool)
      requires 0 <= pos1 < data.Length && 0 <= pos2 < data.Length
      modifies this, data
      ensures data[..] == SwapAt(old(data[..]), pos1, pos2)
      ensures steps == old(steps) + [Step.Swap(delay, pos1, pos2)]
      ensures old(Replay(initial, steps)) == old(data[..]) ==> Replay(initial, steps) == data[..]
    {
      var temp := data[pos1];
      data[pos1] := data[pos2];
      data[pos2] := temp;
      steps := steps + [Step.Swap(delay, pos1, pos2)];
    }

    /** Records a Mark of one slot; the source's Mark has no `multiple` field. */
    method Mark(pos: int, delay: bool)
      modifies this
      ensures steps == old(steps) + [Step.Mark(delay, pos, false)]
    {
      steps := steps + [Step.Mark(delay, pos, false)];
    }

    /** Records an Unmark. */
    method Unmark(delay: bool)
      modifies this
      ensures steps == old(steps) + [Step.Unmark(delay)]
    {
      steps := steps + [Step.Unmark(delay)];
    }

    /** Records a Focus on the inclusive range pos1..pos2. */
    method Focus(pos1: int, pos2: int, delay: bool)
      modifies this
      ensures steps == old(steps) + [Step.Focus(delay, pos1, pos2)]
    {
      steps := steps + [Step.Focus(delay, pos1, pos2)];
    }
  }
}
