/**
 * The trace vocabulary of the sorting engine (SortingSteps.py): a closed sum of step
 * kinds, and what a recorded trace means for the slot values when it is replayed.
 */
module SortingSteps {

  /**
   * One recorded step. Every kind carries `delay`: when true, continuous playback
   * waits before it shows the next step.
   *  - Comparison, Swap: the two slot positions compared or exchanged;
   *  - Mark: one slot; `multiple` lets it coexist with marks already shown;
   *  - Focus: the inclusive range fromPos..toPos under work;
   *  - Replace: slot `pos` takes the value `height`;
   *  - Unmark, Unfocus, Unreplace: clear the matching indication, no payload.
   */
  datatype Step =
    | Comparison(delay: bool, pos1: int, pos2: int)
    | Swap(delay: bool, pos1: int, pos2: int)
    | Mark(delay: bool, pos: int, multiple: bool)
    | Unmark(delay: bool)
    | Focus(delay: bool, fromPos: int, toPos: int)
    | Unfocus(delay: bool)
    | Replace(delay: bool, pos: int, height: int)
    | Unreplace(delay: bool)

  /** How many steps of each kind a trace holds. */
  datatype Tally = Tally(
    comparisons: nat, swaps: nat, marks: nat, unmarks: nat,
    focuses: nat, unfocuses: nat, replacements: nat, unreplacements: nat)

  const NoSteps := Tally(0, 0, 0, 0, 0, 0, 0, 0)

  /** The tally with the counter of `step`'s kind raised by one. */
  function Tick(c: Tally, step: Step): Tally
  {
    match step
    case Comparison(_, _, _) => c.(comparisons := c.comparisons + 1)
    case Swap(_, _, _) => c.(swaps := c.swaps + 1)
    case Mark(_, _, _) => c.(marks := c.marks + 1)
    case Unmark(_) => c.(unmarks := c.unmarks + 1)
    case Focus(_, _, _) => c.(focuses := c.focuses + 1)
    case Unfocus(_) => c.(unfocuses := c.unfocuses + 1)
    case Replace(_, _, _) => c.(replacements := c.replacements + 1)
    case Unreplace(_) => c.(unreplacements := c.unreplacements + 1)
  }

  /** The tally of a whole trace. */
  function TallyOf(trace: seq<Step>): Tally
  {
    if trace == [] then NoSteps else Tick(TallyOf(trace[..|trace| - 1]), trace[|trace| - 1])
  }

  function Total(c: Tally): nat
  {
    c.comparisons + c.swaps + c.marks + c.unmarks + c.focuses + c.unfocuses + c.replacements + c.unreplacements
  }

  function Plus(c: Tally, d: Tally): Tally
  {
    Tally(c.comparisons + d.comparisons, c.swaps + d.swaps, c.marks + d.marks, c.unmarks + d.unmarks,
          c.focuses + d.focuses, c.unfocuses + d.unfocuses, c.replacements + d.replacements,
          c.unreplacements + d.unreplacements)
  }

  /** The empty tally adds nothing. */
  lemma PlusNoSteps(c: Tally)
    ensures Plus(c, NoSteps) == c
  {
  }

  /** Counting one more step commutes with adding tallies. */
  lemma TickPlus(c: Tally, d: Tally, step: Step)
    ensures Tick(Plus(c, d), step) == Plus(c, Tick(d, step))
  {
    match step
    case Comparison(_, _, _) =>
    case Swap(_, _, _) =>
    case Mark(_, _, _) =>
    case Unmark(_) =>
    case Focus(_, _, _) =>
    case Unfocus(_) =>
    case Replace(_, _, _) =>
    case Unreplace(_) =>
  }

  /** Tallying distributes over concatenation of traces. */
  lemma {:induction false} TallyAppend(t: seq<Step>, u: seq<Step>)
    ensures TallyOf(t + u) == Plus(TallyOf(t), TallyOf(u))
    decreases |u|
  {
    if u == [] {
      assert t + u == t;
      PlusNoSteps(TallyOf(t));
    } else {
      var init, last := u[..|u| - 1], u[|u| - 1];
      assert (t + u)[..|t + u| - 1] == t + init;
      assert (t + u)[|t + u| - 1] == last;
      TallyAppend(t, init);
      TickPlus(TallyOf(t), TallyOf(init), last);
    }
  }

  /** Every step is counted exactly once: the eight counters add up to the length. */
  lemma {:induction false} TallyTotal(t: seq<Step>)
    ensures Total(TallyOf(t)) == |t|
  {
    if t != [] {
      TallyTotal(t[..|t| - 1]);
    }
  }

  /** The slot values with positions i and j exchanged. */
  function SwapAt(s: seq<int>, i: int, j: int): (r: seq<int>)
    requires 0 <= i < |s| && 0 <= j < |s|
    ensures |r| == |s| && r[i] == s[j] && r[j] == s[i]
    ensures forall k :: 0 <= k < |s| && k != i && k != j ==> r[k] == s[k]
  {
    s[i := s[j]][j := s[i]]
  }

  /** Exchanging two slots rearranges the values and changes none. */
  lemma SwapAtPermutes(s: seq<int>, i: int, j: int)
    requires 0 <= i < |s| && 0 <= j < |s|
    ensures multiset(SwapAt(s, i, j)) == multiset(s)
  {
  }

  /**
   * The effect of one step on the slot values: a Swap exchanges two slots and a
   * Replace overwrites one; the other kinds only concern the display. A step that
   * names a slot outside `s` has no effect.
   */
  function Apply(s: seq<int>, step: Step): (r: seq<int>)
    ensures |r| == |s|
  {
    match step
    case Swap(_, i, j) => if 0 <= i < |s| && 0 <= j < |s| then SwapAt(s, i, j) else s
    case Replace(_, p, h) => if 0 <= p < |s| then s[p := h] else s
    case _ => s
  }

  /** The slot values reached by applying `trace`, in order, to `s`. */
  function Replay(s: seq<int>, trace: seq<Step>): (r: seq<int>)
    ensures |r| == |s|
  {
    if trace == [] then s else Apply(Replay(s, trace[..|trace| - 1]), trace[|trace| - 1])
  }

  /** Replaying a concatenation is replaying its parts one after the other. */
  lemma {:induction false} ReplayAppend(s: seq<int>, t: seq<Step>, u: seq<Step>)
    ensures Replay(s, t + u) == Replay(Replay(s, t), u)
    decreases |u|
  {
    if u == [] {
      assert t + u == t;
    } else {
      assert (t + u)[..|t + u| - 1] == t + u[..|u| - 1];
      ReplayAppend(s, t, u[..|u| - 1]);
    }
  }

  /** Swap and Replace are the only steps that change slot values. */
  predicate ChangesData(step: Step)
  {
    step.Swap? || step.Replace?
  }

  /** The subsequence of `trace` made of its Swap and Replace steps, in order. */
  function DataSteps(trace: seq<Step>): (r: seq<Step>)
    ensures forall t :: 0 <= t < |r| ==> ChangesData(r[t])
    ensures |r| == TallyOf(trace).swaps + TallyOf(trace).replacements
  {
    if trace == [] then []
    else
      var last := trace[|trace| - 1];
      DataSteps(trace[..|trace| - 1]) + (if ChangesData(last) then [last] else [])
  }

  /** Replaying only the Swap and Replace steps of a trace gives the same slot values. */
  lemma {:induction false} ReplayDataStepsOnly(s: seq<int>, trace: seq<Step>)
    ensures Replay(s, DataSteps(trace)) == Replay(s, trace)
  {
    if trace != [] {
      var init, last := trace[..|trace| - 1], trace[|trace| - 1];
      ReplayDataStepsOnly(s, init);
      if ChangesData(last) {
        ReplayAppend(s, DataSteps(init), [last]);
        assert [last][..0] == [];
      } else {
        assert DataSteps(trace) == DataSteps(init);
      }
    }
  }

  /** A trace without Replace steps only rearranges the slot values. */
  lemma {:induction false} ReplayPermutes(s: seq<int>, trace: seq<Step>)
    requires TallyOf(trace).replacements == 0
    ensures multiset(Replay(s, trace)) == multiset(s)
  {
    if trace != [] {
      var init, last := trace[..|trace| - 1], trace[|trace| - 1];
      ReplayPermutes(s, init);
      var before := Replay(s, init);
      if last.Swap? && 0 <= last.pos1 < |before| && 0 <= last.pos2 < |before| {
        SwapAtPermutes(before, last.pos1, last.pos2);
      }
    }
  }

  /**
   * A trace u that extends t and holds no Replace step only rearranges the values
   * reached by t.
   */
  lemma PrefixReplayPermutes(s: seq<int>, t: seq<Step>, u: seq<Step>)
    requires t <= u && TallyOf(u).replacements == 0
    ensures multiset(Replay(s, u)) == multiset(Replay(s, t))
  {
    var rest := u[|t|..];
    assert u == t + rest;
    ReplayAppend(s, t, rest);
    TallyAppend(t, rest);
    ReplayPermutes(Replay(s, t), rest);
  }
}
