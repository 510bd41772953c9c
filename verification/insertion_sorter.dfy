/**
 * Insertion sort (SortingAlgorithms.py:33-55, copied at Sorter.py:108-130) and the
 * gapped insertion pass that Shell sort repeats for each gap (SortingAlgorithms.py:70-82).
 * With gap 1 the gapped pass records exactly the steps of insertion sort, so both are
 * one method here.
 */
module InsertionSorter {
  import opened SortingSteps
  import opened Ordering
  import opened Sorter

  /**
   * A step an insertion pass with one of the gaps in `gaps` may record: a Mark, a
   * Focus, a Comparison, or a Swap of two slots a gap apart, the lower one first.
   */
  predicate GapStep(step: Step, gaps: set<int>)
  {
    step.Mark? || step.Focus? || step.Comparison? || (step.Swap? && step.pos2 - step.pos1 in gaps)
  }

  /** Every step of `trace` is a GapStep for `gaps`. */
  predicate GapTrace(trace: seq<Step>, gaps: set<int>)
  {
    forall t :: 0 <= t < |trace| ==> GapStep(trace[t], gaps)
  }

  /** Recording one more GapStep keeps a GapTrace. */
  lemma GapTraceExtend(trace: seq<Step>, step: Step, gaps: set<int>)
    requires GapTrace(trace, gaps) && GapStep(step, gaps)
    ensures GapTrace(trace + [step], gaps)
  {
  }

  /** Gap-k sorted below hi: every value is at most the one k slots above it. */
  predicate GapSorted(a: seq<int>, k: int, hi: int)
    requires 0 <= k && hi <= |a|
  {
    forall p :: 0 <= p && p + k < hi ==> a[p] <= a[p + k]
  }

  /** Sorted with gap 1 is sorted. */
  lemma {:induction false} GapOneSorted(a: seq<int>)
    requires GapSorted(a, 1, |a|)
    ensures Sorted(a)
  {
    if |a| > 1 {
      var init := a[..|a| - 1];
      assert GapSorted(init, 1, |init|) by {
        forall p | 0 <= p && p + 1 < |init|
          ensures init[p] <= init[p + 1]
        {
          assert init[p] == a[p] && init[p + 1] == a[p + 1];
        }
      }
      GapOneSorted(init);
      forall p, q | 0 <= p < q < |a|
        ensures a[p] <= a[q]
      {
        if q < |a| - 1 {
          assert a[p] == init[p] && a[q] == init[q];
        } else if p < q - 1 {
          assert a[p] == init[p] && a[q - 1] == init[q - 1];
        }
      }
    }
  }

  /**
   * The chain of a[0..i] with gap k is in order once the slot j, holding the value
   * being sunk, is set aside: every pair p, p+k clear of j is in order, and the two
   * chain neighbours of j are in order with each other.
   */
  predicate GapSortedExcept(a: seq<int>, k: int, i: int, j: int)
    requires 0 <= k && i < |a|
  {
    (forall p :: 0 <= p && p + k <= i && p != j && p + k != j ==> a[p] <= a[p + k]) &&
    (0 <= j - k && j + k <= i ==> a[j - k] <= a[j + k])
  }

  /** The value being sunk, at j, is at most the value it passed, k slots above. */
  predicate BelowPassed(a: seq<int>, k: int, j: int, i: int)
    requires 0 <= k && 0 <= j && i < |a|
  {
    j + k <= i ==> a[j] <= a[j + k]
  }

  /** The state of the sinking loop for slot i with gap k, the sunk value at j. */
  predicate Sinking(a: seq<int>, k: int, i: int, j: int)
    requires 0 <= k && 0 <= j <= i < |a|
  {
    GapSortedExcept(a, k, i, j) && BelowPassed(a, k, j, i)
  }

  /** Swapping the sunk value k slots down, past a value at least as large, keeps both facts. */
  lemma SinkStep(a: seq<int>, k: int, j: int, i: int)
    requires 1 <= k <= j <= i < |a|
    requires Sinking(a, k, i, j)
    requires a[j] <= a[j - k]
    ensures Sinking(SwapAt(a, j - k, j), k, i, j - k)
    ensures SwapAt(a, j - k, j)[i + 1..] == a[i + 1..]
  {
    var b := SwapAt(a, j - k, j);
    forall p | 0 <= p && p + k <= i && p != j - k && p + k != j - k
      ensures b[p] <= b[p + k]
    {
      if p == j {
        assert b[p] == a[j - k] && b[p + k] == a[j + k];
      } else {
        assert b[p] == a[p] && b[p + k] == a[p + k];
      }
    }
    if 0 <= j - 2 * k {
      assert b[j - 2 * k] == a[j - 2 * k] && b[j] == a[j - k];
    }
  }

  /** Once the sunk value is at the bottom of its chain or above a smaller value, a[0..i] is gap-k sorted. */
  lemma SinkDone(a: seq<int>, k: int, j: int, i: int)
    requires 1 <= k && 0 <= j <= i < |a|
    requires Sinking(a, k, i, j)
    requires j - k < 0 || a[j - k] < a[j]
    ensures GapSorted(a, k, i + 1)
  {
  }

  /**
   * One outer iteration for slot i with gap k: mark i, focus 0..i, then move the value
   * at i down by k while it is less than or equal to the value k slots below. A gap-k
   * sorted a[0..i-1] becomes a gap-k sorted a[0..i], and the slots above i are untouched.
   */
  method InsertSlot(s: Sorter, data: array<int>, k: int, i: int, ghost gaps: set<int>)
    requires 1 <= k <= i < data.Length && k in gaps
    requires Replay(s.initial, s.steps) == data[..]
    requires GapTrace(s.steps, gaps)
    requires GapSorted(data[..], k, i)
    modifies s, data
    ensures Replay(s.initial, s.steps) == data[..]
    ensures GapTrace(s.steps, gaps)
    ensures GapSorted(data[..], k, i + 1)
    ensures data[i + 1..] == old(data[i + 1..])
  {
    GapTraceExtend(s.steps, Step.Mark(false, i, false), gaps);
    s.Mark(i, false);
    GapTraceExtend(s.steps, Step.Focus(false, 0, i), gaps);
    s.Focus(0, i, false);
    var j := i;
    ghost var above := data[i + 1..];
    while j - k >= 0
      invariant 0 <= j <= i
      invariant Replay(s.initial, s.steps) == data[..]
      invariant GapTrace(s.steps, gaps)
      invariant Sinking(data[..], k, i, j)
      invariant data[i + 1..] == above
    {
      GapTraceExtend(s.steps, Comparison(true, j, j - k), gaps);
      var le := s.Compare(data, j, j - k, true);
      if le {
        SinkStep(data[..], k, j, i);
        GapTraceExtend(s.steps, Step.Swap(true, j - k, j), gaps);
        s.Swap(data, j - k, j, true);
        j := j - k;
      } else {
        SinkDone(data[..], k, j, i);
        break;
      }
    }
    if j - k < 0 {
      SinkDone(data[..], k, j, i);
    }
  }

  /**
   * The gapped insertion pass: InsertSlot for every i from k to n-1. It leaves the
   * array gap-k sorted, so with gap 1 sorted, and every step it records is a GapStep.
   */
  method InsertionPass(s: Sorter, data: array<int>, k: int, ghost gaps: set<int>)
    requires k >= 1 && k in gaps
    requires Replay(s.initial, s.steps) == data[..]
    requires GapTrace(s.steps, gaps)
    modifies s, data
    ensures Replay(s.initial, s.steps) == data[..]
    ensures GapTrace(s.steps, gaps)
    ensures GapSorted(data[..], k, data.Length)
    ensures k == 1 ==> Sorted(data[..])
  {
    var i := k;
    while i < data.Length
      invariant k <= i
      invariant Replay(s.initial, s.steps) == data[..]
      invariant GapTrace(s.steps, gaps)
      invariant GapSorted(data[..], k, if i <= data.Length then i else data.Length)
    {
      InsertSlot(s, data, k, i, gaps);
      i := i + 1;
    }
    if k == 1 {
      GapOneSorted(data[..]);
    }
  }

  /** A trace of GapSteps holds no Replace step. */
  lemma {:induction false} GapTraceNoReplace(trace: seq<Step>, gaps: set<int>)
    requires GapTrace(trace, gaps)
    ensures TallyOf(trace).replacements == 0
  {
    if trace != [] {
      GapTraceNoReplace(trace[..|trace| - 1], gaps);
    }
  }

  /**
   * Insertion sort with a fresh trace: the array ends sorted and rearranged, the trace
   * replays to it, and it records only Mark, Focus, Comparison and adjacent (j-1, j) Swaps.
   */
  method InsertionSort(data: array<int>) returns (steps: seq<Step>)
    modifies data
    ensures Sorted(data[..])
    ensures multiset(data[..]) == multiset(old(data[..]))
    ensures Replay(old(data[..]), steps) == data[..]
    ensures GapTrace(steps, {1})
  {
    var s := new Sorter(data[..]);
    InsertionPass(s, data, 1, {1});
    steps := s.steps;
    GapTraceNoReplace(steps, {1});
    ReplayPermutes(s.initial, steps);
  }
}
