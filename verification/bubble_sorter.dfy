/**
 * Bubble sort (SortingAlgorithms.py:111-140, copied at Sorter.py:186-215): passes over
 * a shrinking prefix that carry its largest value to the top, stopping early after a
 * pass in which no comparison asked for a swap.
 */
module BubbleSorter {
  import opened SortingSteps
  import opened Ordering
  import opened Sorter

  /** Every value in a[0..i] is at most every value in a[i+1..]. */
  predicate Partitioned(a: seq<int>, i: int)
  {
    forall p, q :: 0 <= p <= i < q < |a| ==> a[p] <= a[q]
  }

  /** a[i..] is in order. */
  predicate SortedFrom(a: seq<int>, i: int)
  {
    forall p, q :: 0 <= p && i <= p < q < |a| ==> a[p] <= a[q]
  }

  /** a[j] is the largest value of a[0..j]. */
  predicate MaxAt(a: seq<int>, j: int)
    requires 0 <= j < |a|
  {
    forall q :: 0 <= q <= j ==> a[q] <= a[j]
  }

  /**
   * The trace of a pass over slots 0..m in which every comparison answers "no swap":
   * Comparison(j+1, j) followed by an Unmark, for j = 0, ..., m-1.
   */
  function QuietPass(m: nat): seq<Step>
  {
    if m == 0 then [] else QuietPass(m - 1) + [Comparison(true, m, m - 1), Unmark(false)]
  }

  lemma QuietPassExtend(trace: seq<Step>, j: nat)
    ensures trace + QuietPass(j) + [Comparison(true, j + 1, j), Unmark(false)] == trace + QuietPass(j + 1)
  {
  }

  /** A quiet pass over 0..m makes m comparisons and m unmarks and nothing else. */
  lemma {:induction false} QuietPassTally(m: nat)
    ensures TallyOf(QuietPass(m)) == NoSteps.(comparisons := m, unmarks := m)
  {
    if m > 0 {
      QuietPassTally(m - 1);
      var pair := [Comparison(true, m, m - 1), Unmark(false)];
      TallyAppend(QuietPass(m - 1), pair);
      assert pair[..1] == [Comparison(true, m, m - 1)];
      assert pair[..1][..0] == [];
      assert TallyOf(pair[..1]) == NoSteps.(comparisons := 1);
    }
  }

  /**
   * What one comparison of the pass keeps: the pair (j, j+1) is exchanged exactly when
   * a[j+1] <= a[j], so the larger of the two ends at j+1, the partition at i and the
   * sorted suffix survive, and a prefix that was strictly increasing and saw no swap
   * grows by one.
   */
  lemma BubbleStep(a: seq<int>, b: seq<int>, j: int, i: int, swapped: bool)
    requires 0 <= j < i < |a|
    requires MaxAt(a, j) && Partitioned(a, i) && SortedFrom(a, i + 1)
    requires swapped <==> a[j + 1] <= a[j]
    requires b == if swapped then SwapAt(a, j, j + 1) else a
    ensures MaxAt(b, j + 1) && Partitioned(b, i) && SortedFrom(b, i + 1)
    ensures StrictlyIncreasing(a[..j + 1]) && !swapped ==> StrictlyIncreasing(b[..j + 2])
  {
    if StrictlyIncreasing(a[..j + 1]) && !swapped {
      var c := b[..j + 2];
      forall p, q | 0 <= p < q < |c|
        ensures c[p] < c[q]
      {
        if q <= j {
          assert a[..j + 1][p] < a[..j + 1][q];
        }
      }
    }
  }

  /**
   * One comparison of the pass: compare (j+1, j); on "less or equal" mark j and swap
   * j with j+1, otherwise unmark.
   */
  method CompareAndSwap(s: Sorter, data: array<int>, j: int) returns (swapped: bool)
    requires 0 <= j && j + 1 < data.Length
    requires Replay(s.initial, s.steps) == data[..] && TallyOf(s.steps).replacements == 0
    modifies s, data
    ensures Replay(s.initial, s.steps) == data[..] && TallyOf(s.steps).replacements == 0
    ensures swapped <==> old(data[j + 1] <= data[j])
    ensures data[..] == if swapped then SwapAt(old(data[..]), j, j + 1) else old(data[..])
    ensures s.steps == old(s.steps) + if swapped
                                       then [Comparison(true, j + 1, j), Step.Mark(false, j, false), Step.Swap(true, j, j + 1)]
                                       else [Comparison(true, j + 1, j), Unmark(false)]
  {
    swapped := s.Compare(data, j + 1, j, true);
    assert Replay(s.initial, s.steps) == data[..] && TallyOf(s.steps).replacements == 0;
    if swapped {
      s.Mark(j, false);
      assert Replay(s.initial, s.steps) == data[..] && TallyOf(s.steps).replacements == 0;
      s.Swap(data, j, j + 1, true);
    } else {
      s.Unmark(false);
    }
  }

  /**
   * One pass over slots 0..i. The largest value of 0..i ends at i, the slots above i
   * keep their order and their bound, and a pass that never swapped saw 0..i strictly
   * increasing. On a strictly increasing 0..i the pass records exactly QuietPass(i).
   */
  method BubblePass(s: Sorter, data: array<int>, i: int) returns (sortedFlag: bool)
    requires 1 <= i < data.Length
    requires Replay(s.initial, s.steps) == data[..] && TallyOf(s.steps).replacements == 0
    requires Partitioned(data[..], i) && SortedFrom(data[..], i + 1)
    modifies s, data
    ensures Replay(s.initial, s.steps) == data[..] && TallyOf(s.steps).replacements == 0
    ensures Partitioned(data[..], i) && SortedFrom(data[..], i + 1)
    ensures MaxAt(data[..], i)
    ensures sortedFlag ==> StrictlyIncreasing(data[..i + 1])
    ensures StrictlyIncreasing(old(data[..i + 1])) ==>
              sortedFlag && data[..] == old(data[..]) && s.steps == old(s.steps) + QuietPass(i)
  {
    ghost var quiet := StrictlyIncreasing(data[..i + 1]);
    ghost var start, trace := data[..], s.steps;
    sortedFlag := true;
    for j := 0 to i
      invariant Replay(s.initial, s.steps) == data[..] && TallyOf(s.steps).replacements == 0
      invariant MaxAt(data[..], j) && Partitioned(data[..], i) && SortedFrom(data[..], i + 1)
      invariant sortedFlag ==> StrictlyIncreasing(data[..j + 1])
      invariant quiet ==> sortedFlag && data[..] == start && s.steps == trace + QuietPass(j)
    {
      ghost var before := data[..];
      if quiet {
        QuietStep(start, j, i);
        QuietPassExtend(trace, j);
      }
      var swapped := CompareAndSwap(s, data, j);
      BubbleStep(before, data[..], j, i, swapped);
      if swapped {
        sortedFlag := false;
      }
    }
  }

  /** A strictly increasing a[0..i] answers "no swap" at every j < i. */
  lemma QuietStep(a: seq<int>, j: int, i: int)
    requires 0 <= j < i < |a|
    requires StrictlyIncreasing(a[..i + 1])
    ensures a[j] < a[j + 1]
  {
    assert a[..i + 1][j] < a[..i + 1][j + 1];
  }

  /**
   * Bubble sort with a fresh trace: the array ends sorted and rearranged and the trace
   * replays to it. On strictly increasing input the first pass swaps nothing and the
   * sort stops there: n-1 comparisons, n-1 unmarks and nothing else.
   */
  method BubbleSort(data: array<int>) returns (steps: seq<Step>)
    modifies data
    ensures Sorted(data[..])
    ensures multiset(data[..]) == multiset(old(data[..]))
    ensures Replay(old(data[..]), steps) == data[..]
    ensures StrictlyIncreasing(old(data[..])) ==>
              steps == QuietPass(if data.Length == 0 then 0 else data.Length - 1)
  {
    var s := new Sorter(data[..]);
    var n := data.Length;
    var i := n - 1;
    while i > 0
      invariant i <= n - 1 && (i >= 0 || i == n - 1)
      invariant Replay(s.initial, s.steps) == data[..] && TallyOf(s.steps).replacements == 0
      invariant Partitioned(data[..], i) && SortedFrom(data[..], i + 1)
      invariant StrictlyIncreasing(old(data[..])) ==> i == n - 1 && s.steps == [] && data[..] == old(data[..])
    {
      var sortedFlag := BubblePass(s, data, i);
      if sortedFlag {
        SortedByEarlyStop(data[..], i);
        break;
      }
      i := i - 1;
    }
    if i <= 0 {
      SortedWhenDone(data[..], i);
    }
    steps := s.steps;
    ReplayPermutes(s.initial, steps);
  }

  /** A strictly increasing 0..i below a sorted, larger suffix: all sorted. */
  lemma SortedByEarlyStop(a: seq<int>, i: int)
    requires 0 <= i < |a|
    requires StrictlyIncreasing(a[..i + 1]) && Partitioned(a, i) && SortedFrom(a, i + 1)
    ensures Sorted(a)
  {
    forall p, q | 0 <= p < q < |a|
      ensures a[p] <= a[q]
    {
      if q <= i {
        assert a[..i + 1][p] < a[..i + 1][q];
      }
    }
  }

  /** With nothing left below the sorted suffix, the whole array is sorted. */
  lemma SortedWhenDone(a: seq<int>, i: int)
    requires i <= 0
    requires Partitioned(a, i) && SortedFrom(a, i + 1)
    ensures Sorted(a)
  {
  }
}
