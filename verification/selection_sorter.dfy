/** Selection sort (SortingAlgorithms.py:6-30; the same code is at Sorter.py:81-105). */
module SelectionSorter {
  import opened SortingSteps
  import opened Ordering
  import opened Sorter

  /** Comparisons made by the first i rounds on n slots: round r compares n - r - 1 times. */
  function Rounds(n: nat, i: nat): nat
    requires i <= n
  {
    if i == 0 then 0 else Rounds(n, i - 1) + (n - i)
  }

  /** After i rounds, i(2n - i - 1)/2 comparisons. */
  lemma {:induction false} RoundsClosedForm(n: nat, i: nat)
    requires i <= n
    ensures 2 * Rounds(n, i) == i * (2 * n - i - 1)
  {
    if i > 0 {
      RoundsClosedForm(n, i - 1);
      assert i * (2 * n - i - 1) == (i - 1) * (2 * n - i) + 2 * (n - i);
    }
  }

  /** A whole selection sort on n slots compares n(n - 1)/2 times: once per pair of slots. */
  lemma AllRounds(n: nat)
    ensures 2 * Rounds(n, n) == n * (n - 1)
  {
    RoundsClosedForm(n, n);
    assert n * (2 * n - n - 1) == n * (n - 1);
  }

  /** The first i slots hold the i smallest values, in order. */
  predicate SettledPrefix(a: seq<int>, i: int)
  {
    forall p, q :: 0 <= p < i && p < q < |a| ==> a[p] <= a[q]
  }

  /** Swapping the minimum of a[i..] into slot i extends the settled prefix by one. */
  lemma SwapMinimumSettles(a: seq<int>, i: int, min: int)
    requires 0 <= i <= min < |a|
    requires SettledPrefix(a, i)
    requires forall q :: i <= q < |a| ==> a[min] <= a[q]
    ensures SettledPrefix(SwapAt(a, i, min), i + 1)
  {
  }

  /**
   * One round's search: focus i..n-1, mark i, then compare every later slot with the
   * current candidate, moving (and re-marking) the candidate whenever the later slot
   * is less than or equal to it, so the search ends on the last position of the
   * smallest value. The slot values are only read.
   */
  method ScanForMinimum(s: Sorter, data: array<int>, i: int) returns (min: int)
    requires 0 <= i < data.Length
    modifies s
    ensures i <= min < data.Length
    ensures forall q :: i <= q < data.Length ==> data[min] <= data[q]
    ensures forall q :: min < q < data.Length ==> data[min] < data[q]
    ensures Replay(s.initial, s.steps) == old(Replay(s.initial, s.steps))
    ensures TallyOf(s.steps).replacements == old(TallyOf(s.steps).replacements)
    ensures TallyOf(s.steps).comparisons == old(TallyOf(s.steps).comparisons) + (data.Length - i - 1)
    ensures TallyOf(s.steps).swaps == old(TallyOf(s.steps).swaps)
    ensures TallyOf(s.steps).focuses == old(TallyOf(s.steps).focuses) + 1
  {
    s.Focus(i, data.Length - 1, true);
    min := i;
    s.Mark(min, false);
    for j := i + 1 to data.Length
      modifies s
      invariant Replay(s.initial, s.steps) == old(Replay(s.initial, s.steps))
      invariant TallyOf(s.steps).replacements == old(TallyOf(s.steps).replacements)
      invariant i <= min < j
      invariant forall q :: i <= q < j ==> data[min] <= data[q]
      invariant forall q :: min < q < j ==> data[min] < data[q]
      invariant TallyOf(s.steps).comparisons == old(TallyOf(s.steps).comparisons) + (j - i - 1)
      invariant TallyOf(s.steps).swaps == old(TallyOf(s.steps).swaps)
      invariant TallyOf(s.steps).focuses == old(TallyOf(s.steps).focuses) + 1
    {
      var le := s.Compare(data, j, min, true);
      if le {
        min := j;
        s.Mark(min, false);
      }
    }
  }

  /**
   * For each left boundary i, find the position of the smallest remaining value and
   * swap it to i, also when it is already there: n rounds, n swaps, and the trace
   * replays to the sorted array.
   */
  method SelectionSort(data: array<int>) returns (steps: seq<Step>)
    modifies data
    ensures Sorted(data[..])
    ensures multiset(data[..]) == multiset(old(data[..]))
    ensures Replay(old(data[..]), steps) == data[..]
    ensures TallyOf(steps).comparisons == Rounds(data.Length, data.Length)
    ensures TallyOf(steps).swaps == data.Length
    ensures TallyOf(steps).focuses == data.Length
  {
    var s := new Sorter(data[..]);
    var n := data.Length;
    for i := 0 to n
      invariant Replay(s.initial, s.steps) == data[..]
      invariant TallyOf(s.steps).replacements == 0
      invariant SettledPrefix(data[..], i)
      invariant TallyOf(s.steps).comparisons == Rounds(n, i)
      invariant TallyOf(s.steps).swaps == i && TallyOf(s.steps).focuses == i
    {
      ghost var scanned := data[..];
      var min := ScanForMinimum(s, data, i);
      s.Swap(data, i, min, true);
      SwapMinimumSettles(scanned, i, min);
    }
    steps := s.steps;
    assert SettledPrefix(data[..], n);
    ReplayPermutes(s.initial, steps);
  }
}
