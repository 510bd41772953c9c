/**
 * The second sorter set (Algorithms.py:93-227), which records only Comparison and
 * Swap steps for selection and bubble sort (no Focus, Mark or Unmark) and whose steps
 * carry no delay flag; they are modelled as Step values with `delay` true, which the
 * player of this set never reads. Its quicksort records exactly what
 * QuickSorter.QuickSort records and is that method.
 */
module PlainSorters {
  import opened SortingSteps
  import opened Ordering
  import opened Sorter
  import opened SelectionSorter
  import opened BubbleSorter

  /** A trace of Comparison and Swap steps only. */
  predicate ComparesAndSwaps(c: Tally)
  {
    c.marks == 0 && c.unmarks == 0 && c.focuses == 0 && c.unfocuses == 0 &&
    c.replacements == 0 && c.unreplacements == 0
  }

  /**
   * Selection sort's search without display steps: compare each later slot with the
   * candidate and move the candidate on "less or equal", ending on the last position
   * of the smallest value; only comparisons are recorded.
   */
  method ScanPlain(s: Sorter, data: array<int>, i: int) returns (min: int)
    requires 0 <= i < data.Length
    requires Replay(s.initial, s.steps) == data[..]
    modifies s
    ensures i <= min < data.Length
    ensures forall q :: i <= q < data.Length ==> data[min] <= data[q]
    ensures forall q :: min < q < data.Length ==> data[min] < data[q]
    ensures Replay(s.initial, s.steps) == data[..]
    ensures TallyOf(s.steps) == old(TallyOf(s.steps)).(comparisons := old(TallyOf(s.steps)).comparisons + (data.Length - i - 1))
  {
    ghost var before := TallyOf(s.steps);
    min := i;
    for j := i + 1 to data.Length
      modifies s
      invariant Replay(s.initial, s.steps) == data[..]
      invariant i <= min < j
      invariant forall q :: i <= q < j ==> data[min] <= data[q]
      invariant forall q :: min < q < j ==> data[min] < data[q]
      invariant TallyOf(s.steps) == before.(comparisons := before.comparisons + (j - i - 1))
    {
      var le := s.Compare(data, j, min, true);
      if le {
        min := j;
      }
    }
  }

  /**
   * Selection sort of the second set (Algorithms.py:129-150): sorted, rearranged,
   * replayed by its trace, and the trace is exactly n(n-1)/2 comparisons (Rounds(n, n),
   * see AllRounds) and n swaps.
   */
  method SelectionSort(data: array<int>) returns (steps: seq<Step>)
    modifies data
    ensures Sorted(data[..])
    ensures multiset(data[..]) == multiset(old(data[..]))
    ensures Replay(old(data[..]), steps) == data[..]
    ensures TallyOf(steps) == NoSteps.(comparisons := Rounds(data.Length, data.Length), swaps := data.Length)
  {
    var s := new Sorter(data[..]);
    var n := data.Length;
    for i := 0 to n
      invariant Replay(s.initial, s.steps) == data[..]
      invariant SettledPrefix(data[..], i)
      invariant TallyOf(s.steps) == NoSteps.(comparisons := Rounds(n, i), swaps := i)
    {
      ghost var scanned := data[..];
      var min := ScanPlain(s, data, i);
      s.Swap(data, i, min, true);
      SwapMinimumSettles(scanned, i, min);
    }
    steps := s.steps;
    assert SettledPrefix(data[..], n);
    ReplayPermutes(s.initial, steps);
  }

  /** The trace of a quiet pass of this set over 0..m: the comparisons (j+1, j) alone. */
  function QuietCompares(m: nat): (r: seq<Step>)
    ensures |r| == m
  {
    if m == 0 then [] else QuietCompares(m - 1) + [Comparison(true, m, m - 1)]
  }

  /** A quiet pass makes exactly m comparisons and records nothing else. */
  lemma {:induction false} QuietComparesTally(m: nat)
    ensures TallyOf(QuietCompares(m)) == NoSteps.(comparisons := m)
  {
    if m > 0 {
      QuietComparesTally(m - 1);
      assert QuietCompares(m)[..m - 1] == QuietCompares(m - 1);
    }
  }

  lemma QuietComparesExtend(trace: seq<Step>, j: nat)
    ensures trace + QuietCompares(j) + [Comparison(true, j + 1, j)] == trace + QuietCompares(j + 1)
  {
  }

  /** A comparison of the pass: compare (j+1, j) and swap j with j+1 on "less or equal". */
  method CompareAndSwapPlain(s: Sorter, data: array<int>, j: int) returns (swapped: bool)
    requires 0 <= j && j + 1 < data.Length
    requires Replay(s.initial, s.steps) == data[..] && ComparesAndSwaps(TallyOf(s.steps))
    modifies s, data
    ensures Replay(s.initial, s.steps) == data[..] && ComparesAndSwaps(TallyOf(s.steps))
    ensures swapped <==> old(data[j + 1] <= data[j])
    ensures data[..] == if swapped then SwapAt(old(data[..]), j, j + 1) else old(data[..])
    ensures s.steps == old(s.steps) + if swapped
                                       then [Comparison(true, j + 1, j), Step.Swap(true, j, j + 1)]
                                       else [Comparison(true, j + 1, j)]
  {
    swapped := s.Compare(data, j + 1, j, true);
    if swapped {
      s.Swap(data, j, j + 1, true);
    }
  }

  /** What a pass over 0..i keeps once it has compared up to slot j. */
  ghost predicate PassKeeps(s: Sorter, data: array<int>, i: int, j: int, noSwap: bool,
                            quiet: bool, start: seq<int>, trace: seq<Step>)
    requires 0 <= j <= i < data.Length
    reads s, data
  {
    Replay(s.initial, s.steps) == data[..] && ComparesAndSwaps(TallyOf(s.steps)) &&
    MaxAt(data[..], j) && Partitioned(data[..], i) && SortedFrom(data[..], i + 1) &&
    (noSwap ==> StrictlyIncreasing(data[..j + 1])) &&
    (quiet ==> noSwap && data[..] == start && s.steps == trace + QuietCompares(j))
  }

  /** One comparison of the pass over 0..i, at slot j, keeping PassKeeps. */
  method PlainPassStep(s: Sorter, data: array<int>, i: int, j: int, noSwap: bool,
                       ghost quiet: bool, ghost start: seq<int>, ghost trace: seq<Step>)
    returns (noSwap': bool)
    requires 0 <= j < i < data.Length
    requires PassKeeps(s, data, i, j, noSwap, quiet, start, trace)
    requires quiet ==> StrictlyIncreasing(start[..i + 1])
    modifies s, data
    ensures PassKeeps(s, data, i, j + 1, noSwap', quiet, start, trace)
  {
    ghost var before := data[..];
    if quiet {
      QuietStep(start, j, i);
      QuietComparesExtend(trace, j);
    }
    var swapped := CompareAndSwapPlain(s, data, j);
    BubbleStep(before, data[..], j, i, swapped);
    noSwap' := noSwap && !swapped;
  }

  /** One pass over 0..i, as BubbleSorter.BubblePass but with comparisons and swaps only. */
  method PlainPass(s: Sorter, data: array<int>, i: int) returns (noSwap: bool)
    requires 1 <= i < data.Length
    requires Replay(s.initial, s.steps) == data[..] && ComparesAndSwaps(TallyOf(s.steps))
    requires Partitioned(data[..], i) && SortedFrom(data[..], i + 1)
    modifies s, data
    ensures Replay(s.initial, s.steps) == data[..] && ComparesAndSwaps(TallyOf(s.steps))
    ensures Partitioned(data[..], i) && SortedFrom(data[..], i + 1)
    ensures MaxAt(data[..], i)
    ensures noSwap ==> StrictlyIncreasing(data[..i + 1])
    ensures StrictlyIncreasing(old(data[..i + 1])) ==>
              noSwap && data[..] == old(data[..]) && s.steps == old(s.steps) + QuietCompares(i)
  {
    ghost var quiet := StrictlyIncreasing(data[..i + 1]);
    ghost var start, trace := data[..], s.steps;
    noSwap := true;
    for j := 0 to i
      invariant PassKeeps(s, data, i, j, noSwap, quiet, start, trace)
    {
      noSwap := PlainPassStep(s, data, i, j, noSwap, quiet, start, trace);
    }
  }

  /**
   * Bubble sort of the second set (Algorithms.py:152-172): sorted, rearranged, replayed
   * by its trace of comparisons and swaps; on strictly increasing input the first pass
   * swaps nothing and the sort stops: n-1 comparisons and nothing else.
   */
  method BubbleSort(data: array<int>) returns (steps: seq<Step>)
    modifies data
    ensures Sorted(data[..])
    ensures multiset(data[..]) == multiset(old(data[..]))
    ensures Replay(old(data[..]), steps) == data[..]
    ensures ComparesAndSwaps(TallyOf(steps))
    ensures StrictlyIncreasing(old(data[..])) ==>
              steps == QuietCompares(if data.Length == 0 then 0 else data.Length - 1)
  {
    var s := new Sorter(data[..]);
    var n := data.Length;
    var i := n - 1;
    while i > 0
      invariant i <= n - 1 && (i >= 0 || i == n - 1)
      invariant Replay(s.initial, s.steps) == data[..] && ComparesAndSwaps(TallyOf(s.steps))
      invariant Partitioned(data[..], i) && SortedFrom(data[..], i + 1)
      invariant StrictlyIncreasing(old(data[..])) ==> i == n - 1 && s.steps == [] && data[..] == old(data[..])
    {
      var noSwap := PlainPass(s, data, i);
      if noSwap {
        SortedByEarlyStop(data[..], i);
        break;
      }
      i := i - 1;
    }
    if i <= 0 {
      SortedWhenDone(data[..], i);
    }
    steps := s.steps;
    ReplayPermutes(s.initial, steps);
  }
}
