/**
 * Shaker sort as written (SortingAlgorithms.py:143-189): rounds i = 1, ..., floor(n/2)-1
 * of an upward pass over slots i-1..n-i followed by a downward pass over n-i..i-1,
 * stopping after any pass that swapped nothing. The round bound stops one round short
 * of a full sort, so this module states the exact data and trace the code produces and
 * does not claim sortedness: inputs of up to three slots are never touched, and
 * [4, 3, 2, 1] ends as [1, 3, 2, 4].
 */
module ShakerSorter {
  import opened SortingSteps
  import opened Ordering
  import opened Sorter
  import opened BubbleSorter
  import opened CombSorter

  /** Upward step at j: compare (j+1, j); on "less or equal" mark j and swap, else unmark. */
  function UpStep(w: Sweep, j: int): (r: Sweep)
    requires 0 <= j && j + 1 < |w.data|
    ensures |r.data| == |w.data|
  {
    if w.data[j + 1] <= w.data[j] then
      Sweep(SwapAt(w.data, j, j + 1),
            w.steps + [Comparison(true, j + 1, j), Step.Mark(false, j, false), Step.Swap(true, j, j + 1)],
            true)
    else
      Sweep(w.data, w.steps + [Comparison(true, j + 1, j), Unmark(false)], w.swapped)
  }

  /** Downward step at j: compare (j, j-1); on "less or equal" mark j and swap, else unmark. */
  function DownStep(w: Sweep, j: int): (r: Sweep)
    requires 0 < j < |w.data|
    ensures |r.data| == |w.data|
  {
    if w.data[j] <= w.data[j - 1] then
      Sweep(SwapAt(w.data, j, j - 1),
            w.steps + [Comparison(true, j, j - 1), Step.Mark(false, j, false), Step.Swap(true, j, j - 1)],
            true)
    else
      Sweep(w.data, w.steps + [Comparison(true, j, j - 1), Unmark(false)], w.swapped)
  }

  /** The upward pass from j on: UpStep at j, j+1, ..., hi-1. */
  function UpSweep(w: Sweep, j: int, hi: int): (r: Sweep)
    requires 0 <= j && hi < |w.data|
    ensures |r.data| == |w.data|
    ensures forall q :: 0 <= q < |w.data| && !(j <= q <= hi) ==> r.data[q] == w.data[q]
    decreases hi - j
  {
    if j >= hi then w else UpSweep(UpStep(w, j), j + 1, hi)
  }

  /** The downward pass from j on: DownStep at j, j-1, ..., lo+1. */
  function DownSweep(w: Sweep, j: int, lo: int): (r: Sweep)
    requires 0 <= lo && j < |w.data|
    ensures |r.data| == |w.data|
    ensures forall q :: 0 <= q < |w.data| && !(lo <= q <= j) ==> r.data[q] == w.data[q]
    decreases j - lo
  {
    if j <= lo then w else DownSweep(DownStep(w, j), j - 1, lo)
  }

  /** Rounds i, i+1, ... below floor(n/2), from array a and trace t. */
  function ShakerRounds(a: seq<int>, t: seq<Step>, i: nat): (r: (seq<int>, seq<Step>))
    requires i >= 1
    ensures |r.0| == |a|
    decreases |a| / 2 - i
  {
    if i >= |a| / 2 then (a, t)
    else
      var up := UpSweep(Sweep(a, t, false), i - 1, |a| - i);
      if !up.swapped then (up.data, up.steps)
      else
        var down := DownSweep(Sweep(up.data, up.steps, false), |a| - i, i - 1);
        if !down.swapped then (down.data, down.steps)
        else ShakerRounds(down.data, down.steps, i + 1)
  }

  /** The array and the trace a shaker sort of `a` ends with. */
  function Shaker(a: seq<int>): (r: (seq<int>, seq<Step>))
    ensures |a| <= 3 ==> r == (a, [])
  {
    ShakerRounds(a, [], 1)
  }

  /** A round whose upward pass swapped nothing ends the sort. */
  lemma RoundEndsAfterUp(a: seq<int>, t: seq<Step>, i: nat, up: Sweep)
    requires 1 <= i < |a| / 2
    requires up == UpSweep(Sweep(a, t, false), i - 1, |a| - i) && !up.swapped
    ensures ShakerRounds(a, t, i) == (up.data, up.steps)
  {
  }

  /** Otherwise the downward pass follows, and the sort ends or goes on to round i+1. */
  lemma RoundContinues(a: seq<int>, t: seq<Step>, i: nat, up: Sweep, down: Sweep)
    requires 1 <= i < |a| / 2
    requires up == UpSweep(Sweep(a, t, false), i - 1, |a| - i) && up.swapped
    requires down == DownSweep(Sweep(up.data, up.steps, false), |a| - i, i - 1)
    ensures ShakerRounds(a, t, i) ==
              if down.swapped then ShakerRounds(down.data, down.steps, i + 1) else (down.data, down.steps)
  {
  }

  /**
   * An upward pass reports no swap exactly when it had not swapped before and found
   * slots j..hi strictly increasing. Such a pass leaves the data as they were and
   * records one comparison/unmark pair per slot, which is what ends the sort at
   * SortingAlgorithms.py:168-169.
   */
  lemma {:induction false} QuietUpSweep(w: Sweep, j: int, hi: int)
    requires 0 <= j && hi < |w.data|
    ensures var r := UpSweep(w, j, hi);
            (!r.swapped <==> !w.swapped && forall k :: j <= k < hi ==> w.data[k] < w.data[k + 1]) &&
            (!r.swapped ==> r.data == w.data && r.steps == w.steps + QuietRun(1, j, hi))
    decreases hi - j
  {
    if j < hi {
      var next := UpStep(w, j);
      QuietUpSweep(next, j + 1, hi);
      if !next.swapped {
        assert next.data == w.data;
        assert next.steps == w.steps + [Comparison(true, j + 1, j), Unmark(false)];
        assert w.steps + [Comparison(true, j + 1, j), Unmark(false)] + QuietRun(1, j + 1, hi)
            == w.steps + QuietRun(1, j, hi);
      }
    } else {
      assert w.steps + QuietRun(1, j, hi) == w.steps;
    }
  }

  /**
   * Strictly increasing input: the first upward pass swaps nothing, so the sort stops
   * after it with the data unchanged and a trace of comparison/unmark pairs alone (no
   * round at all below four slots): no Swap step and no Mark step.
   */
  lemma IncreasingShakerQuiet(a: seq<int>)
    requires StrictlyIncreasing(a)
    ensures Shaker(a).0 == a
    ensures Shaker(a).1 == if |a| >= 4 then QuietRun(1, 0, |a| - 1) else []
    ensures TallyOf(Shaker(a).1).swaps == 0 && TallyOf(Shaker(a).1).marks == 0
  {
    if |a| >= 4 {
      var w := Sweep(a, [], false);
      var up := UpSweep(w, 0, |a| - 1);
      QuietUpSweep(w, 0, |a| - 1);
      RoundEndsAfterUp(a, [], 1, up);
    }
    QuietRunAddsNoSwap([], 1, 0, |a| - 1);
    assert [] + QuietRun(1, 0, |a| - 1) == QuietRun(1, 0, |a| - 1);
  }

  /** The six exchanges round 1 makes on [4, 3, 2, 1]. */
  lemma SwapsOnFourReversed()
    ensures SwapAt([4, 3, 2, 1], 0, 1) == [3, 4, 2, 1]
    ensures SwapAt([3, 4, 2, 1], 1, 2) == [3, 2, 4, 1]
    ensures SwapAt([3, 2, 4, 1], 2, 3) == [3, 2, 1, 4]
    ensures SwapAt([3, 2, 1, 4], 2, 1) == [3, 1, 2, 4]
    ensures SwapAt([3, 1, 2, 4], 1, 0) == [1, 3, 2, 4]
  {
  }

  /** The upward pass of round 1 on [4, 3, 2, 1] carries 4 to the top. */
  lemma UpOnFourReversed(t: seq<Step>) returns (up: Sweep)
    ensures up == UpSweep(Sweep([4, 3, 2, 1], t, false), 0, 3)
    ensures up.data == [3, 2, 1, 4] && up.swapped
  {
    SwapsOnFourReversed();
    var w1 := UpStep(Sweep([4, 3, 2, 1], t, false), 0);
    assert w1.data == [3, 4, 2, 1] && w1.swapped;
    var w2 := UpStep(w1, 1);
    assert w2.data == [3, 2, 4, 1] && w2.swapped;
    var w3 := UpStep(w2, 2);
    assert w3.data == [3, 2, 1, 4] && w3.swapped;
    up := w3;
  }

  /** The downward pass of round 1 then carries 1 to the bottom and leaves 3 above 2. */
  lemma DownOnFourReversed(t: seq<Step>) returns (down: Sweep)
    ensures down == DownSweep(Sweep([3, 2, 1, 4], t, false), 3, 0)
    ensures down.data == [1, 3, 2, 4] && down.swapped
  {
    SwapsOnFourReversed();
    var w1 := DownStep(Sweep([3, 2, 1, 4], t, false), 3);
    assert w1.data == [3, 2, 1, 4] && !w1.swapped;
    var w2 := DownStep(w1, 2);
    assert w2.data == [3, 1, 2, 4] && w2.swapped;
    var w3 := DownStep(w2, 1);
    assert w3.data == [1, 3, 2, 4] && w3.swapped;
    down := w3;
  }

  /** The loss of the last round shows on [4, 3, 2, 1]: one round, ending at [1, 3, 2, 4]. */
  lemma FourReversedEndsUnsorted()
    ensures Shaker([4, 3, 2, 1]).0 == [1, 3, 2, 4]
    ensures !Sorted(Shaker([4, 3, 2, 1]).0)
  {
    var up := UpOnFourReversed([]);
    var down := DownOnFourReversed(up.steps);
    RoundContinues([4, 3, 2, 1], [], 1, up, down);
    var last := Shaker([4, 3, 2, 1]).0;
    assert last[1] > last[2];
  }

  /** The upward pass carries the largest value of slots j..hi to hi. */
  lemma {:induction false} UpSweepCarriesMax(w: Sweep, j: int, hi: int)
    requires 0 <= j <= hi < |w.data|
    ensures forall q :: j <= q <= hi ==> w.data[q] <= UpSweep(w, j, hi).data[hi]
    decreases hi - j
  {
    if j < hi {
      var next := UpStep(w, j);
      UpSweepCarriesMax(next, j + 1, hi);
      forall q | j <= q <= hi
        ensures w.data[q] <= UpSweep(w, j, hi).data[hi]
      {
        if q > j + 1 {
          assert next.data[q] == w.data[q];
        }
      }
    }
  }

  /** The downward pass carries the smallest value of slots lo..j to lo. */
  lemma {:induction false} DownSweepCarriesMin(w: Sweep, j: int, lo: int)
    requires 0 <= lo <= j < |w.data|
    ensures forall q :: lo <= q <= j ==> DownSweep(w, j, lo).data[lo] <= w.data[q]
    decreases j - lo
  {
    if j > lo {
      var next := DownStep(w, j);
      DownSweepCarriesMin(next, j - 1, lo);
      forall q | lo <= q <= j
        ensures DownSweep(w, j, lo).data[lo] <= w.data[q]
      {
        if q < j - 1 {
          assert next.data[q] == w.data[q];
        }
      }
    }
  }

  /** Downward step at j, on the array: compare (j, j-1); on "less or equal" mark j and swap. */
  method CompareAndSwapDown(s: Sorter, data: array<int>, j: int) returns (swapped: bool)
    requires 0 < j < data.Length
    requires Replay(s.initial, s.steps) == data[..] && TallyOf(s.steps).replacements == 0
    modifies s, data
    ensures Replay(s.initial, s.steps) == data[..] && TallyOf(s.steps).replacements == 0
    ensures var w := DownStep(Sweep(old(data[..]), old(s.steps), false), j);
            data[..] == w.data && s.steps == w.steps && swapped == w.swapped
  {
    swapped := s.Compare(data, j, j - 1, true);
    assert Replay(s.initial, s.steps) == data[..] && TallyOf(s.steps).replacements == 0;
    if swapped {
      s.Mark(j, false);
      assert Replay(s.initial, s.steps) == data[..] && TallyOf(s.steps).replacements == 0;
      s.Swap(data, j, j - 1, true);
    } else {
      s.Unmark(false);
    }
  }

  /** The upward pass over lo..hi on the array: it does exactly what UpSweep describes. */
  method UpPass(s: Sorter, data: array<int>, lo: int, hi: int) returns (swapped: bool)
    requires 0 <= lo <= hi < data.Length
    requires Replay(s.initial, s.steps) == data[..] && TallyOf(s.steps).replacements == 0
    modifies s, data
    ensures Replay(s.initial, s.steps) == data[..] && TallyOf(s.steps).replacements == 0
    ensures Sweep(data[..], s.steps, swapped) == UpSweep(Sweep(old(data[..]), old(s.steps), false), lo, hi)
  {
    ghost var goal := UpSweep(Sweep(data[..], s.steps, false), lo, hi);
    swapped := false;
    for j := lo to hi
      invariant Replay(s.initial, s.steps) == data[..] && TallyOf(s.steps).replacements == 0
      invariant UpSweep(Sweep(data[..], s.steps, swapped), j, hi) == goal
    {
      var sw := CompareAndSwap(s, data, j);
      swapped := swapped || sw;
    }
  }

  /** The downward pass from hi down to lo+1 on the array: exactly what DownSweep describes. */
  method DownPass(s: Sorter, data: array<int>, hi: int, lo: int) returns (swapped: bool)
    requires 0 <= lo <= hi < data.Length
    requires Replay(s.initial, s.steps) == data[..] && TallyOf(s.steps).replacements == 0
    modifies s, data
    ensures Replay(s.initial, s.steps) == data[..] && TallyOf(s.steps).replacements == 0
    ensures Sweep(data[..], s.steps, swapped) == DownSweep(Sweep(old(data[..]), old(s.steps), false), hi, lo)
  {
    ghost var goal := DownSweep(Sweep(data[..], s.steps, false), hi, lo);
    swapped := false;
    var j := hi;
    while j > lo
      invariant lo <= j <= hi
      invariant Replay(s.initial, s.steps) == data[..] && TallyOf(s.steps).replacements == 0
      invariant DownSweep(Sweep(data[..], s.steps, swapped), j, lo) == goal
    {
      var sw := CompareAndSwapDown(s, data, j);
      swapped := swapped || sw;
      j := j - 1;
    }
  }

  /**
   * Shaker sort with a fresh trace: the array and the trace end exactly as Shaker
   * describes, the array is a rearrangement of the input, and the trace replays to it.
   */
  method ShakerSort(data: array<int>) returns (steps: seq<Step>)
    modifies data
    ensures (data[..], steps) == Shaker(old(data[..]))
    ensures multiset(data[..]) == multiset(old(data[..]))
    ensures Replay(old(data[..]), steps) == data[..]
  {
    var s := new Sorter(data[..]);
    var n := data.Length;
    ghost var goal := Shaker(data[..]);
    var i := 1;
    while i < n / 2
      invariant i >= 1
      invariant Replay(s.initial, s.steps) == data[..] && TallyOf(s.steps).replacements == 0
      invariant ShakerRounds(data[..], s.steps, i) == goal
    {
      ghost var a, t := data[..], s.steps;
      var sortedFlag := UpPass(s, data, i - 1, n - i);
      ghost var up := Sweep(data[..], s.steps, sortedFlag);
      sortedFlag := !sortedFlag;
      if sortedFlag {
        RoundEndsAfterUp(a, t, i, up);
        break;
      }
      sortedFlag := DownPass(s, data, n - i, i - 1);
      RoundContinues(a, t, i, up, Sweep(data[..], s.steps, sortedFlag));
      sortedFlag := !sortedFlag;
      if sortedFlag {
        break;
      }
      i := i + 1;
    }
    steps := s.steps;
    ReplayPermutes(s.initial, steps);
  }
}
