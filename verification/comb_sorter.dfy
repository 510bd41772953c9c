/**
 * Comb sort (SortingAlgorithms.py:192-225): passes that compare slots a gap h apart,
 * the gap shrinking by the factor 1.3 each round down to 1, until a gap-1 pass swaps
 * nothing. A pass swaps on "less or equal", so two equal values are swapped every time
 * they meet and the gap-1 pass never becomes quiet: the sort terminates on pairwise
 * distinct values only, and this module requires them.
 */
module CombSorter {
  import opened SortingSteps
  import opened Ordering
  import opened Sorter

  /**
   * The next gap, floor(h / 1.3), in exact arithmetic: the largest r with
   * 13 r <= 10 h. It is below h whenever h is positive.
   */
  function ShrinkGap(h: nat): (r: nat)
    ensures 13 * r <= 10 * h < 13 * (r + 1)
    ensures h >= 1 ==> r < h
  {
    (10 * h) / 13
  }

  /** The comparison at slot i of a gap-h pass: compare (i+h, i); on "less or equal" mark i and swap. */
  function CombStep(w: Sweep, i: int, h: int): (r: Sweep)
    requires 0 <= i && 1 <= h && i + h < |w.data|
    ensures |r.data| == |w.data|
  {
    if w.data[i + h] <= w.data[i] then
      Sweep(SwapAt(w.data, i, i + h),
            w.steps + [Comparison(true, i + h, i), Step.Mark(false, i, false), Step.Swap(true, i, i + h)],
            true)
    else
      Sweep(w.data, w.steps + [Comparison(true, i + h, i), Unmark(false)], w.swapped)
  }

  /** The rest of a gap-h pass from slot i: CombStep at i, i+1, ..., n-h-1. */
  function GapSweep(w: Sweep, i: int, h: int): (r: Sweep)
    requires 0 <= i && 1 <= h
    ensures |r.data| == |w.data|
    decreases |w.data| - i
  {
    if i + h >= |w.data| then w else GapSweep(CombStep(w, i, h), i + 1, h)
  }

  /** The trace of a gap-h pass over slots lo..hi-1 that never swaps. */
  function QuietRun(h: int, lo: int, hi: int): (r: seq<Step>)
    ensures |r| == if lo < hi then 2 * (hi - lo) else 0
    decreases hi - lo
  {
    if lo >= hi then [] else [Comparison(true, lo + h, lo), Unmark(false)] + QuietRun(h, lo + 1, hi)
  }

  /** The trace ends with the quiet gap-1 pass over n slots, the pass that stops the sort. */
  predicate EndsQuiet(steps: seq<Step>, n: int)
  {
    n >= 2 ==> |steps| >= 2 * (n - 1) && steps[|steps| - 2 * (n - 1)..] == QuietRun(1, 0, n - 1)
  }

  /** A quiet run over lo..hi-1 records one comparison and one unmark per slot and nothing else. */
  lemma {:induction false} QuietRunTally(h: int, lo: int, hi: int)
    ensures var k := if lo < hi then hi - lo else 0;
            TallyOf(QuietRun(h, lo, hi)) == NoSteps.(comparisons := k, unmarks := k)
    decreases hi - lo
  {
    if lo < hi {
      var pair := [Comparison(true, lo + h, lo), Unmark(false)];
      QuietRunTally(h, lo + 1, hi);
      TallyAppend(pair, QuietRun(h, lo + 1, hi));
      assert pair[..|pair| - 1] == [Comparison(true, lo + h, lo)];
      assert pair[..|pair| - 1][..0] == [];
      assert TallyOf(pair[..|pair| - 1]) == NoSteps.(comparisons := 1);
    }
  }

  /** Appending a quiet run adds no swap and no mark to a trace. */
  lemma QuietRunAddsNoSwap(t: seq<Step>, h: int, lo: int, hi: int)
    ensures TallyOf(t + QuietRun(h, lo, hi)).swaps == TallyOf(t).swaps
    ensures TallyOf(t + QuietRun(h, lo, hi)).marks == TallyOf(t).marks
  {
    TallyAppend(t, QuietRun(h, lo, hi));
    QuietRunTally(h, lo, hi);
  }

  /** A pass that has already swapped stays swapped. */
  lemma {:induction false} SweepStaysSwapped(w: Sweep, i: int, h: int)
    requires 0 <= i && 1 <= h && w.swapped
    ensures GapSweep(w, i, h).swapped
    decreases |w.data| - i
  {
    if i + h < |w.data| {
      SweepStaysSwapped(CombStep(w, i, h), i + 1, h);
    }
  }

  /**
   * A pass that ends without a swap changed nothing, recorded only comparisons and
   * unmarks, and found every pair h apart strictly increasing; a pass that had already
   * swapped stays swapped.
   */
  lemma {:induction false} QuietSweep(w: Sweep, i: int, h: int)
    requires 0 <= i && 1 <= h
    ensures var r := GapSweep(w, i, h);
            (w.swapped ==> r.swapped) &&
            (!r.swapped ==> r.data == w.data && r.steps == w.steps + QuietRun(h, i, |w.data| - h) &&
                            forall k :: i <= k < |w.data| - h ==> w.data[k] < w.data[k + h])
    decreases |w.data| - i
  {
    if w.swapped {
      SweepStaysSwapped(w, i, h);
    } else if i + h < |w.data| && !GapSweep(w, i, h).swapped {
      var next := CombStep(w, i, h);
      var pair := [Comparison(true, i + h, i), Unmark(false)];
      assert GapSweep(w, i, h) == GapSweep(next, i + 1, h);
      if next.swapped {
        SweepStaysSwapped(next, i + 1, h);
      }
      assert w.data[i] < w.data[i + h];
      assert next.data == w.data && next.steps == w.steps + pair;
      QuietSweep(next, i + 1, h);
      assert QuietRun(h, i, |w.data| - h) == pair + QuietRun(h, i + 1, |w.data| - h);
      assert w.steps + pair + QuietRun(h, i + 1, |w.data| - h) == w.steps + QuietRun(h, i, |w.data| - h);
    }
  }

  /** Conversely, a pass that finds every pair h apart strictly increasing swaps nothing. */
  lemma {:induction false} IncreasingSweepQuiet(w: Sweep, i: int, h: int)
    requires 0 <= i && 1 <= h && !w.swapped
    requires forall k :: i <= k < |w.data| - h ==> w.data[k] < w.data[k + h]
    ensures !GapSweep(w, i, h).swapped
    decreases |w.data| - i
  {
    if i + h < |w.data| {
      var next := CombStep(w, i, h);
      assert next.data == w.data && !next.swapped;
      IncreasingSweepQuiet(next, i + 1, h);
    }
  }

  /** The weight sum of k * a[k]: it grows with every exchange that moves a larger value up. */
  function Weight(a: seq<int>): int
  {
    if |a| == 0 then 0 else Weight(a[..|a| - 1]) + (|a| - 1) * a[|a| - 1]
  }

  /** The largest weight n slots can have when no value exceeds m. */
  function WeightCap(n: nat, m: int): int
  {
    if n == 0 then 0 else WeightCap(n - 1, m) + (n - 1) * m
  }

  lemma MulMonotone(k: nat, x: int, y: int)
    requires x <= y
    ensures k * x <= k * y
  {
  }

  /** Overwriting slot k with v changes the weight by k * (v - a[k]). */
  lemma {:induction false} WeightUpdate(a: seq<int>, k: int, v: int)
    requires 0 <= k < |a|
    ensures Weight(a[k := v]) == Weight(a) + k * (v - a[k])
  {
    var n := |a|;
    var b := a[k := v];
    if k == n - 1 {
      assert b[..n - 1] == a[..n - 1];
      assert k * (v - a[k]) == k * v - k * a[k];
    } else {
      assert b[..n - 1] == a[..n - 1][k := v];
      WeightUpdate(a[..n - 1], k, v);
    }
  }

  /** Exchanging an inverted pair i < j raises the weight. */
  lemma WeightSwap(a: seq<int>, i: int, j: int)
    requires 0 <= i < j < |a| && a[j] < a[i]
    ensures Weight(SwapAt(a, i, j)) > Weight(a)
  {
    var b := a[i := a[j]];
    WeightUpdate(a, i, a[j]);
    WeightUpdate(b, j, a[i]);
    assert SwapAt(a, i, j) == b[j := a[i]];
    var gain := (j - i) * (a[i] - a[j]);
    assert i * (a[j] - a[i]) + j * (a[i] - a[j]) == gain;
    assert gain > 0;
  }

  /** No value above m keeps the weight at most WeightCap(n, m). */
  lemma {:induction false} WeightBelowCap(a: seq<int>, m: int)
    requires AllAtMost(a, m)
    ensures Weight(a) <= WeightCap(|a|, m)
  {
    if |a| > 0 {
      var init := a[..|a| - 1];
      assert AllAtMost(init, m) by {
        forall x | x in init
          ensures x <= m
        {
          assert x in a;
        }
      }
      WeightBelowCap(init, m);
      assert a[|a| - 1] in a;
      MulMonotone(|a| - 1, a[|a| - 1], m);
    }
  }

  /** Exchanging two slots keeps every value at most m. */
  lemma SwapKeepsCeiling(a: seq<int>, i: int, j: int, m: int)
    requires 0 <= i < |a| && 0 <= j < |a|
    requires AllAtMost(a, m)
    ensures AllAtMost(SwapAt(a, i, j), m)
  {
    var b := SwapAt(a, i, j);
    forall x | x in b
      ensures x <= m
    {
      var k :| 0 <= k < |b| && b[k] == x;
      var k' := if k == i then j else if k == j then i else k;
      assert x == a[k'] && a[k'] in a;
    }
  }

  /**
   * On distinct values a pass keeps the values distinct and below any ceiling, never
   * lowers the weight, and raises it if it swaps at all.
   */
  lemma {:induction false} SweepRaisesWeight(w: Sweep, i: int, h: int, m: int)
    requires 0 <= i && 1 <= h
    requires Distinct(w.data) && AllAtMost(w.data, m)
    ensures var r := GapSweep(w, i, h);
            Distinct(r.data) && AllAtMost(r.data, m) && Weight(w.data) <= Weight(r.data) &&
            (r.swapped && !w.swapped ==> Weight(w.data) < Weight(r.data))
    decreases |w.data| - i
  {
    if i + h < |w.data| {
      var next := CombStep(w, i, h);
      if w.data[i + h] <= w.data[i] {
        var b := SwapAt(w.data, i, i + h);
        SwapKeepsDistinct(w.data, b, i, i + h);
        SwapKeepsCeiling(w.data, i, i + h, m);
        WeightSwap(w.data, i, i + h);
      }
      SweepRaisesWeight(next, i + 1, h, m);
    }
  }

  /** A largest value of a, found by a scan from the end. */
  function Ceiling(a: seq<int>): (m: int)
    ensures AllAtMost(a, m)
  {
    if |a| == 0 then 0
    else
      var rest := Ceiling(a[..|a| - 1]);
      var m := if a[|a| - 1] > rest then a[|a| - 1] else rest;
      assert forall x :: x in a ==> x in a[..|a| - 1] || x == a[|a| - 1];
      m
  }

  /** Adjacent slots strictly increasing: the whole array is strictly increasing. */
  lemma {:induction false} AdjacentStrict(a: seq<int>)
    requires forall k :: 0 <= k < |a| - 1 ==> a[k] < a[k + 1]
    ensures StrictlyIncreasing(a)
  {
    if |a| > 1 {
      var init := a[..|a| - 1];
      AdjacentStrict(init);
      forall p | 0 <= p < |a| - 1
        ensures a[p] < a[|a| - 1]
      {
        assert init[p] < init[|init| - 1] || p == |init| - 1;
      }
    }
  }

  /** Undoing an exchange: values distinct after it were distinct before it. */
  lemma SwapRevealsDistinct(a: seq<int>, i: int, j: int)
    requires 0 <= i < |a| && 0 <= j < |a|
    ensures Distinct(SwapAt(a, i, j)) ==> Distinct(a)
  {
    var b := SwapAt(a, i, j);
    if Distinct(b) {
      SwapKeepsDistinct(b, a, i, j);
    }
  }

  /** A pass only exchanges slots, so a repeated value stays repeated. */
  lemma {:induction false} SweepKeepsDuplicates(w: Sweep, i: int, h: int)
    requires 0 <= i && 1 <= h
    ensures Distinct(GapSweep(w, i, h).data) ==> Distinct(w.data)
    decreases |w.data| - i
  {
    if i + h < |w.data| {
      SweepKeepsDuplicates(CombStep(w, i, h), i + 1, h);
      if w.data[i + h] <= w.data[i] {
        SwapRevealsDistinct(w.data, i, i + h);
      }
    }
  }

  /** A gap-1 pass that swaps nothing found the values strictly increasing. */
  lemma QuietGapOneIncreasing(w: Sweep)
    ensures !GapSweep(w, 0, 1).swapped ==> StrictlyIncreasing(w.data)
  {
    QuietSweep(w, 0, 1);
    if !GapSweep(w, 0, 1).swapped {
      AdjacentStrict(w.data);
    }
  }

  /** A comparison of the pass on the array: exactly CombStep. */
  method CompareAcrossGap(s: Sorter, data: array<int>, i: int, h: int) returns (swapped: bool)
    requires 0 <= i && 1 <= h && i + h < data.Length
    requires Replay(s.initial, s.steps) == data[..] && TallyOf(s.steps).replacements == 0
    modifies s, data
    ensures Replay(s.initial, s.steps) == data[..] && TallyOf(s.steps).replacements == 0
    ensures var w := CombStep(Sweep(old(data[..]), old(s.steps), false), i, h);
            data[..] == w.data && s.steps == w.steps && swapped == w.swapped
  {
    var j := i + h;
    swapped := s.Compare(data, j, i, true);
    assert Replay(s.initial, s.steps) == data[..] && TallyOf(s.steps).replacements == 0;
    if swapped {
      s.Mark(i, false);
      assert Replay(s.initial, s.steps) == data[..] && TallyOf(s.steps).replacements == 0;
      s.Swap(data, i, j, true);
    } else {
      s.Unmark(false);
    }
  }

  /** A whole gap-h pass on the array: exactly GapSweep from slot 0. */
  method CombPass(s: Sorter, data: array<int>, h: int) returns (swapped: bool)
    requires 1 <= h
    requires Replay(s.initial, s.steps) == data[..] && TallyOf(s.steps).replacements == 0
    modifies s, data
    ensures Replay(s.initial, s.steps) == data[..] && TallyOf(s.steps).replacements == 0
    ensures Sweep(data[..], s.steps, swapped) == GapSweep(Sweep(old(data[..]), old(s.steps), false), 0, h)
  {
    ghost var goal := GapSweep(Sweep(data[..], s.steps, false), 0, h);
    swapped := false;
    var i := 0;
    while i < data.Length - h
      invariant 0 <= i
      invariant Replay(s.initial, s.steps) == data[..] && TallyOf(s.steps).replacements == 0
      invariant GapSweep(Sweep(data[..], s.steps, swapped), i, h) == goal
      decreases data.Length - i
    {
      var sw := CompareAcrossGap(s, data, i, h);
      swapped := swapped || sw;
      i := i + 1;
    }
  }

  /**
   * What a whole gap-h pass over distinct values gives a round: the values stay distinct
   * and bounded; a quiet pass found neighbours h apart strictly increasing and appended
   * the quiet run; a swapping pass raised the weight; and on strictly increasing values
   * the pass is quiet.
   */
  lemma PassOutcome(w: Sweep, h: int, m: int)
    requires 1 <= h && !w.swapped
    requires Distinct(w.data) && AllAtMost(w.data, m)
    ensures var r := GapSweep(w, 0, h);
            Distinct(r.data) && AllAtMost(r.data, m) &&
            (r.swapped ==> Weight(w.data) < Weight(r.data)) &&
            (!r.swapped ==> r.data == w.data && r.steps == w.steps + QuietRun(h, 0, |w.data| - h) &&
                            forall k :: 0 <= k < |w.data| - h ==> w.data[k] < w.data[k + h]) &&
            (StrictlyIncreasing(w.data) ==> !r.swapped)
  {
    QuietSweep(w, 0, h);
    SweepRaisesWeight(w, 0, h, m);
    if StrictlyIncreasing(w.data) {
      IncreasingSweepQuiet(w, 0, h);
    }
  }

  /**
   * A round as a value: the gap shrunk from h0 by ShrinkGap and clamped at 1, and the
   * gap-h pass over the data from a cleared swap flag.
   */
  function Round(a: seq<int>, t: seq<Step>, h0: int): (r: (int, Sweep))
    ensures r.0 >= 1 && |r.1.data| == |a|
  {
    var g := ShrinkGap(if h0 >= 0 then h0 else 0);
    var h := if g <= 1 then 1 else g;
    (h, GapSweep(Sweep(a, t, false), 0, h))
  }

  /**
   * What a round on distinct values bounded by m yields: they stay distinct and bounded,
   * and the gap shrinks from h0 >= 2. From h0 <= 2 the gap is 1: a quiet pass then found
   * neighbours strictly increasing and ends the trace, and a pass that swapped raised
   * the weight. Strictly increasing data makes the round quiet, whatever the gap.
   */
  lemma RoundOutcome(a: seq<int>, t: seq<Step>, h0: int, m: int)
    requires h0 >= 1 || |a| == 0
    requires Distinct(a) && AllAtMost(a, m)
    ensures var r := Round(a, t, h0);
            Distinct(r.1.data) && AllAtMost(r.1.data, m) && (h0 >= 2 ==> r.0 < h0) &&
            (h0 <= 2 && !r.1.swapped ==>
               r.0 == 1 && (forall k :: 0 <= k < |a| - 1 ==> r.1.data[k] < r.1.data[k + 1]) &&
               EndsQuiet(r.1.steps, |a|)) &&
            (h0 <= 2 && r.1.swapped ==> r.0 == 1 && Weight(a) < Weight(r.1.data)) &&
            (StrictlyIncreasing(a) ==> r.1.data == a && r.1.steps == t + QuietRun(r.0, 0, |a| - r.0))
  {
    var w := Sweep(a, t, false);
    var h := Round(a, t, h0).0;
    PassOutcome(w, h, m);
    var r := GapSweep(w, 0, h);
    assert Round(a, t, h0) == (h, r);
    if StrictlyIncreasing(a) {
      assert !r.swapped;
      assert r.steps == t + QuietRun(h, 0, |a| - h);
    }
    if h0 <= 2 && !r.swapped && |a| >= 2 {
      var q := QuietRun(1, 0, |a| - 1);
      assert h == 1 && r.steps == t + q;
      assert |r.steps| - 2 * (|a| - 1) == |t|;
      assert (t + q)[|t|..] == q;
    }
  }

  /**
   * One round of the sort: shrink the gap (a gap of at most 1 becomes 1 and makes this
   * round a candidate for the last), then run the pass, which cancels the candidacy if
   * it swaps. A last round has found neighbours strictly increasing and recorded the
   * quiet gap-1 pass; any other round shrank the gap or, at gap 1, raised the weight.
   */
  method CombRound(s: Sorter, data: array<int>, h0: int, ghost m: int) returns (h: int, sortedFlag: bool)
    requires h0 >= 1 || data.Length == 0
    requires Replay(s.initial, s.steps) == data[..] && TallyOf(s.steps).replacements == 0
    requires Distinct(data[..]) && AllAtMost(data[..], m)
    modifies s, data
    ensures Replay(s.initial, s.steps) == data[..] && TallyOf(s.steps).replacements == 0
    ensures Distinct(data[..]) && AllAtMost(data[..], m)
    ensures h >= 1 && (h0 >= 2 ==> h < h0)
    ensures var r := Round(old(data[..]), old(s.steps), h0);
            h == r.0 && data[..] == r.1.data && s.steps == r.1.steps && (sortedFlag <==> h0 <= 2 && !r.1.swapped)
    ensures sortedFlag ==> h == 1 && forall k :: 0 <= k < data.Length - 1 ==> data[k] < data[k + 1]
    ensures sortedFlag ==> EndsQuiet(s.steps, data.Length)
    ensures !sortedFlag && h0 <= 1 ==> h == 1 && old(Weight(data[..])) < Weight(data[..])
    ensures StrictlyIncreasing(old(data[..])) ==>
              data[..] == old(data[..]) && s.steps == old(s.steps) + QuietRun(h, 0, data.Length - h)
  {
    sortedFlag := false;
    h := ShrinkGap(if h0 >= 0 then h0 else 0);
    if h <= 1 {
      sortedFlag := true;
      h := 1;
    }
    ghost var w := Sweep(data[..], s.steps, false);
    ghost var r := GapSweep(w, 0, h);
    assert Round(w.data, w.steps, h0) == (h, r);
    var swapped := CombPass(s, data, h);
    assert data[..] == r.data && s.steps == r.steps && swapped == r.swapped;
    RoundOutcome(w.data, w.steps, h0, m);
    if swapped {
      sortedFlag := false;
    }
  }

  /**
   * One iteration of the sort's loop: CombRound, and the facts that carry the loop's
   * invariant and its measure into the next iteration.
   */
  method LoopRound(s: Sorter, data: array<int>, h0: int, ghost m: int, ghost a0: seq<int>)
    returns (h: int, sortedFlag: bool)
    requires h0 >= 1 || data.Length == 0
    requires Replay(s.initial, s.steps) == data[..] && TallyOf(s.steps).replacements == 0
    requires Distinct(data[..]) && AllAtMost(data[..], m)
    requires StrictlyIncreasing(a0) ==>
               data[..] == a0 && TallyOf(s.steps).swaps == 0 && TallyOf(s.steps).marks == 0
    modifies s, data
    ensures Replay(s.initial, s.steps) == data[..] && TallyOf(s.steps).replacements == 0
    ensures Distinct(data[..]) && AllAtMost(data[..], m)
    ensures Weight(data[..]) <= WeightCap(data.Length, m)
    ensures h >= 1 && (h0 >= 2 ==> h < h0)
    ensures sortedFlag ==> (forall k :: 0 <= k < data.Length - 1 ==> data[k] < data[k + 1]) &&
                           EndsQuiet(s.steps, data.Length)
    ensures !sortedFlag && h0 <= 1 ==> h == 1 && old(Weight(data[..])) < Weight(data[..])
    ensures StrictlyIncreasing(a0) ==>
              data[..] == a0 && TallyOf(s.steps).swaps == 0 && TallyOf(s.steps).marks == 0
  {
    ghost var before := s.steps;
    h, sortedFlag := CombRound(s, data, h0, m);
    WeightBelowCap(data[..], m);
    if StrictlyIncreasing(a0) {
      QuietRunAddsNoSwap(before, h, 0, data.Length - h);
    }
  }

  /**
   * Comb sort of distinct values with a fresh trace: the array ends sorted and
   * rearranged, the trace replays to it, and the trace ends with the quiet gap-1 pass
   * that stopped the sort.
   */
  method CombSort(data: array<int>) returns (steps: seq<Step>)
    requires Distinct(data[..])
    modifies data
    ensures Sorted(data[..])
    ensures multiset(data[..]) == multiset(old(data[..]))
    ensures Replay(old(data[..]), steps) == data[..]
    ensures EndsQuiet(steps, data.Length)
    ensures StrictlyIncreasing(old(data[..])) ==> TallyOf(steps).swaps == 0 && TallyOf(steps).marks == 0
  {
    var s := new Sorter(data[..]);
    ghost var a0 := data[..];
    var n := data.Length;
    ghost var m := Ceiling(data[..]);
    var h := n;
    var sortedFlag := false;
    WeightBelowCap(data[..], m);
    while !sortedFlag
      invariant h >= 1 || n == 0
      invariant Replay(s.initial, s.steps) == data[..] && TallyOf(s.steps).replacements == 0
      invariant Distinct(data[..]) && AllAtMost(data[..], m)
      invariant Weight(data[..]) <= WeightCap(n, m)
      invariant sortedFlag ==> forall k :: 0 <= k < n - 1 ==> data[k] < data[k + 1]
      invariant sortedFlag ==> EndsQuiet(s.steps, n)
      invariant StrictlyIncreasing(a0) ==>
                  data[..] == a0 && TallyOf(s.steps).swaps == 0 && TallyOf(s.steps).marks == 0
      decreases if sortedFlag then 0 else 1, h, WeightCap(n, m) - Weight(data[..])
    {
      h, sortedFlag := LoopRound(s, data, h, m, a0);
    }
    steps := s.steps;
    AdjacentStrict(data[..]);
    ReplayPermutes(s.initial, steps);
  }

  /**
   * Equal keys never settle: on any array holding a value twice the gap-1 pass swaps,
   * so the round cannot end the sort, and the value is still held twice afterwards, so
   * the next gap-1 round swaps again, forever.
   */
  lemma DuplicatesNeverSettle(a: seq<int>, t: seq<Step>)
    requires !Distinct(a)
    ensures var r := GapSweep(Sweep(a, t, false), 0, 1);
            r.swapped && !Distinct(r.data)
  {
    QuietGapOneIncreasing(Sweep(a, t, false));
    SweepKeepsDuplicates(Sweep(a, t, false), 0, 1);
  }
}
