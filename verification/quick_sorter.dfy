/**
 * Quicksort (SortingAlgorithms.py:228-280, copied at Sorter.py:218-270 and, without
 * delays, at Algorithms.py:175-227): the last slot of the range is the pivot; two
 * scans meet at the pivot's final slot, swapping out-of-place pairs on the way; the
 * pivot is swapped there and both sides are sorted recursively.
 */
module QuickSorter {
  import opened SortingSteps
  import opened Ordering
  import opened Sorter

  /** a[l..r], both ends included, is in order; an empty range always is. */
  predicate SortedRange(a: seq<int>, l: int, r: int)
  {
    forall p, q :: 0 <= l <= p < q <= r < |a| ==> a[p] <= a[q]
  }

  /** A quicksort trace holds only Focus, Mark, Comparison and Swap steps. */
  predicate QuickKinds(c: Tally)
  {
    c.unmarks == 0 && c.unfocuses == 0 && c.replacements == 0 && c.unreplacements == 0
  }

  /** Both sides sorted around a pivot that splits them: the whole range is sorted. */
  lemma JoinAroundPivot(a: seq<int>, l: int, i: int, r: int)
    requires 0 <= l <= i <= r < |a|
    requires SortedRange(a, l, i - 1) && SortedRange(a, i + 1, r)
    requires forall k :: l <= k < i ==> a[k] <= a[i]
    requires forall k :: i < k <= r ==> a[i] <= a[k]
    ensures SortedRange(a, l, r)
  {
  }

  /**
   * Rearranging slots lo..hi and nothing else keeps every bound that held on
   * lo..hi: below v when `below`, above v otherwise.
   */
  lemma RearrangedKeepsBound(a: seq<int>, b: seq<int>, lo: int, hi: int, v: int, below: bool)
    requires 0 <= lo && hi < |a| == |b|
    requires multiset(a) == multiset(b)
    requires forall k :: 0 <= k < |a| && !(lo <= k <= hi) ==> a[k] == b[k]
    requires forall k :: lo <= k <= hi ==> if below then a[k] <= v else v <= a[k]
    ensures forall k :: lo <= k <= hi ==> if below then b[k] <= v else v <= b[k]
  {
    if lo <= hi {
      SliceMultiset(a, b, lo, hi + 1);
      var sa, sb := a[lo..hi + 1], b[lo..hi + 1];
      if below {
        assert AllAtMost(sa, v) by {
          forall x | x in sa ensures x <= v {
            var k :| 0 <= k < |sa| && sa[k] == x;
            assert a[lo + k] == x;
          }
        }
        BoundsSurvivePermutation(sa, sb, v, v);
        forall k | lo <= k <= hi ensures b[k] <= v {
          assert sb[k - lo] == b[k] && sb[k - lo] in sb;
        }
      } else {
        assert AllAtLeast(sa, v) by {
          forall x | x in sa ensures v <= x {
            var k :| 0 <= k < |sa| && sa[k] == x;
            assert a[lo + k] == x;
          }
        }
        BoundsSurvivePermutation(sa, sb, v, v);
        forall k | lo <= k <= hi ensures v <= b[k] {
          assert sb[k - lo] == b[k] && sb[k - lo] in sb;
        }
      }
    }
  }

  /**
   * The upward scan: step i up, comparing the pivot at r with each slot, and stop at
   * the first slot at least the pivot. It stops at j at the latest, since the slots
   * from j to r are all at least the pivot.
   */
  method ScanUp(s: Sorter, data: array<int>, i0: int, j: int, r: int) returns (i: int)
    requires -1 <= i0 < j <= r < data.Length
    requires forall k :: j <= k <= r ==> data[r] <= data[k]
    requires Replay(s.initial, s.steps) == data[..] && QuickKinds(TallyOf(s.steps))
    modifies s
    ensures i0 < i <= j && data[r] <= data[i]
    ensures forall k :: i0 < k < i ==> data[k] < data[r]
    ensures Replay(s.initial, s.steps) == data[..] && QuickKinds(TallyOf(s.steps))
    ensures old(s.steps) <= s.steps
  {
    i := i0;
    while i < j
      invariant i0 <= i <= j
      invariant forall k :: i0 < k <= i ==> data[k] < data[r]
      invariant Replay(s.initial, s.steps) == data[..] && QuickKinds(TallyOf(s.steps))
      invariant old(s.steps) <= s.steps
    {
      i := i + 1;
      var found := s.Compare(data, r, i, true);
      if found {
        break;
      }
    }
  }

  /**
   * The downward scan: step j down, comparing each slot with the pivot at r, and stop
   * at the first slot at most the pivot, or when j meets i.
   */
  method ScanDown(s: Sorter, data: array<int>, i: int, j0: int, r: int) returns (j: int)
    requires 0 <= i <= j0 <= r < data.Length
    requires Replay(s.initial, s.steps) == data[..] && QuickKinds(TallyOf(s.steps))
    modifies s
    ensures i <= j <= j0 && (i < j0 ==> j < j0)
    ensures forall k :: j < k < j0 ==> data[r] < data[k]
    ensures j > i ==> data[j] <= data[r]
    ensures Replay(s.initial, s.steps) == data[..] && QuickKinds(TallyOf(s.steps))
    ensures old(s.steps) <= s.steps
  {
    j := j0;
    while i < j
      invariant i <= j <= j0
      invariant forall k :: j <= k < j0 ==> data[r] < data[k]
      invariant Replay(s.initial, s.steps) == data[..] && QuickKinds(TallyOf(s.steps))
      invariant old(s.steps) <= s.steps
    {
      j := j - 1;
      var found := s.Compare(data, j, r, true);
      if found {
        break;
      }
    }
  }

  /**
   * The partition of l..r around the pivot at r: the scans meet at slot i, the pivot is
   * swapped there unless it is there already, every slot of l..i-1 is at most the pivot
   * and every slot of i+1..r at least. Slots outside l..r are untouched.
   */
  method Partition(s: Sorter, data: array<int>, l: int, r: int) returns (i: int)
    requires 0 <= l < r < data.Length
    requires Replay(s.initial, s.steps) == data[..] && QuickKinds(TallyOf(s.steps))
    modifies s, data
    ensures l <= i <= r && data[i] == old(data[r])
    ensures forall k :: l <= k < i ==> data[k] <= data[i]
    ensures forall k :: i < k <= r ==> data[i] <= data[k]
    ensures forall k :: 0 <= k < data.Length && !(l <= k <= r) ==> data[k] == old(data[k])
    ensures Replay(s.initial, s.steps) == data[..] && QuickKinds(TallyOf(s.steps))
    ensures old(s.steps) <= s.steps
  {
    var p := r;
    ghost var pivot := data[p];
    i := l - 1;
    var j := r;
    while i < j
      invariant l - 1 <= i <= j <= r && data[r] == pivot
      invariant forall k :: l <= k < i ==> data[k] <= pivot
      invariant forall k :: j < k < r ==> pivot <= data[k]
      invariant i < j ==> (i == l - 1 || data[i] <= pivot) && (j == r || pivot <= data[j])
      invariant i == j ==> l <= i && pivot <= data[i]
      invariant forall k :: 0 <= k < data.Length && !(l <= k <= r) ==> data[k] == old(data[k])
      invariant Replay(s.initial, s.steps) == data[..] && QuickKinds(TallyOf(s.steps))
      invariant old(s.steps) <= s.steps
      decreases j - i
    {
      i := ScanUp(s, data, i, j, r);
      j := ScanDown(s, data, i, j, r);
      if i < j {
        s.Swap(data, i, j, true);
      }
    }
    if i < p {
      s.Swap(data, i, p, true);
    }
  }

  /**
   * The recursion on l..r: nothing happens (and nothing is recorded) unless r > l;
   * otherwise focus l..r, mark the pivot slot r, partition, and sort both sides, each
   * strictly smaller than l..r. The range ends sorted, the array is rearranged only
   * within l..r, and the trace only grows.
   */
  method Recursion(s: Sorter, data: array<int>, l: int, r: int)
    requires 0 <= l <= r + 1 <= data.Length
    requires Replay(s.initial, s.steps) == data[..] && QuickKinds(TallyOf(s.steps))
    modifies s, data
    ensures SortedRange(data[..], l, r)
    ensures multiset(data[..]) == multiset(old(data[..]))
    ensures forall k :: 0 <= k < data.Length && !(l <= k <= r) ==> data[k] == old(data[k])
    ensures Replay(s.initial, s.steps) == data[..] && QuickKinds(TallyOf(s.steps))
    ensures old(s.steps) <= s.steps
    ensures r <= l ==> s.steps == old(s.steps)
    decreases r - l
  {
    if r > l {
      var p := r;
      s.Focus(l, r, true);
      s.Mark(p, true);
      var i := Partition(s, data, l, r);
      ghost var split := data[..];
      Recursion(s, data, l, i - 1);
      ghost var left := data[..];
      Recursion(s, data, i + 1, r);
      ghost var right := data[..];
      RearrangedKeepsBound(split, left, l, i - 1, split[i], true);
      RearrangedKeepsBound(left, right, i + 1, r, split[i], false);
      assert SortedRange(right, l, i - 1) by {
        forall p, q | 0 <= l <= p < q <= i - 1 ensures right[p] <= right[q] {
          assert right[p] == left[p] && right[q] == left[q];
        }
      }
      JoinAroundPivot(right, l, i, r);
      PrefixReplayPermutes(s.initial, old(s.steps), s.steps);
    }
  }

  /**
   * Quicksort with a fresh trace: the array ends sorted and rearranged, the trace
   * replays to it and holds only Focus, Mark, Comparison and Swap steps, and an array
   * of at most one slot records nothing.
   */
  method QuickSort(data: array<int>) returns (steps: seq<Step>)
    modifies data
    ensures Sorted(data[..])
    ensures multiset(data[..]) == multiset(old(data[..]))
    ensures Replay(old(data[..]), steps) == data[..]
    ensures QuickKinds(TallyOf(steps))
    ensures data.Length <= 1 ==> steps == []
  {
    var s := new Sorter(data[..]);
    Recursion(s, data, 0, data.Length - 1);
    steps := s.steps;
  }
}
