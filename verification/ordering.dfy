/** Order and distinctness of slot values, shared by the sorters and the initiators. */
module Ordering {

  /** Non-decreasing: what every sorter of the engine is meant to produce. */
  predicate Sorted(s: seq<int>)
  {
    forall p, q :: 0 <= p < q < |s| ==> s[p] <= s[q]
  }

  /** Strictly increasing, as the output of the sorted initiator is. */
  predicate StrictlyIncreasing(s: seq<int>)
  {
    forall p, q :: 0 <= p < q < |s| ==> s[p] < s[q]
  }

  /** Strictly decreasing, as the Shell sort gap list is. */
  predicate StrictlyDecreasing(s: seq<int>)
  {
    forall p, q :: 0 <= p < q < |s| ==> s[p] > s[q]
  }

  /** No value occurs twice. */
  predicate Distinct(s: seq<int>)
  {
    forall p, q :: 0 <= p < q < |s| ==> s[p] != s[q]
  }

  /** Every value of `s` is at most `v`. */
  predicate AllAtMost(s: seq<int>, v: int)
  {
    forall x :: x in s ==> x <= v
  }

  /** Every value of `s` is at least `v`. */
  predicate AllAtLeast(s: seq<int>, v: int)
  {
    forall x :: x in s ==> v <= x
  }

  /** A bound on the values survives any rearrangement of them. */
  lemma BoundsSurvivePermutation(s: seq<int>, t: seq<int>, lo: int, hi: int)
    requires multiset(s) == multiset(t)
    ensures AllAtMost(s, hi) ==> AllAtMost(t, hi)
    ensures AllAtLeast(s, lo) ==> AllAtLeast(t, lo)
  {
    forall x | x in t
      ensures x in s
    {
      assert x in multiset(t);
    }
  }

  /** Exchanging two slots keeps the values pairwise distinct. */
  lemma SwapKeepsDistinct(s: seq<int>, r: seq<int>, i: int, j: int)
    requires 0 <= i < |s| && 0 <= j < |s| && |r| == |s|
    requires r[i] == s[j] && r[j] == s[i]
    requires forall k :: 0 <= k < |s| && k != i && k != j ==> r[k] == s[k]
    requires Distinct(s)
    ensures Distinct(r)
  {
    forall p, q | 0 <= p < q < |r|
      ensures r[p] != r[q]
    {
      var p' := if p == i then j else if p == j then i else p;
      var q' := if q == i then j else if q == j then i else q;
      assert r[p] == s[p'] && r[q] == s[q'] && p' != q';
    }
  }

  /** Multisets of equal sequences that agree outside l..r agree on l..r too. */
  lemma SliceMultiset(a: seq<int>, b: seq<int>, l: int, r: int)
    requires 0 <= l <= r <= |a| == |b|
    requires multiset(a) == multiset(b)
    requires forall k :: 0 <= k < |a| && !(l <= k < r) ==> a[k] == b[k]
    ensures multiset(a[l..r]) == multiset(b[l..r])
  {
    assert a == a[..l] + a[l..r] + a[r..];
    assert b == b[..l] + b[l..r] + b[r..];
    assert a[..l] == b[..l];
    assert a[r..] == b[r..];
    calc {
      multiset(a[l..r]);
      multiset(a) - multiset(a[..l]) - multiset(a[r..]);
      multiset(b) - multiset(b[..l]) - multiset(b[r..]);
      multiset(b[l..r]);
    }
  }

  /** Conversely, rearranging l..r and nothing else keeps the multiset of the whole. */
  lemma WholeMultiset(a: seq<int>, b: seq<int>, l: int, r: int)
    requires 0 <= l <= r <= |a| == |b|
    requires multiset(a[l..r]) == multiset(b[l..r])
    requires forall k :: 0 <= k < |a| && !(l <= k < r) ==> a[k] == b[k]
    ensures multiset(a) == multiset(b)
  {
    assert a == a[..l] + a[l..r] + a[r..];
    assert b == b[..l] + b[l..r] + b[r..];
    assert a[..l] == b[..l];
    assert a[r..] == b[r..];
  }
}
