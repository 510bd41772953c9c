/**
 * The initiators (Initiator.py:26-84, copied at Algorithms.py:12-68): each builds the
 * array of n values that a session sorts. The random draws numpy would make are
 * parameters, constrained to the ranges the calls can return (`randint(lo, hi)` draws
 * from lo..hi-1 and fails when that range is empty; `permutation` of m items is given
 * as the order in which it takes them).
 */
module Initiators {
  import opened Wrappers
  import opened Ordering
  import opened SortingSteps

  /** The values 1..n, each once, in some order: what every initiator produces. */
  predicate OneToN(a: seq<int>)
  {
    Distinct(a) && forall k :: 0 <= k < |a| ==> 1 <= a[k] <= |a|
  }

  /** `order` lists 0..m-1, each once: a draw of `permutation` on m items. */
  predicate IndexOrder(order: seq<int>, m: int)
  {
    |order| == m && Distinct(order) && forall k :: 0 <= k < m ==> 0 <= order[k] < m
  }

  /** The message numpy's `randint` raises when its range is empty. */
  const EmptyRange := "low >= high"

  /** The set of the values 1..n, which has n elements. */
  function UpTo(n: nat): (r: set<int>)
    ensures |r| == n && forall v :: v in r <==> 1 <= v <= n
  {
    if n == 0 then {} else UpTo(n - 1) + {n}
  }

  /** |S| distinct values drawn from S take every value of S. */
  lemma {:induction false} FillsSet(a: seq<int>, S: set<int>)
    requires Distinct(a) && |a| == |S|
    requires forall k :: 0 <= k < |a| ==> a[k] in S
    ensures forall v :: v in S ==> v in a
    decreases |a|
  {
    if |a| > 0 {
      var c := a[|a| - 1];
      var b := a[..|a| - 1];
      assert forall k :: 0 <= k < |b| ==> b[k] == a[k] && b[k] != c;
      FillsSet(b, S - {c});
      forall v | v in S ensures v in a {
        if v != c {
          assert v in b;
        }
      }
    }
  }

  /**
   * n distinct values between 1 and n take every value between 1 and n: OneToN is
   * exactly "a permutation of 1..n".
   */
  lemma Pigeonhole(a: seq<int>)
    requires OneToN(a)
    ensures forall v :: 1 <= v <= |a| ==> v in a
  {
    FillsSet(a, UpTo(|a|));
  }

  /** SortedInitiator: 1, 2, ..., n, the start of the transposition and local initiators. */
  function Ascending(n: nat): (r: seq<int>)
    ensures |r| == n && OneToN(r) && StrictlyIncreasing(r)
    ensures forall k :: 0 <= k < n ==> r[k] == k + 1
  {
    seq(n, k => k + 1)
  }

  /** ReverseInitiator: n, n-1, ..., 1, the mirror image of Ascending(n). */
  function Reverse(n: nat): (r: seq<int>)
    ensures |r| == n && OneToN(r) && StrictlyDecreasing(r)
    ensures forall k :: 0 <= k < n ==> r[k] == Ascending(n)[n - 1 - k]
  {
    seq(n, k => n - k)
  }

  /**
   * PermutationInitiator: Ascending(n) taken in the drawn order; whatever the draw, a
   * permutation of 1..n.
   */
  function Permutation(n: nat, order: seq<int>): (r: seq<int>)
    requires IndexOrder(order, n)
    ensures |r| == n && OneToN(r)
    ensures forall k :: 0 <= k < n ==> r[k] == Ascending(n)[order[k]]
  {
    seq(n, k requires 0 <= k < n => order[k] + 1)
  }

  /**
   * Ascending(n) with the slots `pos1` and `pos2` exchanged: a permutation of 1..n that
   * differs from Ascending(n) at exactly those two slots.
   */
  function Transposed(n: nat, pos1: int, pos2: int): (r: seq<int>)
    requires 0 <= pos1 < pos2 < n
    ensures |r| == n && OneToN(r)
    ensures forall k :: 0 <= k < n ==> (r[k] != k + 1 <==> k == pos1 || k == pos2)
  {
    var r := SwapAt(Ascending(n), pos1, pos2);
    SwapKeepsDistinct(Ascending(n), r, pos1, pos2);
    r
  }

  /**
   * TranspositionInitiater: draw pos1 from 0..n-3 and an offset from 1..n-pos1-2, then
   * exchange the slots pos1 and pos1 + offset of a fresh ascending array. Fails for
   * n < 3, where the first draw has an empty range. The two slots are distinct and the
   * last slot is never one of them, so it always keeps n.
   */
  method TranspositionInit(n: nat, draw1: int, draw2: int) returns (r: Result<array<int>, string>)
    requires n >= 3 ==> 0 <= draw1 < n - 2 && 1 <= draw2 < n - draw1 - 1
    ensures r.Err? <==> n < 3
    ensures r.Err? ==> r.error == EmptyRange
    ensures r.Ok? ==> fresh(r.value) && r.value[..] == Transposed(n, draw1, draw1 + draw2)
    ensures r.Ok? ==> draw1 + draw2 <= n - 2 && r.value[n - 1] == n
  {
    if n < 3 {
      return Err(EmptyRange);
    }
    var pos1 := draw1;
    var pos2 := pos1 + draw2;
    var data := new int[n](k => k + 1);
    var temp := data[pos1];
    data[pos1] := data[pos2];
    data[pos2] := temp;
    assert data[..] == SwapAt(Ascending(n), pos1, pos2);
    r := Ok(data);
  }

  /**
   * Ascending(n) with the section pos..pos+|order|-1 taken in the drawn order: a
   * permutation of 1..n that keeps every slot outside the section and keeps the values
   * of the section inside it.
   */
  function Shuffled(n: nat, pos: int, order: seq<int>): (r: seq<int>)
    requires 0 <= pos && pos + |order| <= n && IndexOrder(order, |order|)
    ensures |r| == n && OneToN(r)
    ensures forall k :: 0 <= k < n && !(pos <= k < pos + |order|) ==> r[k] == k + 1
    ensures forall k :: pos <= k < pos + |order| ==> pos < r[k] <= pos + |order|
  {
    var r := seq(n, k => if pos <= k < pos + |order| then pos + order[k - pos] + 1 else k + 1);
    assert Distinct(r) by {
      forall p, q | 0 <= p < q < n ensures r[p] != r[q] {
        if pos <= p < pos + |order| && pos <= q < pos + |order| {
          assert order[p - pos] != order[q - pos];
        }
      }
    }
    r
  }

  /**
   * LocalInitiator: draw a divisor from 2..6, a section length of n divided by it
   * (rounded down), a start from 0..n-length-2, and rearrange that section of a fresh
   * ascending array in the drawn order. Fails exactly when the start's range is empty
   * (n - length <= 1, e.g. n <= 1, or n = 2 with divisor 2). The section never reaches
   * the last slot, so it always keeps n.
   */
  method LocalInit(n: nat, divisor: int, pos: int, order: seq<int>) returns (r: Result<array<int>, string>)
    requires 2 <= divisor < 7
    requires n - n / divisor - 1 > 0 ==> 0 <= pos < n - n / divisor - 1
    requires IndexOrder(order, n / divisor)
    ensures r.Err? <==> n - n / divisor <= 1
    ensures r.Err? ==> r.error == EmptyRange
    ensures r.Ok? ==> fresh(r.value) && r.value[..] == Shuffled(n, pos, order)
    ensures r.Ok? ==> pos + n / divisor <= n - 2 && r.value[n - 1] == n
  {
    var length := n / divisor;
    if n - length - 1 <= 0 {
      return Err(EmptyRange);
    }
    var data := new int[n](k => k + 1);
    ghost var want := Shuffled(n, pos, order);
    forall k | pos <= k < pos + length {
      data[k] := data[pos + order[k - pos]];
    }
    assert forall k :: 0 <= k < n ==> data[k] == want[k];
    assert data[..] == want;
    r := Ok(data);
  }
}
