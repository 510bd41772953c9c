/**
 * Shell sort (SortingAlgorithms.py:58-108, copied at Sorter.py:133-183): gapped
 * insertion passes for every gap of the form 2^p * 3^q below n, largest first.
 */
module ShellSorter {
  import opened SortingSteps
  import opened Ordering
  import opened Sorter
  import opened InsertionSorter

  function Pow(b: nat, e: nat): nat
  {
    if e == 0 then 1 else b * Pow(b, e - 1)
  }

  /** x with every factor 2 divided out. */
  function StripTwos(x: nat): (r: nat)
    requires x > 0
    ensures r > 0 && r % 2 == 1
  {
    if x % 2 == 0 then StripTwos(x / 2) else x
  }

  /** x with every factor 3 divided out. */
  function StripThrees(x: nat): (r: nat)
    requires x > 0
    ensures r > 0 && r % 3 != 0
  {
    if x % 3 == 0 then StripThrees(x / 3) else x
  }

  /** The gap generator's test: nothing is left once the 2s and then the 3s are divided out. */
  predicate ThreeSmooth(x: int)
  {
    x >= 1 && StripThrees(StripTwos(x)) == 1
  }

  /** The reference form: x is 2^p * 3^q for some p and q. */
  ghost predicate TwoThreeProduct(x: int)
  {
    exists p: nat, q: nat :: x == Pow(2, p) * Pow(3, q)
  }

  lemma {:induction false} StripTwosFactor(x: nat) returns (p: nat)
    requires x > 0
    ensures x == Pow(2, p) * StripTwos(x)
    decreases x
  {
    if x % 2 == 0 {
      var p' := StripTwosFactor(x / 2);
      p := p' + 1;
      var m, power, half := StripTwos(x), Pow(2, p'), x / 2;
      assert x == 2 * half;
      assert half == power * m;
      MulAssoc(2, power, m);
    } else {
      p := 0;
    }
  }

  lemma {:induction false} StripThreesFactor(x: nat) returns (q: nat)
    requires x > 0
    ensures x == Pow(3, q) * StripThrees(x)
    decreases x
  {
    if x % 3 == 0 {
      var q' := StripThreesFactor(x / 3);
      q := q' + 1;
      var m, power, third := StripThrees(x), Pow(3, q'), x / 3;
      assert x == 3 * third;
      assert third == power * m;
      MulAssoc(3, power, m);
    } else {
      q := 0;
    }
  }

  lemma MulAssoc(a: nat, b: nat, c: nat)
    ensures a * (b * c) == (a * b) * c
  {
  }

  lemma {:induction false} PowThreeOdd(q: nat)
    ensures Pow(3, q) % 2 == 1
  {
    if q > 0 {
      PowThreeOdd(q - 1);
    }
  }

  lemma {:induction false} StripTwosOfProduct(p: nat, m: nat)
    requires m % 2 == 1
    ensures Pow(2, p) * m > 0 && StripTwos(Pow(2, p) * m) == m
  {
    if p > 0 {
      StripTwosOfProduct(p - 1, m);
      var y := Pow(2, p - 1) * m;
      MulAssoc(2, Pow(2, p - 1), m);
      assert Pow(2, p) * m == 2 * y;
      StripTwosOfDouble(y);
    }
  }

  lemma StripTwosOfDouble(y: nat)
    requires y > 0
    ensures StripTwos(2 * y) == StripTwos(y)
  {
    assert (2 * y) % 2 == 0 && (2 * y) / 2 == y;
  }

  lemma {:induction false} StripThreesOfPow(q: nat)
    ensures Pow(3, q) > 0 && StripThrees(Pow(3, q)) == 1
  {
    if q > 0 {
      StripThreesOfPow(q - 1);
      var y := Pow(3, q - 1);
      assert Pow(3, q) == 3 * y;
      StripThreesOfTriple(y);
    }
  }

  lemma StripThreesOfTriple(y: nat)
    requires y > 0
    ensures StripThrees(3 * y) == StripThrees(y)
  {
    assert (3 * y) % 3 == 0 && (3 * y) / 3 == y;
  }

  /** The generator's divide-out test accepts exactly the numbers 2^p * 3^q. */
  lemma SmoothIsProduct(x: int)
    ensures ThreeSmooth(x) <==> TwoThreeProduct(x)
  {
    if ThreeSmooth(x) {
      var p := StripTwosFactor(x);
      var q := StripThreesFactor(StripTwos(x));
      assert x == Pow(2, p) * Pow(3, q);
    }
    if TwoThreeProduct(x) {
      var p: nat, q: nat :| x == Pow(2, p) * Pow(3, q);
      PowThreeOdd(q);
      StripTwosOfProduct(p, Pow(3, q));
      StripThreesOfPow(q);
    }
  }

  /**
   * The gaps for n slots: every i from n-1 down to 1 whose 2s and 3s divide out to 1.
   * The result runs strictly downwards through [1, n-1], holds every 3-smooth number
   * there, and ends with 1 whenever n >= 2, so the last pass is a plain insertion sort.
   */
  method GetIncrements(n: int) returns (increments: seq<int>)
    ensures forall t :: 0 <= t < |increments| ==> 1 <= increments[t] <= n - 1
    ensures forall t :: 0 <= t < |increments| ==> ThreeSmooth(increments[t])
    ensures forall x :: 1 <= x <= n - 1 && ThreeSmooth(x) ==> x in increments
    ensures StrictlyDecreasing(increments)
    ensures n <= 1 ==> increments == []
    ensures n >= 2 ==> |increments| > 0 && increments[|increments| - 1] == 1
  {
    increments := [];
    var i := n - 1;
    while i > 0
      invariant i <= n - 1 && (i >= 0 || i == n - 1)
      invariant forall t :: 0 <= t < |increments| ==> i < increments[t] <= n - 1
      invariant forall t :: 0 <= t < |increments| ==> ThreeSmooth(increments[t])
      invariant forall x :: i < x <= n - 1 && ThreeSmooth(x) ==> x in increments
      invariant StrictlyDecreasing(increments)
    {
      var number := i;
      while number % 2 == 0
        invariant number > 0 && StripTwos(number) == StripTwos(i)
        decreases number
      {
        number := number / 2;
      }
      while number % 3 == 0
        invariant number > 0 && StripThrees(number) == StripThrees(StripTwos(i))
        decreases number
      {
        number := number / 3;
      }
      if number == 1 {
        increments := increments + [i];
      }
      i := i - 1;
    }
    if n >= 2 {
      assert ThreeSmooth(1);
    }
  }

  /** Every step of the trace is a GapStep for one of the gaps in `increments`. */
  method ShellSort(data: array<int>) returns (steps: seq<Step>)
    modifies data
    ensures Sorted(data[..])
    ensures multiset(data[..]) == multiset(old(data[..]))
    ensures Replay(old(data[..]), steps) == data[..]
    ensures GapTrace(steps, set x | 1 <= x < data.Length && ThreeSmooth(x))
  {
    var s := new Sorter(data[..]);
    var n := data.Length;
    var increments := GetIncrements(n);
    ghost var gaps := set x | 1 <= x < n && ThreeSmooth(x);
    for t := 0 to |increments|
      invariant Replay(s.initial, s.steps) == data[..]
      invariant GapTrace(s.steps, gaps)
      invariant t > 0 && increments[t - 1] == 1 ==> Sorted(data[..])
    {
      InsertionPass(s, data, increments[t], gaps);
    }
    steps := s.steps;
    if n <= 1 {
      assert Sorted(data[..]);
    }
    GapTraceNoReplace(steps, gaps);
    ReplayPermutes(s.initial, steps);
  }
}
