/** Sums, triangular numbers and maxima over sequences of amounts. */
module Sums {

  /** Total of a sequence, accumulated left to right as a running total is. */
  function Sum(s: seq<nat>): nat
  {
    if |s| == 0 then 0 else Sum(s[..|s| - 1]) + s[|s| - 1]
  }

  lemma {:induction false} SumConcat(a: seq<nat>, b: seq<nat>)
    ensures Sum(a + b) == Sum(a) + Sum(b)
    decreases |b|
  {
    if |b| == 0 {
      assert a + b == a;
    } else {
      assert (a + b)[..|a + b| - 1] == a + b[..|b| - 1];
      SumConcat(a, b[..|b| - 1]);
    }
  }

  lemma SumSingleton(x: nat)
    ensures Sum([x]) == x
  {
    assert [x][..0] == [];
  }

  /** 1 + 2 + ... + n: what a counter that starts at 1 and grows by one a day adds up to. */
  function SeriesSum(n: nat): nat
  {
    if n == 0 then 0 else SeriesSum(n - 1) + n
  }

  /** The closed form n(n+1)/2 that the engine evaluates for a cycle of n days. */
  function Triangle(n: nat): nat
  {
    n * (n + 1) / 2
  }

  /** The division by two is exact, and the closed form is the running series. */
  lemma {:induction false} TriangleIsSeries(n: nat)
    ensures n * (n + 1) % 2 == 0
    ensures 2 * Triangle(n) == n * (n + 1)
    ensures Triangle(n) == SeriesSum(n)
  {
    if n > 0 {
      TriangleIsSeries(n - 1);
      assert n * (n + 1) == (n - 1) * n + 2 * n;
    }
  }

  lemma TriangleStep(n: nat)
    ensures Triangle(n + 1) == Triangle(n) + n + 1
  {
    TriangleIsSeries(n);
    TriangleIsSeries(n + 1);
  }

  /** Splitting a run of a + b days into runs of a and b days loses exactly a * b. */
  lemma TriangleSplit(a: nat, b: nat)
    ensures Triangle(a + b) == Triangle(a) + Triangle(b) + a * b
  {
    TriangleIsSeries(a);
    TriangleIsSeries(b);
    TriangleIsSeries(a + b);
    assert (a + b) * (a + b + 1) == a * (a + 1) + b * (b + 1) + 2 * (a * b);
  }

  lemma MulSucc(a: int, x: int)
    ensures (a + 1) * x == a * x + x
  {
  }

  lemma MulAdd(k: int, a: int, b: int)
    ensures k * (a + b) == k * a + k * b
  {
  }

  lemma MulMonotone(a: int, b: int, c: nat)
    requires a <= b
    ensures a * c <= b * c
  {
  }

  /** Sum over the cycles of a year of the triangular value of each cycle length. */
  function TriangleSum(lengths: seq<nat>): nat
  {
    if |lengths| == 0 then 0
    else TriangleSum(lengths[..|lengths| - 1]) + Triangle(lengths[|lengths| - 1])
  }

  /** Cutting a run into several cycles never raises its value: one long cycle is worth most. */
  lemma {:induction false} TriangleSumAtMostWhole(lengths: seq<nat>)
    ensures TriangleSum(lengths) <= Triangle(Sum(lengths))
  {
    if |lengths| > 0 {
      var init := lengths[..|lengths| - 1];
      var last := lengths[|lengths| - 1];
      TriangleSumAtMostWhole(init);
      TriangleSplit(Sum(init), last);
    }
  }

  /** Each cycle is worth at least its own length, and the whole year at least each cycle. */
  lemma {:induction false} TriangleSumAtLeastEach(lengths: seq<nat>, x: nat)
    requires x in lengths
    ensures x <= Triangle(x) <= TriangleSum(lengths)
  {
    TriangleIsSeries(x);
    if x > 0 {
      TriangleIsSeries(x - 1);
    }
    var init := lengths[..|lengths| - 1];
    if x != lengths[|lengths| - 1] {
      assert x in init;
      TriangleSumAtLeastEach(init, x);
    }
  }

  /** The list [k * i for i in range(1, n + 1)]. */
  function Multiples(k: nat, n: nat): (s: seq<nat>)
    ensures |s| == n
  {
    seq(n, i => k * (i + 1))
  }

  lemma {:induction false} SumMultiples(k: nat, n: nat)
    ensures Sum(Multiples(k, n)) == k * Triangle(n)
  {
    if n > 0 {
      SumMultiples(k, n - 1);
      assert Multiples(k, n)[..n - 1] == Multiples(k, n - 1);
      TriangleStep(n - 1);
      MulAdd(k, Triangle(n - 1), n);
    }
  }

  /** Every entry of Multiples(k, n) is at most the last one, k * n. */
  lemma MultiplesBound(k: nat, n: nat)
    ensures forall x :: x in Multiples(k, n) ==> x <= k * n
    ensures n > 0 ==> k * n in Multiples(k, n)
  {
    forall x | x in Multiples(k, n)
      ensures x <= k * n
    {
      var i :| 0 <= i < n && Multiples(k, n)[i] == x;
      MulMonotone(i + 1, n, k);
      assert x == (i + 1) * k && k * n == n * k;
    }
    if n > 0 {
      assert Multiples(k, n)[n - 1] == k * n;
    }
  }

  /** The same list counted down: k * n, k * (n - 1), ..., k. */
  function Countdown(k: nat, n: nat): (s: seq<nat>)
    ensures |s| == n
  {
    seq(n, i => k * (n - i))
  }

  lemma {:induction false} SumCountdown(k: nat, n: nat)
    ensures Sum(Countdown(k, n)) == k * Triangle(n)
  {
    if n > 0 {
      var tail := Countdown(k, n - 1);
      SumCountdown(k, n - 1);
      forall i | 1 <= i < n
        ensures Countdown(k, n)[i] == tail[i - 1]
      {
        assert n - i == (n - 1) - (i - 1);
      }
      assert Countdown(k, n) == [k * n] + tail;
      SumConcat([k * n], tail);
      SumSingleton(k * n);
      TriangleStep(n - 1);
      MulAdd(k, Triangle(n - 1), n);
    }
  }

  lemma CountdownBound(k: nat, n: nat)
    ensures forall x :: x in Countdown(k, n) ==> x <= k * n
    ensures n > 0 ==> k * n in Countdown(k, n)
  {
    forall x | x in Countdown(k, n)
      ensures x <= k * n
    {
      var i :| 0 <= i < n && Countdown(k, n)[i] == x;
      MulMonotone(n - i, n, k);
      assert x == (n - i) * k && k * n == n * k;
    }
    if n > 0 {
      assert Countdown(k, n)[0] == k * n;
    }
  }

  /** The block w, n times over. */
  function Repeat(w: seq<nat>, n: nat): (s: seq<nat>)
    ensures |s| == n * |w|
  {
    if n == 0 then [] else Repeat(w, n - 1) + w
  }

  lemma {:induction false} SumRepeat(w: seq<nat>, n: nat)
    ensures Sum(Repeat(w, n)) == n * Sum(w)
  {
    if n > 0 {
      SumRepeat(w, n - 1);
      SumConcat(Repeat(w, n - 1), w);
      assert n * Sum(w) == (n - 1) * Sum(w) + Sum(w);
    }
  }

  /** Repeat(w, n) holds exactly the entries of w, provided it repeats at least once. */
  lemma {:induction false} RepeatMembers(w: seq<nat>, n: nat)
    ensures forall x :: x in Repeat(w, n) ==> x in w
    ensures n > 0 ==> forall x :: x in w ==> x in Repeat(w, n)
  {
    if n > 0 {
      RepeatMembers(w, n - 1);
      assert Repeat(w, n) == Repeat(w, n - 1) + w;
    }
  }

  /** The largest entry of a non-empty sequence, as Python's max computes it. */
  function MaxOf(s: seq<nat>): (m: nat)
    requires |s| > 0
    ensures m in s
    ensures forall i :: 0 <= i < |s| ==> s[i] <= m
  {
    if |s| == 1 then s[0]
    else
      var m0 := MaxOf(s[..|s| - 1]);
      if s[|s| - 1] > m0 then s[|s| - 1] else m0
  }

  /** A value that occurs in s and bounds every entry is the maximum. */
  lemma MaxOfIs(s: seq<nat>, v: nat)
    requires v in s
    requires forall x :: x in s ==> x <= v
    ensures |s| > 0 && MaxOf(s) == v
  {
  }
}
