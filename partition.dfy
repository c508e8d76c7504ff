/**
 * The cycle partitioner: a year of yearDays days is cut into numCycles cycles whose
 * lengths differ by at most one day, and each cycle of L days is valued at
 * 1 + 2 + ... + L = L(L+1)/2, the sum saved by a counter that restarts at 1 on the
 * first day of every cycle and grows by one each day.
 */
module Partition {
  import opened Sums

  /** The remainder-distributing partition: the first yearDays % numCycles cycles get one extra day. */
  predicate IsFairPartition(lengths: seq<nat>, numCycles: nat, yearDays: nat)
    requires numCycles >= 1
  {
    && |lengths| == numCycles
    && forall i :: 0 <= i < |lengths| ==>
         lengths[i] == if i < yearDays % numCycles then yearDays / numCycles + 1 else yearDays / numCycles
  }

  function CycleLengths(numCycles: nat, yearDays: nat): (lengths: seq<nat>)
    requires numCycles >= 1
    ensures IsFairPartition(lengths, numCycles, yearDays)
  {
    seq(numCycles, i => if i < yearDays % numCycles then yearDays / numCycles + 1 else yearDays / numCycles)
  }

  /** A fair partition is unique: it is CycleLengths. */
  lemma FairPartitionUnique(lengths: seq<nat>, numCycles: nat, yearDays: nat)
    requires numCycles >= 1
    requires IsFairPartition(lengths, numCycles, yearDays)
    ensures lengths == CycleLengths(numCycles, yearDays)
  {
  }

  /** What the engine returns as the grand total for numCycles cycles. */
  function YearlyTotal(numCycles: nat, yearDays: nat): nat
    requires numCycles >= 1
  {
    TriangleSum(CycleLengths(numCycles, yearDays))
  }

  /**
   * calculate_yearly_savings: builds the cycle lengths in a first loop and accumulates the
   * triangular value of each cycle in a second one.
   */
  method CalculateYearlySavings(numCycles: nat, yearDays: nat) returns (grandTotal: nat, lengths: seq<nat>)
    requires numCycles >= 1
    ensures IsFairPartition(lengths, numCycles, yearDays)
    ensures Sum(lengths) == yearDays
    ensures forall i, j :: 0 <= i <= j < |lengths| ==> lengths[j] <= lengths[i] <= lengths[j] + 1
    ensures grandTotal == TriangleSum(lengths)
  {
    var baseLength := yearDays / numCycles;
    var remainder := yearDays % numCycles;

    lengths := [];
    for i := 0 to numCycles
      invariant |lengths| == i
      invariant forall k :: 0 <= k < i ==>
                  lengths[k] == if k < remainder then baseLength + 1 else baseLength
    {
      if i < remainder {
        lengths := lengths + [baseLength + 1];
      } else {
        lengths := lengths + [baseLength];
      }
    }

    grandTotal := 0;
    for j := 0 to |lengths|
      invariant grandTotal == TriangleSum(lengths[..j])
    {
      var lgth := lengths[j];
      var cycleSum := (lgth * (lgth + 1)) / 2;
      assert lengths[..j + 1][..j] == lengths[..j];
      grandTotal := grandTotal + cycleSum;
    }
    assert lengths[..|lengths|] == lengths;
    PartitionTotals(lengths, numCycles, yearDays);
  }

  /**
   * A sequence whose first r entries are b + 1 and whose other entries are b sums to
   * |s| * b + r and is worth r * T(b + 1) + (|s| - r) * T(b) (r capped at |s|).
   */
  lemma {:induction false} ShapeSums(s: seq<nat>, b: nat, r: nat)
    requires forall i :: 0 <= i < |s| ==> s[i] == if i < r then b + 1 else b
    ensures var k := if r < |s| then r else |s|;
            && Sum(s) == |s| * b + k
            && TriangleSum(s) == k * Triangle(b + 1) + (|s| - k) * Triangle(b)
  {
    if |s| > 0 {
      var n := |s| - 1;
      var init := s[..n];
      ShapeSums(init, b, r);
      var k := if r < n then r else n;
      assert Sum(s) == Sum(init) + s[n];
      assert TriangleSum(s) == TriangleSum(init) + Triangle(s[n]);
      MulSucc(n, b);
      if n < r {
        MulSucc(k, Triangle(b + 1));
      } else {
        MulSucc(n - k, Triangle(b));
      }
    }
  }

  lemma PartitionTotals(lengths: seq<nat>, numCycles: nat, yearDays: nat)
    requires numCycles >= 1
    requires IsFairPartition(lengths, numCycles, yearDays)
    ensures Sum(lengths) == yearDays
    ensures TriangleSum(lengths) ==
            (yearDays % numCycles) * Triangle(yearDays / numCycles + 1)
            + (numCycles - yearDays % numCycles) * Triangle(yearDays / numCycles)
  {
    ShapeSums(lengths, yearDays / numCycles, yearDays % numCycles);
  }

  /**
   * The grand total in closed form: the remainder cycles are worth T(base + 1) each and the
   * others T(base); it never exceeds the value of the whole year taken as one cycle.
   */
  lemma YearlyTotalClosedForm(numCycles: nat, yearDays: nat)
    requires numCycles >= 1
    ensures YearlyTotal(numCycles, yearDays) ==
            (yearDays % numCycles) * Triangle(yearDays / numCycles + 1)
            + (numCycles - yearDays % numCycles) * Triangle(yearDays / numCycles)
    ensures YearlyTotal(numCycles, yearDays) <= Triangle(yearDays)
    ensures numCycles == 1 ==> YearlyTotal(numCycles, yearDays) == Triangle(yearDays)
  {
    PartitionTotals(CycleLengths(numCycles, yearDays), numCycles, yearDays);
    TriangleSumAtMostWhole(CycleLengths(numCycles, yearDays));
  }

  /** The worked examples for a 365-day year. */
  lemma YearExamples()
    ensures CycleLengths(1, 365) == [365] && YearlyTotal(1, 365) == 66795
    ensures CycleLengths(2, 365) == [183, 182] && YearlyTotal(2, 365) == 33489
    ensures CycleLengths(365, 365) == seq(365, i => 1) && YearlyTotal(365, 365) == 365
  {
    YearlyTotalClosedForm(1, 365);
    YearlyTotalClosedForm(2, 365);
    YearlyTotalClosedForm(365, 365);
  }

  /** The longest cycle, max(lengths): the ceiling of yearDays / numCycles. */
  function LongestCycle(numCycles: nat, yearDays: nat): nat
    requires numCycles >= 1
  {
    MaxOf(CycleLengths(numCycles, yearDays))
  }

  /**
   * The longest cycle is base + 1 when days are left over and base otherwise, and it is
   * the least m with m * numCycles >= yearDays.
   */
  lemma LongestCycleIsCeiling(numCycles: nat, yearDays: nat)
    requires numCycles >= 1
    ensures var m := LongestCycle(numCycles, yearDays);
            && m == (if yearDays % numCycles == 0 then yearDays / numCycles else yearDays / numCycles + 1)
            && (m - 1) * numCycles < yearDays <= m * numCycles
  {
    var s := CycleLengths(numCycles, yearDays);
    var b, r := yearDays / numCycles, yearDays % numCycles;
    var m := if r == 0 then b else b + 1;
    assert s[0] == m;
    MaxOfIs(s, m);
    CeilingBounds(numCycles, yearDays);
  }

  lemma CeilingBounds(c: nat, d: nat)
    requires c >= 1
    ensures var m := if d % c == 0 then d / c else d / c + 1;
            (m - 1) * c < d <= m * c
  {
    var b, r := d / c, d % c;
    var bc := b * c;
    assert d == bc + r;
    if r == 0 {
      MulSucc(b - 1, c);
    } else {
      MulSucc(b, c);
    }
  }

  /** Holding the year fixed, more cycles never make the longest cycle longer. */
  lemma LongestCycleMonotone(fewer: nat, more: nat, yearDays: nat)
    requires 1 <= fewer <= more
    ensures LongestCycle(more, yearDays) <= LongestCycle(fewer, yearDays)
  {
    var m1 := LongestCycle(fewer, yearDays);
    var m2 := LongestCycle(more, yearDays);
    LongestCycleIsCeiling(fewer, yearDays);
    LongestCycleIsCeiling(more, yearDays);
    if m2 > m1 {
      MulMonotone(fewer, more, m1);
      assert m1 * fewer == fewer * m1 && m1 * more == more * m1;
      MulMonotone(m1, m2 - 1, more);
      assert false;
    }
  }
}
