/**
 * Ranking of the table by TotalSavings, highest first. The order among records with equal
 * totals is left open, as it is for the sort the table is ranked with.
 */
module Ranking {
  import opened Records

  predicate SortedByTotalDesc(t: seq<Record>)
  {
    forall i, j :: 0 <= i < j < |t| ==> t[i].totalSavings >= t[j].totalSavings
  }

  /** Places x in front of the first record whose total it is not below. */
  function InsertByTotal(x: Record, s: seq<Record>): (r: seq<Record>)
    ensures multiset(r) == multiset(s) + multiset{x}
    ensures SortedByTotalDesc(s) ==> SortedByTotalDesc(r)
  {
    if |s| == 0 then [x]
    else if x.totalSavings >= s[0].totalSavings then [x] + s
    else
      var rest := InsertByTotal(x, s[1..]);
      assert s == [s[0]] + s[1..];
      InsertedBelowHead(x, s, rest);
      [s[0]] + rest
  }

  lemma InsertedBelowHead(x: Record, s: seq<Record>, rest: seq<Record>)
    requires |s| > 0 && x.totalSavings < s[0].totalSavings
    requires multiset(rest) == multiset(s[1..]) + multiset{x}
    requires SortedByTotalDesc(s) ==> SortedByTotalDesc(rest)
    ensures SortedByTotalDesc(s) ==> SortedByTotalDesc([s[0]] + rest)
  {
    if SortedByTotalDesc(s) {
      forall j | 0 <= j < |rest|
        ensures rest[j].totalSavings <= s[0].totalSavings
      {
        assert rest[j] in multiset(rest);
        if rest[j] != x {
          assert rest[j] in multiset(s[1..]);
          var k :| 0 <= k < |s| - 1 && s[1..][k] == rest[j];
          assert s[k + 1] == rest[j];
        }
      }
    }
  }

  /** The table ranked by total savings, highest first. */
  function SortByTotalDesc(s: seq<Record>): (t: seq<Record>)
    ensures multiset(t) == multiset(s)
    ensures SortedByTotalDesc(t)
  {
    if |s| == 0 then []
    else
      assert s == [s[0]] + s[1..];
      InsertByTotal(s[0], SortByTotalDesc(s[1..]))
  }

  /** A ranked table is led by a record whose total is the largest in the table. */
  lemma RankedHeadIsLargest(t: seq<Record>, x: Record)
    requires SortedByTotalDesc(t)
    requires x in t
    ensures t[0].totalSavings >= x.totalSavings
  {
    var j :| 0 <= j < |t| && t[j] == x;
    if j > 0 {
      assert t[0].totalSavings >= t[j].totalSavings;
    }
  }

  /** A record whose total strictly beats every other record of the table leads the ranking. */
  lemma UniqueLargestLeads(t: seq<Record>, a: seq<Record>, x: Record)
    requires multiset(t) == multiset(a)
    requires SortedByTotalDesc(t)
    requires x in a
    requires forall r :: r in a ==> r == x || r.totalSavings < x.totalSavings
    ensures |t| > 0 && t[0] == x
  {
    assert x in multiset(t);
    RankedHeadIsLargest(t, x);
    assert t[0] in multiset(a);
  }
}
