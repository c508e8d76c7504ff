/**
 * The strategy catalog and ranker: one record per requested cycle count, then the twelve
 * fixed custom strategies, the whole table ranked by total savings, highest first.
 */
module Catalog {
  import opened Sums
  import opened Text
  import opened Partition
  import opened Schedules
  import opened Records
  import opened Ranking

  /** Display names of the usual cycle counts; any other count is shown as its number. */
  const CycleLabels: map<nat, string> := map[
    1 := "Yearly (1)",
    2 := "Semi-Annual (2)",
    4 := "Quarterly (4)",
    6 := "Bi-Monthly (6)",
    12 := "Monthly (12)",
    24 := "Semi-Monthly (24)",
    26 := "Bi-Weekly (26)",
    52 := "Weekly (52)",
    365 := "Daily (365)"]

  function CycleLabel(c: nat): string
  {
    if c in CycleLabels then CycleLabels[c] else NatToString(c)
  }

  /**
   * Tooltip text of a cycle strategy: "<L> days" when every cycle has the same length L,
   * otherwise "~<m> days" with m the integer part of the mean cycle length.
   */
  function CycleDesc(lengths: seq<nat>): string
    requires |lengths| > 0
  {
    if |set x | x in lengths| > 1 then "~" + NatToString(Sum(lengths) / |lengths|) + " days"
    else NatToString(lengths[0]) + " days"
  }

  /** The record the table holds for c cycles in a year of yearDays days. */
  function CycleRecord(c: nat, yearDays: nat): Record
    requires c >= 1
  {
    var lengths := CycleLengths(c, yearDays);
    var total := TriangleSum(lengths);
    Record(c, CycleLabel(c), total, total * 2, MaxOf(lengths), Ratio(yearDays, c), CycleDesc(lengths))
  }

  function CycleRecords(cycles: seq<nat>, yearDays: nat): (rs: seq<Record>)
    requires forall k :: 0 <= k < |cycles| ==> cycles[k] >= 1
    ensures |rs| == |cycles|
  {
    seq(|cycles|, k requires 0 <= k < |cycles| => CycleRecord(cycles[k], yearDays))
  }

  /**
   * What a cycle record holds: the closed-form total (never above the one-cycle total),
   * a couple total of twice that, the longest cycle as the peak payment, and a description
   * that names yearDays / c, marked with "~" exactly when the cycles are not all equal.
   */
  lemma CycleRecordFacts(c: nat, yearDays: nat)
    requires c >= 1
    ensures var r := CycleRecord(c, yearDays);
            && r.cyclesPerYear == c
            && WellFormed(r)
            && r.totalSavings == YearlyTotal(c, yearDays) <= Triangle(yearDays)
            && r.maxDailyAmount == LongestCycle(c, yearDays)
            && r.desc == (if yearDays % c == 0 then "" else "~") + NatToString(yearDays / c) + " days"
  {
    var lengths := CycleLengths(c, yearDays);
    var b, rem := yearDays / c, yearDays % c;
    YearlyTotalClosedForm(c, yearDays);
    PartitionTotals(lengths, c, yearDays);
    TriangleSumAtLeastEach(lengths, MaxOf(lengths));
    var values := set x | x in lengths;
    if rem == 0 {
      assert lengths[0] == b;
      assert values == {b};
      assert "" + NatToString(b) + " days" == NatToString(b) + " days";
    } else {
      assert lengths[0] == b + 1 && lengths[c - 1] == b;
      assert b in values && b + 1 in values;
      assert b + 1 in values - {b};
      assert |values| == |values - {b}| + 1;
    }
  }

  // ---------------------------------------------------------------------------------
  // The twelve custom strategies, with the totals and peak payments the source fixes.
  // ---------------------------------------------------------------------------------

  /** The same 183 every day. */
  function FixedDaily(): Record
  {
    var fixedDaily := 183;
    Record(0, "Fixed Daily (183฿)", fixedDaily * 365, (fixedDaily * 365) * 2, fixedDaily,
           Ratio(0, 1), "Pay same amount every day")
  }

  /** Week i deposits 50 * i, for the 52 weeks of the year. */
  function FiftyTwoWeekChallenge(): Record
  {
    var wTotal := Sum(Multiples(50, 52));
    Record(0, "52-Week Challenge (x50)", wTotal, wTotal * 2, 2600, Ratio(7, 1), "Wk1=50, Wk52=2600")
  }

  /** Monday 50 up to Sunday 350, every week. */
  function WeekdayLadder(): Record
  {
    var ladderYearTotal := Sum(Multiples(50, 7)) * 52;
    Record(0, "Weekday Ladder", ladderYearTotal, ladderYearTotal * 2, 350, Ratio(0, 1), "Mon=50...Sun=350")
  }

  /** The 52-week deposits in reverse order, largest first. */
  function Reverse52Week(): Record
  {
    var wTotal := Sum(Multiples(50, 52));
    Record(0, "Reverse 52-Week", wTotal, wTotal * 2, 2600, Ratio(7, 1), "Start High, End Low")
  }

  /** 3000 on each of the 24 paydays, the 1st and the 16th of every month. */
  function PaydaySync(): Record
  {
    var paydayAmount := 3000;
    var paydayTotal := paydayAmount * 24;
    Record(0, "Payday Sync (1st&16th)", paydayTotal, paydayTotal * 2, paydayAmount, Ratio(15, 1),
           "3000฿ on Paydays Only")
  }

  /** 300 on each weekday, nothing at the weekend. */
  function NoSpendWeekends(): Record
  {
    var weekdayAmt := 300;
    var weekdayTotal := (weekdayAmt * 5) * 52;
    Record(0, "No-Spend Weekends", weekdayTotal, weekdayTotal * 2, weekdayAmt, Ratio(0, 1),
           "M-F 300฿, Sat-Sun 0฿")
  }

  /** Monday 100 up to Sunday 700, every week. */
  function AggressiveLadder(): Record
  {
    var aggLadderTotal := Sum(Multiples(100, 7)) * 52;
    Record(0, "Aggressive Ladder", aggLadderTotal, aggLadderTotal * 2, 700, Ratio(0, 1), "Mon=100...Sun=700")
  }

  /** 60 every day. */
  function CoffeeSkip(): Record
  {
    var coffeeTotal := 60 * 365;
    Record(0, "Coffee Skip (60฿)", coffeeTotal, coffeeTotal * 2, 60, Ratio(0, 1), "Skip 1 coffee/day")
  }

  /** Nothing on weekdays, 1000 on Saturday and on Sunday. */
  function WeekendBinge(): Record
  {
    var bingeTotal := 2000 * 52;
    Record(0, "Weekend Binge", bingeTotal, bingeTotal * 2, 1000, Ratio(0, 1), "M-F 0฿, Sat/Sun 1k")
  }

  /** Day d of each month pays 10 * d; 496, 465 and 406 are 1 + ... + 31, 30 and 28. */
  function DateMatch(): Record
  {
    var dateMatchTotal := (496 * 7 + 465 * 4 + 406) * 10;
    Record(0, "Date Match (x10)", dateMatchTotal, dateMatchTotal * 2, 310, Ratio(30, 1),
           "Day 1=10฿ ... Day 31=310฿")
  }

  /** 50 on the 183 odd days of the year and 500 on the 182 even days. */
  function OddEvenSmasher(): Record
  {
    var oddEvenTotal := (183 * 50) + (182 * 500);
    Record(0, "Odd/Even Smasher", oddEvenTotal, oddEvenTotal * 2, 500, Ratio(0, 1), "Odd=50฿, Even=500฿")
  }

  /** Monday 50 up to Friday 250, nothing at the weekend: 750 a week. */
  function WorkdayEscalator(): Record
  {
    var escalatorTotal := 750 * 52;
    Record(0, "Workday Escalator", escalatorTotal, escalatorTotal * 2, 250, Ratio(0, 1),
           "M->F 50,100..250. Wknd 0")
  }

  /** The custom strategies in the order the table receives them. */
  function CustomStrategies(): seq<Record>
  {
    [FixedDaily(), FiftyTwoWeekChallenge(), WeekdayLadder(), Reverse52Week(), PaydaySync(),
     NoSpendWeekends(), AggressiveLadder(), CoffeeSkip(), WeekendBinge(), DateMatch(),
     OddEvenSmasher(), WorkdayEscalator()]
  }

  // Each custom record agrees with the schedule its description states: the total is the sum
  // of the schedule's payments and the peak payment is the schedule's largest one.

  lemma FixedDailyFollowsSchedule()
    ensures var r := FixedDaily();
            && WellFormed(r) && r.totalSavings == 66795
            && r.totalSavings == Sum(Flat(183, 365)) && r.maxDailyAmount == MaxOf(Flat(183, 365))
  {
    FlatFacts(183, 365);
  }

  lemma FiftyTwoWeekChallengeFollowsSchedule()
    ensures var r := FiftyTwoWeekChallenge();
            && WellFormed(r) && r.totalSavings == 50 * Triangle(52) == 68900
            && r.totalSavings == Sum(FiftyTwoWeekDeposits())
            && r.maxDailyAmount == MaxOf(FiftyTwoWeekDeposits())
  {
    LadderWeekFacts(50, 52);
  }

  lemma WeekdayLadderFollowsSchedule()
    ensures var r := WeekdayLadder();
            && WellFormed(r) && r.totalSavings == 52 * (50 * Triangle(7)) == 72800
            && r.totalSavings == Sum(Weekly(WeekdayLadderWeek()))
            && r.maxDailyAmount == MaxOf(Weekly(WeekdayLadderWeek()))
  {
    LadderWeekFacts(50, 7);
    assert Triangle(7) == 28;
    WeeklyFacts(WeekdayLadderWeek());
  }

  lemma Reverse52WeekFollowsSchedule()
    ensures var r := Reverse52Week();
            && WellFormed(r) && r.totalSavings == FiftyTwoWeekChallenge().totalSavings == 68900
            && r.totalSavings == Sum(Reverse52WeekDeposits())
            && r.maxDailyAmount == MaxOf(Reverse52WeekDeposits())
  {
    SumMultiples(50, 52);
    Reverse52WeekFacts();
  }

  lemma PaydaySyncFollowsSchedule()
    ensures var r := PaydaySync();
            && WellFormed(r) && r.totalSavings == 72000
            && r.totalSavings == Sum(PaydayYear(3000)) && r.maxDailyAmount == MaxOf(PaydayYear(3000))
  {
    PaydayFacts(3000);
  }

  lemma NoSpendWeekendsFollowsSchedule()
    ensures var r := NoSpendWeekends();
            && WellFormed(r) && r.totalSavings == 78000
            && r.totalSavings == Sum(Weekly(NoSpendWeekendsWeek()))
            && r.maxDailyAmount == MaxOf(Weekly(NoSpendWeekendsWeek()))
  {
    TwoRateWeekFacts(300, 5, 0, 2);
    WeeklyFacts(NoSpendWeekendsWeek());
  }

  lemma AggressiveLadderFollowsSchedule()
    ensures var r := AggressiveLadder();
            && WellFormed(r) && r.totalSavings == 52 * (100 * Triangle(7)) == 145600
            && r.totalSavings == Sum(Weekly(AggressiveLadderWeek()))
            && r.maxDailyAmount == MaxOf(Weekly(AggressiveLadderWeek()))
  {
    LadderWeekFacts(100, 7);
    assert Triangle(7) == 28;
    WeeklyFacts(AggressiveLadderWeek());
  }

  lemma CoffeeSkipFollowsSchedule()
    ensures var r := CoffeeSkip();
            && WellFormed(r) && r.totalSavings == 21900
            && r.totalSavings == Sum(Flat(60, 365)) && r.maxDailyAmount == MaxOf(Flat(60, 365))
  {
    FlatFacts(60, 365);
  }

  lemma WeekendBingeFollowsSchedule()
    ensures var r := WeekendBinge();
            && WellFormed(r) && r.totalSavings == 104000
            && r.totalSavings == Sum(Weekly(WeekendBingeWeek()))
            && r.maxDailyAmount == MaxOf(Weekly(WeekendBingeWeek()))
  {
    TwoRateWeekFacts(0, 5, 1000, 2);
    WeeklyFacts(WeekendBingeWeek());
  }

  lemma DateMatchFollowsSchedule()
    ensures var r := DateMatch();
            && WellFormed(r) && r.totalSavings == 57380
            && 496 == Triangle(31) && 465 == Triangle(30) && 406 == Triangle(28)
            && r.totalSavings == Sum(DateMatchYear()) && r.maxDailyAmount == MaxOf(DateMatchYear())
  {
    DateMatchFacts();
  }

  lemma OddEvenSmasherFollowsSchedule()
    ensures var r := OddEvenSmasher();
            && WellFormed(r) && r.totalSavings == 100150
            && r.totalSavings == Sum(OddEvenDays(50, 500, 365))
            && r.maxDailyAmount == MaxOf(OddEvenDays(50, 500, 365))
  {
    OddEvenFacts();
  }

  lemma WorkdayEscalatorFollowsSchedule()
    ensures var r := WorkdayEscalator();
            && WellFormed(r) && r.totalSavings == 39000
            && r.totalSavings == Sum(Weekly(WorkdayEscalatorWeek()))
            && r.maxDailyAmount == MaxOf(Weekly(WorkdayEscalatorWeek()))
  {
    WorkdayEscalatorWeekFacts();
    WeeklyFacts(WorkdayEscalatorWeek());
  }

  /** The twelve custom records, their totals in order, and their well-formedness. */
  lemma CustomStrategyTotals()
    ensures |CustomStrategies()| == 12
    ensures seq(12, k requires 0 <= k < 12 => CustomStrategies()[k].totalSavings)
            == [66795, 68900, 72800, 68900, 72000, 78000, 145600, 21900, 104000, 57380, 100150, 39000]
    ensures forall k :: 0 <= k < 12 ==> CustomStrategies()[k].cyclesPerYear == 0
    ensures forall k :: 0 <= k < 12 ==> WellFormed(CustomStrategies()[k])
  {
    SumMultiples(50, 52);
    SumMultiples(50, 7);
    SumMultiples(100, 7);
  }

  // ---------------------------------------------------------------------------------
  // The assembled table and its ranking.
  // ---------------------------------------------------------------------------------

  /** The table before ranking: the cycle records in request order, then the custom ones. */
  function Assembled(cycles: seq<nat>, yearDays: nat): seq<Record>
    requires forall k :: 0 <= k < |cycles| ==> cycles[k] >= 1
  {
    CycleRecords(cycles, yearDays) + CustomStrategies()
  }

  lemma AssembledFacts(cycles: seq<nat>, yearDays: nat)
    requires forall k :: 0 <= k < |cycles| ==> cycles[k] >= 1
    ensures |Assembled(cycles, yearDays)| == |cycles| + 12
    ensures forall k :: 0 <= k < |cycles| ==>
              Assembled(cycles, yearDays)[k].cyclesPerYear == cycles[k]
              && Assembled(cycles, yearDays)[k].totalSavings == YearlyTotal(cycles[k], yearDays)
    ensures Assembled(cycles, yearDays)[|cycles|..] == CustomStrategies()
    ensures forall r :: r in Assembled(cycles, yearDays) ==> WellFormed(r)
  {
    var a := Assembled(cycles, yearDays);
    CustomStrategyTotals();
    forall k | 0 <= k < |cycles| ensures WellFormed(a[k]) && a[k] == CycleRecord(cycles[k], yearDays) {
      CycleRecordFacts(cycles[k], yearDays);
    }
    forall k | 0 <= k < |cycles|
      ensures a[k].cyclesPerYear == cycles[k] && a[k].totalSavings == YearlyTotal(cycles[k], yearDays)
    {
      CycleRecordFacts(cycles[k], yearDays);
    }
    assert a[|cycles|..] == CustomStrategies();
    forall r | r in a ensures WellFormed(r) {
      var i :| 0 <= i < |a| && a[i] == r;
      if i >= |cycles| {
        assert r == CustomStrategies()[i - |cycles|];
      }
    }
  }

  /** The length and well-formedness facts of AssembledFacts, for a table known to be the assembled one. */
  lemma AssembledWellFormed(cycles: seq<nat>, yearDays: nat, data: seq<Record>)
    requires forall k :: 0 <= k < |cycles| ==> cycles[k] >= 1
    requires data == Assembled(cycles, yearDays)
    ensures |data| == |cycles| + 12
    ensures forall r :: r in data ==> WellFormed(r)
  {
    AssembledFacts(cycles, yearDays);
  }

  /** The record built for one requested cycle count, as the loop body of generate_comparison_data does. */
  method BuildCycleRecord(c: nat, yearDays: nat) returns (r: Record)
    requires c >= 1
    ensures r == CycleRecord(c, yearDays)
  {
    var total, lengths := CalculateYearlySavings(c, yearDays);
    FairPartitionUnique(lengths, c, yearDays);

    var desc := NatToString(lengths[0]) + " days";
    if |set x | x in lengths| > 1 {
      desc := "~" + NatToString(Sum(lengths) / |lengths|) + " days";
    }

    r := Record(c, CycleLabel(c), total, total * 2, MaxOf(lengths), Ratio(yearDays, c), desc);
  }

  lemma CycleRecordsExtend(cycles: seq<nat>, i: nat, yearDays: nat)
    requires forall k :: 0 <= k < |cycles| ==> cycles[k] >= 1
    requires i < |cycles|
    ensures CycleRecords(cycles[..i + 1], yearDays) == CycleRecords(cycles[..i], yearDays) + [CycleRecord(cycles[i], yearDays)]
  {
  }

  /** Reordering a table of well-formed records leaves every record well-formed. */
  lemma PermutationKeepsWellFormed(t: seq<Record>, a: seq<Record>)
    requires multiset(t) == multiset(a)
    requires forall r :: r in a ==> WellFormed(r)
    ensures forall k :: 0 <= k < |t| ==> WellFormed(t[k])
  {
    forall k | 0 <= k < |t|
      ensures WellFormed(t[k])
    {
      assert t[k] in multiset(a);
    }
  }

  /**
   * The table as generate_comparison_data builds it before ranking: one record per requested
   * cycle count, in request order, then the twelve custom records in their fixed order.
   */
  method AssembleRecords(targetCycles: seq<nat>, yearDays: nat) returns (data: seq<Record>)
    requires forall k :: 0 <= k < |targetCycles| ==> targetCycles[k] >= 1
    ensures data == Assembled(targetCycles, yearDays)
  {
    data := [];

    for i := 0 to |targetCycles|
      invariant data == CycleRecords(targetCycles[..i], yearDays)
    {
      var r := BuildCycleRecord(targetCycles[i], yearDays);
      CycleRecordsExtend(targetCycles, i, yearDays);
      data := data + [r];
    }
    assert targetCycles[..|targetCycles|] == targetCycles;

    data := data + [FixedDaily()];
    data := data + [FiftyTwoWeekChallenge()];
    data := data + [WeekdayLadder()];
    data := data + [Reverse52Week()];
    data := data + [PaydaySync()];
    data := data + [NoSpendWeekends()];
    data := data + [AggressiveLadder()];
    data := data + [CoffeeSkip()];
    data := data + [WeekendBinge()];
    data := data + [DateMatch()];
    data := data + [OddEvenSmasher()];
    data := data + [WorkdayEscalator()];
  }

  /**
   * generate_comparison_data: the assembled table ranked by total savings, highest first.
   * Every record in it is well-formed and there is one per requested cycle count plus twelve.
   */
  method GenerateComparisonData(targetCycles: seq<nat>, yearDays: nat) returns (table: seq<Record>)
    requires forall k :: 0 <= k < |targetCycles| ==> targetCycles[k] >= 1
    ensures multiset(table) == multiset(Assembled(targetCycles, yearDays))
    ensures SortedByTotalDesc(table)
    ensures |table| == |targetCycles| + 12
    ensures forall k :: 0 <= k < |table| ==> WellFormed(table[k])
  {
    var data := AssembleRecords(targetCycles, yearDays);
    AssembledWellFormed(targetCycles, yearDays, data);
    table := SortByTotalDesc(data);
    PermutationKeepsWellFormed(table, data);
  }

  /** Every custom record other than the Aggressive Ladder totals less than 145600. */
  lemma CustomBelowAggressiveLadder()
    ensures CustomStrategies()[6] == AggressiveLadder() && AggressiveLadder().totalSavings == 145600
    ensures forall k :: 0 <= k < 12 && k != 6 ==> CustomStrategies()[k].totalSavings < 145600
  {
    CustomStrategyTotals();
    var totals := seq(12, k requires 0 <= k < 12 => CustomStrategies()[k].totalSavings);
    forall k | 0 <= k < 12 && k != 6
      ensures CustomStrategies()[k].totalSavings < 145600
    {
      assert CustomStrategies()[k].totalSavings == totals[k];
    }
    assert AggressiveLadder().totalSavings == totals[6];
  }

  /** Below a one-cycle total of 145600, every other record of the table stays under the Aggressive Ladder. */
  lemma OnlyAggressiveLadderReaches(cycles: seq<nat>, yearDays: nat)
    requires forall k :: 0 <= k < |cycles| ==> cycles[k] >= 1
    requires Triangle(yearDays) < 145600
    ensures AggressiveLadder() in Assembled(cycles, yearDays)
    ensures AggressiveLadder().totalSavings == 145600
    ensures forall r :: r in Assembled(cycles, yearDays) ==> r == AggressiveLadder() || r.totalSavings < 145600
  {
    var a := Assembled(cycles, yearDays);
    var n := |cycles|;
    CustomBelowAggressiveLadder();
    assert a[n + 6] == CustomStrategies()[6];
    forall r | r in a
      ensures r == AggressiveLadder() || r.totalSavings < 145600
    {
      var i :| 0 <= i < |a| && a[i] == r;
      if i < n {
        assert r == CycleRecord(cycles[i], yearDays);
        YearlyTotalClosedForm(cycles[i], yearDays);
      } else {
        assert r == CustomStrategies()[i - n];
      }
    }
  }

  /**
   * Whatever cycle counts are requested, the ranked table is led by the Aggressive Ladder
   * as long as the year is short enough that one cycle over it stays below 145600.
   */
  lemma RankedTableWinner(cycles: seq<nat>, yearDays: nat, table: seq<Record>)
    requires forall k :: 0 <= k < |cycles| ==> cycles[k] >= 1
    requires Triangle(yearDays) < 145600
    requires multiset(table) == multiset(Assembled(cycles, yearDays))
    requires SortedByTotalDesc(table)
    ensures |table| > 0 && table[0] == AggressiveLadder()
  {
    OnlyAggressiveLadderReaches(cycles, yearDays);
    UniqueLargestLeads(table, Assembled(cycles, yearDays), AggressiveLadder());
  }

  /** The cycle counts the program asks for. */
  predicate UsualCycles(cycles: seq<nat>)
  {
    cycles == [1, 2, 4, 6, 12, 24, 26, 52, 365]
  }

  lemma UsualCyclesValid(cycles: seq<nat>)
    requires UsualCycles(cycles)
    ensures |cycles| == 9 && forall k :: 0 <= k < |cycles| ==> cycles[k] >= 1
  {
  }

  /** With the usual cycle counts and a 365-day year, the winner is the Aggressive Ladder. */
  lemma UsualCyclesWinner(cycles: seq<nat>, table: seq<Record>)
    requires UsualCycles(cycles)
    requires multiset(table) == multiset(Assembled(cycles, 365))
    requires SortedByTotalDesc(table)
    ensures |table| == 21 && table[0].labelText == "Aggressive Ladder" && table[0].totalSavings == 145600
  {
    UsualCyclesValid(cycles);
    assert Triangle(365) == 66795;
    RankedTableWinner(cycles, 365, table);
    CustomBelowAggressiveLadder();
    var a := Assembled(cycles, 365);
    assert |a| == |cycles| + |CustomStrategies()| == 21;
    assert |table| == |multiset(table)| == |multiset(a)| == |a|;
  }

}
