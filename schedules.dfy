/**
 * Day-by-day (or week-by-week) payment schedules that the custom strategies describe in
 * words. Each is an independent account of a strategy: the catalog's closed-form totals
 * and peak payments are proved equal to the sum and the maximum of these schedules.
 */
module Schedules {
  import opened Sums

  /** The same amount on each of `days` days. */
  function Flat(amount: nat, days: nat): seq<nat>
  {
    Repeat([amount], days)
  }

  lemma FlatFacts(amount: nat, days: nat)
    requires days > 0
    ensures |Flat(amount, days)| == days
    ensures Sum(Flat(amount, days)) == days * amount
    ensures MaxOf(Flat(amount, days)) == amount
  {
    SumRepeat([amount], days);
    SumSingleton(amount);
    RepeatMembers([amount], days);
    MaxOfIs(Flat(amount, days), amount);
  }

  /** A 7-day pattern repeated for the 52 weeks of the year (364 days). */
  function Weekly(week: seq<nat>): seq<nat>
  {
    Repeat(week, 52)
  }

  lemma WeeklyFacts(week: seq<nat>)
    requires |week| > 0
    ensures |Weekly(week)| == 52 * |week|
    ensures Sum(Weekly(week)) == 52 * Sum(week)
    ensures MaxOf(Weekly(week)) == MaxOf(week)
  {
    SumRepeat(week, 52);
    RepeatMembers(week, 52);
    MaxOfIs(Weekly(week), MaxOf(week));
  }

  /** A week of `na` days paying a followed by `nb` days paying b. */
  function TwoRateWeek(a: nat, na: nat, b: nat, nb: nat): seq<nat>
  {
    Repeat([a], na) + Repeat([b], nb)
  }

  lemma TwoRateWeekFacts(a: nat, na: nat, b: nat, nb: nat)
    requires na > 0 && nb > 0
    ensures |TwoRateWeek(a, na, b, nb)| == na + nb
    ensures Sum(TwoRateWeek(a, na, b, nb)) == na * a + nb * b
    ensures MaxOf(TwoRateWeek(a, na, b, nb)) == if a >= b then a else b
  {
    var left, right := Repeat([a], na), Repeat([b], nb);
    SumConcat(left, right);
    FlatFacts(a, na);
    FlatFacts(b, nb);
    RepeatMembers([a], na);
    RepeatMembers([b], nb);
    var top := if a >= b then a else b;
    forall x | x in left + right
      ensures x <= top
    {
      assert x in left || x in right;
    }
    assert top in left + right;
    MaxOfIs(left + right, top);
  }

  /** Mon = 50, Tue = 100, ..., Sun = 350. */
  function WeekdayLadderWeek(): seq<nat> { Multiples(50, 7) }

  /** Mon = 100, Tue = 200, ..., Sun = 700. */
  function AggressiveLadderWeek(): seq<nat> { Multiples(100, 7) }

  /** 300 on each weekday, nothing on Saturday and Sunday. */
  function NoSpendWeekendsWeek(): seq<nat> { TwoRateWeek(300, 5, 0, 2) }

  /** Nothing on weekdays, 1000 on Saturday and on Sunday. */
  function WeekendBingeWeek(): seq<nat> { TwoRateWeek(0, 5, 1000, 2) }

  /** Mon = 50, ..., Fri = 250, nothing at the weekend. */
  function WorkdayEscalatorWeek(): seq<nat> { Multiples(50, 5) + Repeat([0], 2) }

  lemma LadderWeekFacts(k: nat, days: nat)
    requires days > 0
    ensures Sum(Multiples(k, days)) == k * Triangle(days)
    ensures MaxOf(Multiples(k, days)) == k * days
  {
    SumMultiples(k, days);
    MultiplesBound(k, days);
    MaxOfIs(Multiples(k, days), k * days);
  }

  lemma WorkdayEscalatorWeekFacts()
    ensures |WorkdayEscalatorWeek()| == 7
    ensures Sum(WorkdayEscalatorWeek()) == 750
    ensures MaxOf(WorkdayEscalatorWeek()) == 250
  {
    SumConcat(Multiples(50, 5), Repeat([0], 2));
    SumMultiples(50, 5);
    SumRepeat([0], 2);
    SumSingleton(0);
    MultiplesBound(50, 5);
    RepeatMembers([0], 2);
    MaxOfIs(WorkdayEscalatorWeek(), 250);
  }

  /** Weekly deposits of the 52-week challenge: 50, 100, ..., 2600. */
  function FiftyTwoWeekDeposits(): seq<nat> { Multiples(50, 52) }

  /** The same deposits front-loaded: 2600, 2550, ..., 50. */
  function Reverse52WeekDeposits(): seq<nat> { Countdown(50, 52) }

  lemma Reverse52WeekFacts()
    ensures |Reverse52WeekDeposits()| == 52
    ensures Sum(Reverse52WeekDeposits()) == 50 * Triangle(52)
    ensures MaxOf(Reverse52WeekDeposits()) == 2600
  {
    SumCountdown(50, 52);
    CountdownBound(50, 52);
    MaxOfIs(Reverse52WeekDeposits(), 2600);
  }

  /**
   * A year of twelve months kept as the seven 31-day months, then the four 30-day months,
   * then the 28-day February, each month's days laid out by `month`.
   */
  function ByMonthLength(m31: seq<nat>, m30: seq<nat>, m28: seq<nat>): seq<nat>
  {
    Repeat(m31, 7) + Repeat(m30, 4) + m28
  }

  lemma ByMonthLengthFacts(m31: seq<nat>, m30: seq<nat>, m28: seq<nat>)
    ensures |ByMonthLength(m31, m30, m28)| == 7 * |m31| + 4 * |m30| + |m28|
    ensures Sum(ByMonthLength(m31, m30, m28)) == 7 * Sum(m31) + 4 * Sum(m30) + Sum(m28)
    ensures forall x :: x in ByMonthLength(m31, m30, m28) <==> x in m31 || x in m30 || x in m28
  {
    SumConcat(Repeat(m31, 7) + Repeat(m30, 4), m28);
    SumConcat(Repeat(m31, 7), Repeat(m30, 4));
    SumRepeat(m31, 7);
    SumRepeat(m30, 4);
    RepeatMembers(m31, 7);
    RepeatMembers(m30, 4);
  }

  /** Date match: day d of every month pays 10 * d. */
  function DateMatchYear(): seq<nat>
  {
    ByMonthLength(Multiples(10, 31), Multiples(10, 30), Multiples(10, 28))
  }

  lemma DateMatchFacts()
    ensures |DateMatchYear()| == 365
    ensures Sum(DateMatchYear()) == 10 * (7 * Triangle(31) + 4 * Triangle(30) + Triangle(28))
    ensures MaxOf(DateMatchYear()) == 310
  {
    ByMonthLengthFacts(Multiples(10, 31), Multiples(10, 30), Multiples(10, 28));
    SumMultiples(10, 31);
    SumMultiples(10, 30);
    SumMultiples(10, 28);
    MultiplesBound(10, 31);
    MultiplesBound(10, 30);
    MultiplesBound(10, 28);
    MaxOfIs(DateMatchYear(), 310);
  }

  /** A month that pays `amount` on the 1st and on the 16th and nothing on other days. */
  function PaydayMonth(amount: nat, days: nat): seq<nat>
    requires days >= 16
  {
    [amount] + Repeat([0], 14) + [amount] + Repeat([0], days - 16)
  }

  lemma PaydayMonthFacts(amount: nat, days: nat)
    requires days >= 16
    ensures |PaydayMonth(amount, days)| == days
    ensures Sum(PaydayMonth(amount, days)) == 2 * amount
    ensures amount in PaydayMonth(amount, days)
    ensures forall x :: x in PaydayMonth(amount, days) ==> x <= amount
  {
    var a := [amount] + Repeat([0], 14);
    SumConcat(a + [amount], Repeat([0], days - 16));
    SumConcat(a, [amount]);
    SumConcat([amount], Repeat([0], 14));
    SumSingleton(amount);
    SumSingleton(0);
    SumRepeat([0], 14);
    SumRepeat([0], days - 16);
    RepeatMembers([0], 14);
    RepeatMembers([0], days - 16);
  }

  /** Payday sync: `amount` on the 1st and the 16th of every month. */
  function PaydayYear(amount: nat): seq<nat>
  {
    ByMonthLength(PaydayMonth(amount, 31), PaydayMonth(amount, 30), PaydayMonth(amount, 28))
  }

  lemma PaydayFacts(amount: nat)
    ensures |PaydayYear(amount)| == 365
    ensures Sum(PaydayYear(amount)) == 24 * amount
    ensures MaxOf(PaydayYear(amount)) == amount
  {
    var m31, m30, m28 := PaydayMonth(amount, 31), PaydayMonth(amount, 30), PaydayMonth(amount, 28);
    ByMonthLengthFacts(m31, m30, m28);
    PaydayMonthFacts(amount, 31);
    PaydayMonthFacts(amount, 30);
    PaydayMonthFacts(amount, 28);
    var year := ByMonthLength(m31, m30, m28);
    forall x | x in year
      ensures x <= amount
    {
      assert x in m31 || x in m30 || x in m28;
    }
    MaxOfIs(year, amount);
  }

  /** Day i of the year (counted from 1) pays `odd` when i is odd and `even` when it is even. */
  function OddEvenDays(odd: nat, even: nat, days: nat): (s: seq<nat>)
    ensures |s| == days
  {
    seq(days, i => if (i + 1) % 2 == 1 then odd else even)
  }

  /** Of days 1..n, (n + 1) / 2 are odd and n / 2 are even. */
  lemma {:induction false} OddEvenSum(odd: nat, even: nat, days: nat)
    ensures Sum(OddEvenDays(odd, even, days)) == (days + 1) / 2 * odd + days / 2 * even
  {
    if days > 0 {
      var n := days - 1;
      var h, e := (n + 1) / 2, n / 2;
      OddEvenSum(odd, even, n);
      assert OddEvenDays(odd, even, days)[..n] == OddEvenDays(odd, even, n);
      assert Sum(OddEvenDays(odd, even, days)) == h * odd + e * even + OddEvenDays(odd, even, days)[n];
      if n % 2 == 0 {
        assert (days + 1) / 2 == h + 1 && days / 2 == e;
        MulSucc(h, odd);
      } else {
        assert (days + 1) / 2 == h && days / 2 == e + 1;
        MulSucc(e, even);
      }
    }
  }

  lemma OddEvenFacts()
    ensures Sum(OddEvenDays(50, 500, 365)) == 183 * 50 + 182 * 500
    ensures MaxOf(OddEvenDays(50, 500, 365)) == 500
  {
    OddEvenSum(50, 500, 365);
    var s := OddEvenDays(50, 500, 365);
    assert s[1] == 500;
    MaxOfIs(s, 500);
  }
}
