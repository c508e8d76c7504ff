# Savings strategy valuation engine, modelled in Dafny

This project models the valuation engine of a savings-strategy comparison script
(`savings_comparison.py`). The engine has two parts.

- **Cycle partitioner** (`calculate_yearly_savings`). A year of `year_days` days is cut into
  `num_cycles` cycles. Every cycle gets `year_days // num_cycles` days, and the first
  `year_days % num_cycles` cycles get one day more. A cycle of L days follows the rule "save 1
  on the first day, one more each day after". It is worth 1 + 2 + ... + L = L(L+1)/2. The
  grand total is the sum over all cycles. The function returns the total and the list of lengths.
- **Strategy catalog and ranker** (`generate_comparison_data`). It builds one record per
  requested cycle count: total, couple total, largest payment (the longest cycle), average
  cycle length and a short description. It then appends twelve fixed "custom" strategies,
  each with its own closed-form total (fixed daily amount, 52-week challenge, weekday
  ladders, paydays, weekday/weekend splits, date-of-month amounts, odd/even days). Last, it
  ranks the whole table by total savings, highest first.

Dafny modules:

- `Sums` (sums.dfy): running sums, the triangular number T(n) = n(n+1)/2, the list
  `[k * i for i in range(1, n + 1)]`, repetition of a block, and `max`.
- `Text` (text.dfy): decimal rendering of a whole number, as `str()` and f-strings write it.
- `Partition` (partition.dfy): `CalculateYearlySavings`, a method with the source's two loops.
  It is proved against the fair-partition predicate and the triangular sum.
- `Schedules` (schedules.dfy): day-by-day (or week-by-week) payment schedules built from each
  custom strategy's wording. They give an independent check of the hard-coded totals and peak
  payments.
- `Records` (records.dfy): the table row and its invariant. The couple total is exactly twice
  the total, and no single payment exceeds the total.
- `Ranking` (ranking.dfy): the ranking by total savings, highest first.
- `Catalog` (catalog.dfy): the twelve custom records, the cycle records, `AssembleRecords`
  (the appends) and `GenerateComparisonData` (assembly, then ranking).

How the model relates to the source:

- `AvgDaysPerCycle` is a floating-point quotient in the source. Here it is the exact fraction
  `Ratio(year_days, c)`; the custom strategies' constants become `Ratio(n, 1)`.
- The source divides the cycle value by 2 with float division (`/ 2`). Here the division is
  exact integer division. `Sums.TriangleIsSeries` proves nothing is lost, because L(L+1) is
  always even.
- For unequal cycles the description uses `int(np.mean(lengths))`. It is modelled as
  `Sum(lengths) / |lengths|`, which is `year_days // c`. When the cycles are unequal the true
  mean is at least 1/c away from a whole number, so truncating the float gives the same value.
- The description's "all lengths equal" test is `len(set(lengths)) > 1`. It is modelled as the
  cardinality of the set of lengths. `Catalog.CycleRecordFacts` proves the test holds exactly when
  `year_days % c != 0`.
- When `num_cycles > year_days`, some cycles have length 0 and add nothing. The model accepts this,
  as the source does. For example, 400 cycles over 365 days gives the description `"~0 days"`.
- The weekly custom strategies count 52 weeks, which is 364 days, as the source's formulas do.
  The 52-week challenges' largest payment is a weekly deposit.
- The source's ranking uses the table library's default sort, which is not stable. The model
  ranks with an insertion sort. It proves only that the result is a permutation of the
  assembled table and is ordered by total, highest first. It claims nothing about the order of
  records with equal totals. Two real ties exist: Yearly (1) and Fixed Daily both total 66795,
  and the two 52-week strategies both total 68900.
- For a non-positive cycle count the code fails. For 0, `calculate_yearly_savings` raises a
  division-by-zero error. For a negative count the loop over `range(num_cycles)` is empty, so it
  returns `(0, [])`, and `generate_comparison_data` then raises an index error at `lengths[0]`.
  The model requires `num_cycles >= 1`, which excludes exactly these failing inputs.

## Model

| member | source | states |
|---|---|---|
| `Sums.TriangleIsSeries` | savings_comparison.py:31-33 | L(L+1) is even, so halving it is exact, and L(L+1)/2 equals the running series 1 + 2 + ... + L |
| `Sums.TriangleSumAtMostWhole` | savings_comparison.py:29-34 | splitting days into cycles never raises the total: the sum of the cycle values is at most the value of all days taken as one cycle |
| `Sums.SumMultiples` | savings_comparison.py:88-89 | `sum([k * i for i in range(1, n + 1)])` equals k · n(n+1)/2, the closed form behind 68900, 1400 and 2800 |
| `Sums.SumCountdown` | savings_comparison.py:116-126 | the same deposits in reverse order, k·n down to k, add up to the same k · n(n+1)/2 |
| `Sums.MaxOf` | savings_comparison.py:66 | `max(lengths)` is an element of the list and bounds every element |
| `Text.NatToString` | savings_comparison.py:57-59 | the rendering of a count is a non-empty string of decimal digits with no leading zero |
| `Text.ParseNatToString` | savings_comparison.py:57-59 | reading the rendered digits back gives the number, so a description names its day count unambiguously |
| `Partition.CalculateYearlySavings` | savings_comparison.py:10-36 | returns exactly `num_cycles` lengths; the first `year_days % num_cycles` are base+1 and the rest are base; they sum to `year_days`; they never increase and differ by at most one; the total is the sum of L(L+1)/2 over them |
| `Partition.PartitionTotals` | savings_comparison.py:18-34 | any list with the fair-partition shape sums to `year_days` and is worth r·T(base+1) + (n−r)·T(base) |
| `Partition.YearlyTotalClosedForm` | savings_comparison.py:18-36 | the grand total in closed form; it never exceeds T(year_days), and it equals T(year_days) for one cycle |
| `Partition.YearExamples` | savings_comparison.py:15-36 | for 365 days: 1 cycle gives [365] and 66795; 2 cycles give [183, 182] and 33489; 365 cycles give 365 cycles of one day and 365 |
| `Partition.LongestCycleIsCeiling` | savings_comparison.py:18-26 | the longest cycle is base+1 when days are left over and base otherwise; it is the least m with m · num_cycles ≥ year_days, the ceiling of the quotient |
| `Partition.LongestCycleMonotone` | savings_comparison.py:18-26 | with the year fixed, more cycles never make the longest cycle longer |
| `Ranking.InsertByTotal` | savings_comparison.py:247 | inserting a record adds exactly that record, and keeps an ordered table ordered by total, highest first |
| `Ranking.SortByTotalDesc` | savings_comparison.py:245-247 | the ranked table is a permutation of its input and is ordered by total savings, highest first |
| `Ranking.UniqueLargestLeads` | savings_comparison.py:247 | a record whose total beats every other record's comes first in any ranking of the table |
| `Catalog.CycleRecordFacts` | savings_comparison.py:53-69 | a cycle record carries its cycle count and the grand total; its couple total is twice the total; its largest payment is the longest cycle and at most the total; its description is "<year_days // c> days", prefixed with "~" exactly when the cycles are unequal |
| `Catalog.BuildCycleRecord` | savings_comparison.py:54-69 | the record built from the partitioner's output and the description branch is the cycle record described above |
| `Catalog.AssembleRecords` | savings_comparison.py:39-243 | the unranked table is the cycle records, one per requested count in request order, followed by the twelve custom records in their fixed order |
| `Catalog.AssembledFacts` | savings_comparison.py:53-243 | the unranked table has one row per requested count plus 12; row k has count `target_cycles[k]` and that count's grand total; the last twelve rows are the custom strategies; every row is well-formed |
| `Catalog.GenerateComparisonData` | savings_comparison.py:38-247 | the result is a permutation of the assembled table, ordered by total savings, highest first; it has one row per requested count plus 12, and every row is well-formed |
| `Catalog.FixedDailyFollowsSchedule` | savings_comparison.py:72-83 | 183 × 365 = 66795 is the sum of paying 183 on each of 365 days; the peak payment 183 is that schedule's largest payment |
| `Catalog.FiftyTwoWeekChallengeFollowsSchedule` | savings_comparison.py:85-98 | the total 50 · T(52) = 68900 and the peak 2600 are the sum and largest of the weekly deposits 50, 100, ..., 2600 |
| `Catalog.WeekdayLadderFollowsSchedule` | savings_comparison.py:100-112 | the total 52 · 1400 = 72800 and the peak 350 are the sum and largest of 52 weeks of Mon=50 ... Sun=350 |
| `Catalog.Reverse52WeekFollowsSchedule` | savings_comparison.py:116-126 | the reverse challenge reuses the 52-week total, 68900; this is the sum of the deposits 2600 down to 50, and 2600 is their largest |
| `Catalog.PaydaySyncFollowsSchedule` | savings_comparison.py:128-141 | 3000 × 24 = 72000 and the peak 3000 are the sum and largest of a 365-day year paying 3000 on the 1st and 16th of each month |
| `Catalog.NoSpendWeekendsFollowsSchedule` | savings_comparison.py:143-156 | (300 × 5) × 52 = 78000 and the peak 300 are the sum and largest of 52 weeks of 300 on weekdays and 0 at weekends |
| `Catalog.AggressiveLadderFollowsSchedule` | savings_comparison.py:158-170 | the total 52 · 2800 = 145600 and the peak 700 are the sum and largest of 52 weeks of Mon=100 ... Sun=700 |
| `Catalog.CoffeeSkipFollowsSchedule` | savings_comparison.py:172-183 | 60 × 365 = 21900 and the peak 60 are the sum and largest of paying 60 every day |
| `Catalog.WeekendBingeFollowsSchedule` | savings_comparison.py:185-197 | 2000 × 52 = 104000 and the peak 1000 are the sum and largest of 52 weeks of 0 on weekdays and 1000 on Saturday and on Sunday |
| `Catalog.DateMatchFollowsSchedule` | savings_comparison.py:201-215 | 496, 465 and 406 are T(31), T(30) and T(28); (496·7 + 465·4 + 406)·10 = 57380 and the peak 310 are the sum and largest of paying 10·d on day d of seven 31-day, four 30-day and one 28-day months |
| `Catalog.OddEvenSmasherFollowsSchedule` | savings_comparison.py:217-229 | 183·50 + 182·500 = 100150 and the peak 500 are the sum and largest of paying 50 on odd and 500 on even days 1..365 |
| `Catalog.WorkdayEscalatorFollowsSchedule` | savings_comparison.py:231-243 | 750 × 52 = 39000 and the peak 250 are the sum and largest of 52 weeks of Mon=50 ... Fri=250 and nothing at weekends |
| `Catalog.CustomStrategyTotals` | savings_comparison.py:72-243 | the twelve custom records, in order, total 66795, 68900, 72800, 68900, 72000, 78000, 145600, 21900, 104000, 57380, 100150 and 39000; each has count 0 and is well-formed |
| `Catalog.RankedTableWinner` | savings_comparison.py:245-247 | for any valid requested counts and a year with T(year_days) < 145600, every ranking of the table is led by the Aggressive Ladder |
| `Catalog.UsualCyclesWinner` | savings_comparison.py:262-273 | for the counts 1, 2, 4, 6, 12, 24, 26, 52, 365 and a 365-day year, the ranked table has 21 rows and is led by "Aggressive Ladder" with 145600 |

## Left out

- `explain_strategies`: it only prints the table to the console.
- The script's entry block: chart construction, the baseline line, the annotation and showing
  the figure are all presentation done through an external plotting library. Only its choice
  of cycle counts and its reading of the first row are reflected, in `Catalog.UsualCyclesWinner`.
- Floating point: `AvgDaysPerCycle` is an exact fraction, and the cycle value and the mean are
  exact integers, not floats (see above).
- The table library's data frame is a sequence of records. The row index that the library
  keeps alongside a sorted frame is not modelled.
- `Ranking.SortByTotalDesc`: states no order among records with equal totals, because the
  source's default sort is not stable.
- `Partition.CalculateYearlySavings`: requires `num_cycles >= 1`. For 0 the source raises a
  division-by-zero error. For a negative count it returns `(0, [])`, and the caller then fails
  with an index error at `lengths[0]`.
- Negative `year_days`: year lengths are natural numbers in the model.
- Record labels and descriptions are kept as literal text. Only the cycle descriptions and the
  numeric fallback label are derived, and only the cycle descriptions are reasoned about.
