/** One row of the comparison table. */
module Records {

  /** An exact fraction num / den, standing for the source's floating-point AvgDaysPerCycle. */
  datatype Ratio = Ratio(num: nat, den: nat)

  /**
   * A strategy record: CyclesPerYear (0 for the custom strategies), Label, TotalSavings,
   * TotalCouple, MaxDailyAmount, AvgDaysPerCycle and Desc.
   */
  datatype Record = Record(
    cyclesPerYear: nat,
    labelText: string,
    totalSavings: nat,
    totalCouple: nat,
    maxDailyAmount: nat,
    avgDaysPerCycle: Ratio,
    desc: string)

  /** The couple total is exactly double, and no single payment exceeds the yearly total. */
  predicate WellFormed(r: Record)
  {
    r.totalCouple == 2 * r.totalSavings && r.maxDailyAmount <= r.totalSavings
  }
}
