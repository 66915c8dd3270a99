/** The stored NAV record, `common.FundWorth`. */
module Records {

  /** One row of `fund_worth`. `InfoDate` is the "YYYY-MM-DD" text the store
      returns; the float NAV columns are carried as reals and never computed
      with. */
  datatype FundWorth = FundWorth(
    id: int,
    fundCode: string,
    infoDate: string,
    unitWorth: real,
    totalWorth: real,
    source: string)
}
