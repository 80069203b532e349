/** `solvency_ratio.py`: per-year solvency ratios. Only the denominator is
    checked for zero, so a zero numerator gives a ratio of 0. */
module SolvencyRatio {
  import opened Py
  import opened YearlyTables

  class SolvencyRatios {
    const income: Statement
    const balance: Statement

    constructor (data: Data)
      ensures income == GetOr(data.incomeStatement, EmptyDict())
      ensures balance == GetOr(data.balanceSheet, EmptyDict())
    {
      income := GetOr(data.incomeStatement, EmptyDict());
      balance := GetOr(data.balanceSheet, EmptyDict());
    }

    /** Debt-to-equity = Total Debt / Stockholders Equity, over balance-sheet years. */
    method DebtToEquityRatio() returns (r: Table)
      ensures forall y :: y in r.items <==>
        y in balance.items && Line(balance, y, "Total Debt").Some? && Truthy(Line(balance, y, "Stockholders Equity"))
      ensures forall y :: y in r.items ==>
        Line(balance, y, "Total Debt").Some? && Truthy(Line(balance, y, "Stockholders Equity"))
        && r.items[y] == Line(balance, y, "Total Debt").value / Line(balance, y, "Stockholders Equity").value
      ensures Subsequence(r.keys, balance.keys)
    {
      if |balance.keys| == 0 {
        return EmptyDict();
      }
      r := Tabulate(balance.keys, y => Ratio(Line(balance, y, "Total Debt"), Line(balance, y, "Stockholders Equity")));
    }

    /** Interest coverage = EBIT / Interest Expense with its sign kept, over
        income-statement years. */
    method InterestCoverageRatio() returns (r: Table)
      ensures forall y :: y in r.items <==>
        y in income.items && Line(income, y, "EBIT").Some? && Truthy(Line(income, y, "Interest Expense"))
      ensures forall y :: y in r.items ==>
        Line(income, y, "EBIT").Some? && Truthy(Line(income, y, "Interest Expense"))
        && r.items[y] == Line(income, y, "EBIT").value / Line(income, y, "Interest Expense").value
      ensures Subsequence(r.keys, income.keys)
    {
      if |income.keys| == 0 {
        return EmptyDict();
      }
      r := Tabulate(income.keys, y => Ratio(Line(income, y, "EBIT"), Line(income, y, "Interest Expense")));
    }

    /** Debt-to-asset = Total Debt / Total Assets, over balance-sheet years. */
    method DebtToAssetRatio() returns (r: Table)
      ensures forall y :: y in r.items <==>
        y in balance.items && Line(balance, y, "Total Debt").Some? && Truthy(Line(balance, y, "Total Assets"))
      ensures forall y :: y in r.items ==>
        Line(balance, y, "Total Debt").Some? && Truthy(Line(balance, y, "Total Assets"))
        && r.items[y] == Line(balance, y, "Total Debt").value / Line(balance, y, "Total Assets").value
      ensures Subsequence(r.keys, balance.keys)
    {
      if |balance.keys| == 0 {
        return EmptyDict();
      }
      r := Tabulate(balance.keys, y => Ratio(Line(balance, y, "Total Debt"), Line(balance, y, "Total Assets")));
    }
  }
}
