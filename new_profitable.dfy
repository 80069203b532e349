/** `new_profitable.py`: per-year profitability ratios over year-keyed
    statements. A ratio is inserted for a year only when its inputs are
    there; a missing year is left out, never set to 0. */
module NewProfitable {
  import opened Py
  import opened YearlyTables

  class ProfitabilityRatios {
    const income: Statement
    const balance: Statement

    constructor (data: Data)
      ensures income == GetOr(data.incomeStatement, EmptyDict())
      ensures balance == GetOr(data.balanceSheet, EmptyDict())
    {
      income := GetOr(data.incomeStatement, EmptyDict());
      balance := GetOr(data.balanceSheet, EmptyDict());
    }

    /** Net profit margin (%) = Net Income / Total Revenue * 100. */
    method NetProfitMargin() returns (r: Table)
      ensures forall y :: y in r.items <==>
        y in income.items && Line(income, y, "Net Income").Some? && Truthy(Line(income, y, "Total Revenue"))
      ensures forall y :: y in r.items ==>
        Line(income, y, "Net Income").Some? && Truthy(Line(income, y, "Total Revenue"))
        && r.items[y] == Line(income, y, "Net Income").value / Line(income, y, "Total Revenue").value * 100.0
      ensures Subsequence(r.keys, income.keys)
    {
      if |income.keys| == 0 {
        return EmptyDict();
      }
      r := Tabulate(income.keys, y => Percent(Line(income, y, "Net Income"), Line(income, y, "Total Revenue")));
    }

    /** Operating profit margin (%) = Operating Income / Total Revenue * 100. */
    method OperatingProfitMargin() returns (r: Table)
      ensures forall y :: y in r.items <==>
        y in income.items && Line(income, y, "Operating Income").Some? && Truthy(Line(income, y, "Total Revenue"))
      ensures forall y :: y in r.items ==>
        Line(income, y, "Operating Income").Some? && Truthy(Line(income, y, "Total Revenue"))
        && r.items[y] == Line(income, y, "Operating Income").value / Line(income, y, "Total Revenue").value * 100.0
      ensures Subsequence(r.keys, income.keys)
    {
      if |income.keys| == 0 {
        return EmptyDict();
      }
      r := Tabulate(income.keys, y => Percent(Line(income, y, "Operating Income"), Line(income, y, "Total Revenue")));
    }

    /** Return on equity (%) = Net Income / same-year Stockholders Equity * 100. */
    method ReturnOnEquity() returns (r: Table)
      ensures |income.keys| == 0 || |balance.keys| == 0 ==> r.keys == []
      ensures forall y :: y in r.items <==>
        y in income.items && Line(income, y, "Net Income").Some? && Truthy(Line(balance, y, "Stockholders Equity"))
      ensures forall y :: y in r.items ==>
        Line(income, y, "Net Income").Some? && Truthy(Line(balance, y, "Stockholders Equity"))
        && r.items[y] == Line(income, y, "Net Income").value / Line(balance, y, "Stockholders Equity").value * 100.0
      ensures Subsequence(r.keys, income.keys)
    {
      if |income.keys| == 0 || |balance.keys| == 0 {
        return EmptyDict();
      }
      r := Tabulate(income.keys, y => Percent(Line(income, y, "Net Income"), Line(balance, y, "Stockholders Equity")));
    }

    /** Return on assets (%) = Net Income / same-year Total Assets * 100. */
    method ReturnOnAssets() returns (r: Table)
      ensures |income.keys| == 0 || |balance.keys| == 0 ==> r.keys == []
      ensures forall y :: y in r.items <==>
        y in income.items && Line(income, y, "Net Income").Some? && Truthy(Line(balance, y, "Total Assets"))
      ensures forall y :: y in r.items ==>
        Line(income, y, "Net Income").Some? && Truthy(Line(balance, y, "Total Assets"))
        && r.items[y] == Line(income, y, "Net Income").value / Line(balance, y, "Total Assets").value * 100.0
      ensures Subsequence(r.keys, income.keys)
    {
      if |income.keys| == 0 || |balance.keys| == 0 {
        return EmptyDict();
      }
      r := Tabulate(income.keys, y => Percent(Line(income, y, "Net Income"), Line(balance, y, "Total Assets")));
    }

    /** Return on capital employed (%) = EBIT / Total Assets * 100: capital
        employed is taken to be total assets, with no deduction. */
    method ReturnOnCapitalEmployed() returns (r: Table)
      ensures |income.keys| == 0 || |balance.keys| == 0 ==> r.keys == []
      ensures forall y :: y in r.items <==>
        y in income.items && Line(income, y, "EBIT").Some? && Truthy(Line(balance, y, "Total Assets"))
      ensures forall y :: y in r.items ==>
        Line(income, y, "EBIT").Some? && Truthy(Line(balance, y, "Total Assets"))
        && r.items[y] == Line(income, y, "EBIT").value / Line(balance, y, "Total Assets").value * 100.0
      ensures Subsequence(r.keys, income.keys)
    {
      if |income.keys| == 0 || |balance.keys| == 0 {
        return EmptyDict();
      }
      r := Tabulate(income.keys, y => Percent(Line(income, y, "EBIT"), Line(balance, y, "Total Assets")));
    }

    /** Earnings per share = Net Income / Ordinary Shares Number, for a
        positive share count. */
    method EarningsPerShare() returns (r: Table)
      ensures forall y :: y in r.items <==>
        y in income.items && Line(income, y, "Net Income").Some?
        && Line(balance, y, "Ordinary Shares Number").Some? && Line(balance, y, "Ordinary Shares Number").value > 0.0
      ensures forall y :: y in r.items ==>
        Line(income, y, "Net Income").Some? && Line(balance, y, "Ordinary Shares Number").Some?
        && Line(balance, y, "Ordinary Shares Number").value > 0.0
        && r.items[y] == Line(income, y, "Net Income").value / Line(balance, y, "Ordinary Shares Number").value
      ensures Subsequence(r.keys, income.keys)
    {
      if |income.keys| == 0 {
        return EmptyDict();
      }
      r := Tabulate(income.keys, y => PerShare(Line(income, y, "Net Income"), Line(balance, y, "Ordinary Shares Number")));
    }
  }

  /** `num / shares` under the guard `num is not None and shares and shares > 0`. */
  function PerShare(num: Option<real>, shares: Option<real>): Option<real> {
    if num.Some? && Truthy(shares) && shares.value > 0.0 then Some(num.value / shares.value) else None
  }
}
