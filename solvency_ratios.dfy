/** `solvency_ratios.py`: solvency ratios as columns over the balance
    sheet's rows; Long Term Debt is preferred over Total Debt, and the
    interest coverage reads the income statement aligned to those rows. */
module SolvencyRatios {
  import opened Py
  import opened Dates
  import opened Cells

  /** `abs(series)`: cell by cell the magnitude, NaN kept as NaN. */
  function ColAbs(a: seq<Cell>): (r: seq<Cell>)
    ensures |r| == |a|
    ensures forall i :: 0 <= i < |a| && a[i].Num? ==> r[i].Num? && r[i].v >= 0.0 && (r[i].v == a[i].v || r[i].v == -a[i].v)
    ensures forall i :: 0 <= i < |a| ==> (r[i] == NaN <==> a[i] == NaN)
    ensures forall i :: 0 <= i < |a| && a[i].Inf? ==> r[i] == Inf(false)
  {
    seq(|a|, i requires 0 <= i < |a| => Abs(a[i]))
  }

  /** The debt column the ratio over `denominator` divides: Long Term Debt
      when it and the denominator exist, else Total Debt when it and the
      denominator exist, else none. */
  function DebtColumn(bs: Frame, denominator: string): Option<string> {
    if HasColumn(bs, "Long Term Debt") && HasColumn(bs, denominator) then Some("Long Term Debt")
    else if HasColumn(bs, "Total Debt") && HasColumn(bs, denominator) then Some("Total Debt")
    else None
  }

  /** `debt / bs[denominator]` with the preferred debt column, or no column. */
  function DebtRatio(bs: Frame, denominator: string): Option<seq<Cell>>
    requires WellFormed(bs)
  {
    match DebtColumn(bs, denominator)
    case None => None
    case Some(debt) => Some(ColDiv(Col(bs, debt), Col(bs, denominator)))
  }

  /** `income['Operating Income'] / abs(income['Interest Expense'])` stored
      into a frame on the balance sheet's rows: pandas aligns it by date,
      NaN on dates the income statement lacks. */
  function InterestCoverage(income: Frame, rows: seq<Date>): Option<seq<Cell>>
    requires WellFormed(income)
  {
    if HasColumn(income, "Operating Income") && HasColumn(income, "Interest Expense")
    then Some(Align(income.index, ColDiv(Col(income, "Operating Income"), ColAbs(Col(income, "Interest Expense"))), rows))
    else None
  }

  /** `calculate_solvency_ratios`. */
  function CalculateSolvencyRatios(income: Frame, bs: Frame): (r: Frame)
    requires WellFormed(income) && WellFormed(bs)
    ensures r.index == bs.index
  {
    var r1 := SetIf(EmptyFrame(bs.index), "Debt-to-Equity Ratio", DebtRatio(bs, "Total Stockholder Equity"));
    var r2 := SetIf(r1, "Interest Coverage Ratio", InterestCoverage(income, bs.index));
    SetIf(r2, "Debt-to-Asset Ratio", DebtRatio(bs, "Total Assets"))
  }

  lemma SolvencyNamesDiffer()
    ensures "Debt-to-Equity Ratio" != "Interest Coverage Ratio"
    ensures "Debt-to-Equity Ratio" != "Debt-to-Asset Ratio"
    ensures "Interest Coverage Ratio" != "Debt-to-Asset Ratio"
  {
    assert "Debt-to-Equity Ratio"[0] != "Interest Coverage Ratio"[0];
    assert "Debt-to-Equity Ratio"[8] != "Debt-to-Asset Ratio"[8];
    assert "Interest Coverage Ratio"[0] != "Debt-to-Asset Ratio"[0];
  }

  /** Each column is present exactly when its source columns exist, and
      the result has those three columns at most. */
  lemma SolvencyColumns(income: Frame, bs: Frame)
    requires WellFormed(income) && WellFormed(bs)
    ensures var r := CalculateSolvencyRatios(income, bs);
            (HasColumn(r, "Debt-to-Equity Ratio") <==>
               (HasColumn(bs, "Long Term Debt") || HasColumn(bs, "Total Debt")) && HasColumn(bs, "Total Stockholder Equity"))
            && (HasColumn(r, "Interest Coverage Ratio") <==>
                  HasColumn(income, "Operating Income") && HasColumn(income, "Interest Expense"))
            && (HasColumn(r, "Debt-to-Asset Ratio") <==>
                  (HasColumn(bs, "Long Term Debt") || HasColumn(bs, "Total Debt")) && HasColumn(bs, "Total Assets"))
            && (forall name :: HasColumn(r, name) ==>
                  name in ["Debt-to-Equity Ratio", "Interest Coverage Ratio", "Debt-to-Asset Ratio"])
  {
    SolvencyNamesDiffer();
    var de := DebtRatio(bs, "Total Stockholder Equity");
    var ic := InterestCoverage(income, bs.index);
    var da := DebtRatio(bs, "Total Assets");
    var r1 := SetIf(EmptyFrame(bs.index), "Debt-to-Equity Ratio", de);
    var r2 := SetIf(r1, "Interest Coverage Ratio", ic);
    forall name
      ensures HasColumn(SetIf(r2, "Debt-to-Asset Ratio", da), name) <==>
                (name == "Debt-to-Equity Ratio" && de.Some?) || (name == "Interest Coverage Ratio" && ic.Some?)
                || (name == "Debt-to-Asset Ratio" && da.Some?)
    {
      SetIfColumns(EmptyFrame(bs.index), "Debt-to-Equity Ratio", de, name);
      SetIfColumns(r1, "Interest Coverage Ratio", ic, name);
      SetIfColumns(r2, "Debt-to-Asset Ratio", da, name);
    }
  }

  /** Debt-to-Equity divides Long Term Debt whenever that column exists,
      and Total Debt only otherwise. */
  lemma DebtToEquityPrefersLongTermDebt(income: Frame, bs: Frame)
    requires WellFormed(income) && WellFormed(bs)
    requires HasColumn(bs, "Total Stockholder Equity")
    ensures var r := CalculateSolvencyRatios(income, bs);
            HasColumn(bs, "Long Term Debt") ==>
              Col(r, "Debt-to-Equity Ratio") == ColDiv(Col(bs, "Long Term Debt"), Col(bs, "Total Stockholder Equity"))
    ensures var r := CalculateSolvencyRatios(income, bs);
            !HasColumn(bs, "Long Term Debt") && HasColumn(bs, "Total Debt") ==>
              Col(r, "Debt-to-Equity Ratio") == ColDiv(Col(bs, "Total Debt"), Col(bs, "Total Stockholder Equity"))
  {
    SolvencyNamesDiffer();
    SolvencyColumns(income, bs);
  }

  /** Debt-to-Asset makes the same choice of debt column. */
  lemma DebtToAssetPrefersLongTermDebt(income: Frame, bs: Frame)
    requires WellFormed(income) && WellFormed(bs)
    requires HasColumn(bs, "Total Assets")
    ensures var r := CalculateSolvencyRatios(income, bs);
            HasColumn(bs, "Long Term Debt") ==>
              Col(r, "Debt-to-Asset Ratio") == ColDiv(Col(bs, "Long Term Debt"), Col(bs, "Total Assets"))
    ensures var r := CalculateSolvencyRatios(income, bs);
            !HasColumn(bs, "Long Term Debt") && HasColumn(bs, "Total Debt") ==>
              Col(r, "Debt-to-Asset Ratio") == ColDiv(Col(bs, "Total Debt"), Col(bs, "Total Assets"))
  {
    SolvencyColumns(income, bs);
  }

  /** The Interest Coverage column of the result is the aligned coverage
      series. */
  lemma InterestCoverageStored(income: Frame, bs: Frame)
    requires WellFormed(income) && WellFormed(bs)
    requires HasColumn(income, "Operating Income") && HasColumn(income, "Interest Expense")
    ensures var r := CalculateSolvencyRatios(income, bs);
            HasColumn(r, "Interest Coverage Ratio") && Col(r, "Interest Coverage Ratio") == InterestCoverage(income, bs.index).value
  {
    SolvencyNamesDiffer();
  }

  /** On a row whose date is the income statement's row j, the coverage
      is Operating Income over the magnitude of Interest Expense: with
      finite values and non-zero interest its sign is the sign of Operating
      Income whatever the sign of the expense. On a date the income
      statement lacks it is NaN. */
  lemma InterestCoverageRows(income: Frame, rows: seq<Date>, i: nat)
    requires WellFormed(income)
    requires HasColumn(income, "Operating Income") && HasColumn(income, "Interest Expense")
    requires i < |rows|
    ensures |InterestCoverage(income, rows).value| == |rows|
    ensures var c := InterestCoverage(income, rows).value[i];
            rows[i] !in income.index ==> c == NaN
    ensures var c := InterestCoverage(income, rows).value[i];
            rows[i] in income.index ==>
              var j := IndexOf(income.index, rows[i]);
              var ebit := Col(income, "Operating Income")[j];
              var interest := Col(income, "Interest Expense")[j];
              c == Div(ebit, Abs(interest))
              && (ebit.Num? && interest.Num? && interest.v != 0.0 ==>
                    c.Num? && c.v * (if interest.v < 0.0 then -interest.v else interest.v) == ebit.v
                    && (c.v >= 0.0 <==> ebit.v >= 0.0))
  {
    if rows[i] in income.index {
      var j := IndexOf(income.index, rows[i]);
      var ebit := Col(income, "Operating Income")[j];
      var interest := Col(income, "Interest Expense")[j];
      if ebit.Num? && interest.Num? && interest.v != 0.0 {
        var m := if interest.v < 0.0 then -interest.v else interest.v;
        assert Abs(interest) == Num(m);
        QuotientSign(ebit.v, m);
      }
    }
  }

  lemma QuotientSign(x: real, m: real)
    requires m > 0.0
    ensures (x / m) * m == x
    ensures x / m >= 0.0 <==> x >= 0.0
  {
  }
}
