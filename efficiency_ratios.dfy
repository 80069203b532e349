/** `efficiency_ratios.py`: turnover ratios over the income statement's
    rows, each dividing by a two-row rolling average of a balance-sheet
    column whose first row falls back to the single value, and Days Sales
    Outstanding without averaging. */
module EfficiencyRatios {
  import opened Py
  import opened Dates
  import opened Cells

  /** `(a + b) / 2`, NaN when either is NaN. */
  function Mean2(a: Cell, b: Cell): Cell {
    Div(Add(a, b), Num(2.0))
  }

  /** `avg = x.rolling(window=2).mean(); avg.iloc[0] = x.iloc[0]`: the
      mean of each row with the row before it in the balance sheet's own
      order, the first row kept as it is; `iloc[0]` of a column with no
      rows raises IndexError. */
  function RollingAverage(x: seq<Cell>): (r: Outcome<seq<Cell>>)
    ensures r.Raise? <==> |x| == 0
    ensures r.Ok? ==> |r.value| == |x|
  {
    if |x| == 0 then Raise(IndexError)
    else Ok(seq(|x|, i requires 0 <= i < |x| => if i == 0 then x[0] else Mean2(x[i - 1], x[i])))
  }

  /** The dates both frames have. */
  predicate HaveCommonDates(income: Frame, bs: Frame) {
    exists i :: 0 <= i < |income.index| && income.index[i] in bs.index
  }

  /** `results.loc[common_dates, name] = income.loc[common_dates, num] /
      avg.loc[common_dates]`: on an income row whose date the balance sheet
      has, the quotient by that date's average; NaN on the other rows. */
  function OnCommonDates(income: Frame, bs: Frame, num: seq<Cell>, avg: seq<Cell>): (r: seq<Cell>)
    requires WellFormed(income) && WellFormed(bs)
    requires |num| == |income.index| && |avg| == |bs.index|
    ensures |r| == |income.index|
  {
    seq(|income.index|, i requires 0 <= i < |income.index| =>
          if income.index[i] in bs.index then Div(num[i], avg[IndexOf(bs.index, income.index[i])]) else NaN)
  }

  /** One turnover ratio: absent unless the income column `num` and the
      balance-sheet column `den` both exist and the frames share a date. */
  function Turnover(income: Frame, bs: Frame, num: string, den: string): Outcome<Option<seq<Cell>>>
    requires WellFormed(income) && WellFormed(bs)
  {
    if !(HasColumn(income, num) && HasColumn(bs, den)) then Ok(None)
    else match RollingAverage(Col(bs, den))
      case Raise(e) => Raise(e)
      case Ok(avg) =>
        if !HaveCommonDates(income, bs) then Ok(None)
        else Ok(Some(OnCommonDates(income, bs, Col(income, num), avg)))
  }

  /** Days Sales Outstanding: Net Receivables / Total Revenue * 365 on the
      common dates, with no averaging. */
  function DaysSalesOutstanding(income: Frame, bs: Frame): Option<seq<Cell>>
    requires WellFormed(income) && WellFormed(bs)
  {
    if !(HasColumn(income, "Total Revenue") && HasColumn(bs, "Net Receivables")) || !HaveCommonDates(income, bs) then None
    else Some(seq(|income.index|, i requires 0 <= i < |income.index| =>
                    if income.index[i] in bs.index
                    then Mul(Div(Col(bs, "Net Receivables")[IndexOf(bs.index, income.index[i])], Col(income, "Total Revenue")[i]),
                             Num(365.0))
                    else NaN))
  }

  /** `calculate_efficiency_ratios`: a frame on the income statement's
      index; the first averaged column whose balance sheet has no rows
      raises IndexError. */
  function CalculateEfficiencyRatios(income: Frame, bs: Frame): (r: Outcome<Frame>)
    requires WellFormed(income) && WellFormed(bs)
    ensures r.Ok? ==> r.value.index == income.index
  {
    match Turnover(income, bs, "Total Revenue", "Total Assets")
    case Raise(e) => Raise(e)
    case Ok(assets) =>
      match Turnover(income, bs, "Cost Of Revenue", "Inventory")
      case Raise(e) => Raise(e)
      case Ok(inventory) =>
        match Turnover(income, bs, "Total Revenue", "Net Receivables")
        case Raise(e) => Raise(e)
        case Ok(receivables) =>
          Ok(Assemble(income.index, assets, inventory, receivables, DaysSalesOutstanding(income, bs)))
  }

  /** The result frame: the four columns in order, each stored when it was
      computed. */
  function Assemble(index: seq<Date>, assets: Option<seq<Cell>>, inventory: Option<seq<Cell>>,
                    receivables: Option<seq<Cell>>, dso: Option<seq<Cell>>): Frame
  {
    var r1 := SetIf(EmptyFrame(index), "Asset Turnover Ratio", assets);
    var r2 := SetIf(r1, "Inventory Turnover Ratio", inventory);
    var r3 := SetIf(r2, "Receivables Turnover Ratio", receivables);
    SetIf(r3, "Days Sales Outstanding", dso)
  }

  /** Each computed column is stored under its own name, unchanged. */
  lemma AssembleColumns(index: seq<Date>, assets: Option<seq<Cell>>, inventory: Option<seq<Cell>>,
                        receivables: Option<seq<Cell>>, dso: Option<seq<Cell>>)
    ensures var r := Assemble(index, assets, inventory, receivables, dso);
            (HasColumn(r, "Asset Turnover Ratio") <==> assets.Some?)
            && (assets.Some? ==> Col(r, "Asset Turnover Ratio") == assets.value)
            && (HasColumn(r, "Inventory Turnover Ratio") <==> inventory.Some?)
            && (inventory.Some? ==> Col(r, "Inventory Turnover Ratio") == inventory.value)
            && (HasColumn(r, "Receivables Turnover Ratio") <==> receivables.Some?)
            && (receivables.Some? ==> Col(r, "Receivables Turnover Ratio") == receivables.value)
            && (HasColumn(r, "Days Sales Outstanding") <==> dso.Some?)
            && (dso.Some? ==> Col(r, "Days Sales Outstanding") == dso.value)
  {
    EfficiencyNamesDiffer();
    var r1 := SetIf(EmptyFrame(index), "Asset Turnover Ratio", assets);
    var r2 := SetIf(r1, "Inventory Turnover Ratio", inventory);
    var r3 := SetIf(r2, "Receivables Turnover Ratio", receivables);
    forall name | name in ["Asset Turnover Ratio", "Inventory Turnover Ratio", "Receivables Turnover Ratio",
                           "Days Sales Outstanding"]
      ensures HasColumn(Assemble(index, assets, inventory, receivables, dso), name) <==>
                HasColumn(r3, name) || (name == "Days Sales Outstanding" && dso.Some?)
      ensures HasColumn(r3, name) <==> HasColumn(r2, name) || (name == "Receivables Turnover Ratio" && receivables.Some?)
      ensures HasColumn(r2, name) <==> HasColumn(r1, name) || (name == "Inventory Turnover Ratio" && inventory.Some?)
      ensures HasColumn(r1, name) <==> name == "Asset Turnover Ratio" && assets.Some?
    {
      SetIfColumns(EmptyFrame(index), "Asset Turnover Ratio", assets, name);
      SetIfColumns(r1, "Inventory Turnover Ratio", inventory, name);
      SetIfColumns(r2, "Receivables Turnover Ratio", receivables, name);
      SetIfColumns(r3, "Days Sales Outstanding", dso, name);
    }
  }

  /** A turnover column exists exactly when its two source columns exist,
      the balance sheet has rows and the frames share a date. */
  lemma TurnoverPresent(income: Frame, bs: Frame, num: string, den: string)
    requires WellFormed(income) && WellFormed(bs)
    ensures Turnover(income, bs, num, den).Ok? ==>
              (Turnover(income, bs, num, den).value.Some? <==>
                 HasColumn(income, num) && HasColumn(bs, den) && HaveCommonDates(income, bs))
  {
  }

  /** The rolling average: row 0 is the value itself, every later row the
      mean of it and the row before; on finite values that mean lies
      between the two. */
  lemma RollingAverageRows(x: seq<Cell>, i: nat)
    requires i < |x|
    ensures RollingAverage(x).Ok?
    ensures i == 0 ==> RollingAverage(x).value[0] == x[0]
    ensures i > 0 ==> RollingAverage(x).value[i] == Mean2(x[i - 1], x[i])
    ensures i > 0 && x[i - 1].Num? && x[i].Num? ==>
              var m := RollingAverage(x).value[i];
              m == Num((x[i - 1].v + x[i].v) / 2.0)
              && (x[i - 1].v <= m.v <= x[i].v || x[i].v <= m.v <= x[i - 1].v)
  {
  }

  /** The call raises exactly when an averaged ratio's columns exist on a
      balance sheet with no rows, and then with IndexError. */
  lemma EfficiencyRaises(income: Frame, bs: Frame)
    requires WellFormed(income) && WellFormed(bs)
    ensures CalculateEfficiencyRatios(income, bs).Raise? <==>
              |bs.index| == 0
              && ((HasColumn(income, "Total Revenue") && HasColumn(bs, "Total Assets"))
                  || (HasColumn(income, "Cost Of Revenue") && HasColumn(bs, "Inventory"))
                  || (HasColumn(income, "Total Revenue") && HasColumn(bs, "Net Receivables")))
    ensures CalculateEfficiencyRatios(income, bs).Raise? ==> CalculateEfficiencyRatios(income, bs).error == IndexError
  {
  }

  lemma EfficiencyNamesDiffer()
    ensures "Asset Turnover Ratio" != "Inventory Turnover Ratio" && "Asset Turnover Ratio" != "Receivables Turnover Ratio"
    ensures "Asset Turnover Ratio" != "Days Sales Outstanding" && "Inventory Turnover Ratio" != "Receivables Turnover Ratio"
    ensures "Inventory Turnover Ratio" != "Days Sales Outstanding" && "Receivables Turnover Ratio" != "Days Sales Outstanding"
  {
    assert "Asset Turnover Ratio"[0] != "Inventory Turnover Ratio"[0];
    assert "Asset Turnover Ratio"[0] != "Receivables Turnover Ratio"[0];
    assert "Asset Turnover Ratio"[0] != "Days Sales Outstanding"[0];
    assert "Inventory Turnover Ratio"[0] != "Receivables Turnover Ratio"[0];
    assert "Inventory Turnover Ratio"[0] != "Days Sales Outstanding"[0];
    assert "Receivables Turnover Ratio"[0] != "Days Sales Outstanding"[0];
  }

  /** Each column is created exactly when its source columns exist and the
      frames share a date. */
  lemma EfficiencyColumns(income: Frame, bs: Frame)
    requires WellFormed(income) && WellFormed(bs)
    requires CalculateEfficiencyRatios(income, bs).Ok?
    ensures var r := CalculateEfficiencyRatios(income, bs).value;
            (HasColumn(r, "Asset Turnover Ratio") <==>
               HasColumn(income, "Total Revenue") && HasColumn(bs, "Total Assets") && HaveCommonDates(income, bs))
            && (HasColumn(r, "Inventory Turnover Ratio") <==>
                  HasColumn(income, "Cost Of Revenue") && HasColumn(bs, "Inventory") && HaveCommonDates(income, bs))
            && (HasColumn(r, "Receivables Turnover Ratio") <==>
                  HasColumn(income, "Total Revenue") && HasColumn(bs, "Net Receivables") && HaveCommonDates(income, bs))
            && (HasColumn(r, "Days Sales Outstanding") <==>
                  HasColumn(income, "Total Revenue") && HasColumn(bs, "Net Receivables") && HaveCommonDates(income, bs))
  {
    var a := Turnover(income, bs, "Total Revenue", "Total Assets");
    var b := Turnover(income, bs, "Cost Of Revenue", "Inventory");
    var c := Turnover(income, bs, "Total Revenue", "Net Receivables");
    TurnoverPresent(income, bs, "Total Revenue", "Total Assets");
    TurnoverPresent(income, bs, "Cost Of Revenue", "Inventory");
    TurnoverPresent(income, bs, "Total Revenue", "Net Receivables");
    assert CalculateEfficiencyRatios(income, bs).value
           == Assemble(income.index, a.value, b.value, c.value, DaysSalesOutstanding(income, bs));
    AssembleColumns(income.index, a.value, b.value, c.value, DaysSalesOutstanding(income, bs));
  }

  /** Each turnover column, when its sources exist and the frames share a
      date, is its numerator over the averaged balance-sheet column on the
      common dates and NaN elsewhere: revenue over assets, cost of revenue
      over inventory, revenue over receivables. */
  lemma TurnoverStored(income: Frame, bs: Frame)
    requires WellFormed(income) && WellFormed(bs)
    requires CalculateEfficiencyRatios(income, bs).Ok?
    ensures var r := CalculateEfficiencyRatios(income, bs).value;
            HasColumn(income, "Total Revenue") && HasColumn(bs, "Total Assets") && HaveCommonDates(income, bs) ==>
              |bs.index| > 0 && HasColumn(r, "Asset Turnover Ratio")
              && Col(r, "Asset Turnover Ratio")
                 == OnCommonDates(income, bs, Col(income, "Total Revenue"), RollingAverage(Col(bs, "Total Assets")).value)
    ensures var r := CalculateEfficiencyRatios(income, bs).value;
            HasColumn(income, "Cost Of Revenue") && HasColumn(bs, "Inventory") && HaveCommonDates(income, bs) ==>
              |bs.index| > 0 && HasColumn(r, "Inventory Turnover Ratio")
              && Col(r, "Inventory Turnover Ratio")
                 == OnCommonDates(income, bs, Col(income, "Cost Of Revenue"), RollingAverage(Col(bs, "Inventory")).value)
    ensures var r := CalculateEfficiencyRatios(income, bs).value;
            HasColumn(income, "Total Revenue") && HasColumn(bs, "Net Receivables") && HaveCommonDates(income, bs) ==>
              |bs.index| > 0 && HasColumn(r, "Receivables Turnover Ratio")
              && Col(r, "Receivables Turnover Ratio")
                 == OnCommonDates(income, bs, Col(income, "Total Revenue"), RollingAverage(Col(bs, "Net Receivables")).value)
  {
    var a := Turnover(income, bs, "Total Revenue", "Total Assets");
    var b := Turnover(income, bs, "Cost Of Revenue", "Inventory");
    var c := Turnover(income, bs, "Total Revenue", "Net Receivables");
    assert CalculateEfficiencyRatios(income, bs).value
           == Assemble(income.index, a.value, b.value, c.value, DaysSalesOutstanding(income, bs));
    AssembleColumns(income.index, a.value, b.value, c.value, DaysSalesOutstanding(income, bs));
    if HaveCommonDates(income, bs) {
      var i :| 0 <= i < |income.index| && income.index[i] in bs.index;
      assert |bs.index| > 0;
    }
  }

  /** Row by row on the common dates: at the balance sheet's first row the
      divisor is that row's value, at a later row the mean with the row
      before; rows the balance sheet lacks are NaN. */
  lemma OnCommonDatesRows(income: Frame, bs: Frame, num: seq<Cell>, x: seq<Cell>, i: nat)
    requires WellFormed(income) && WellFormed(bs)
    requires |num| == |income.index| && |x| == |bs.index| > 0
    requires i < |income.index|
    ensures var c := OnCommonDates(income, bs, num, RollingAverage(x).value)[i];
            (income.index[i] !in bs.index ==> c == NaN)
            && (income.index[i] in bs.index ==>
                  var j := IndexOf(bs.index, income.index[i]);
                  c == Div(num[i], if j == 0 then x[0] else Mean2(x[j - 1], x[j])))
  {
    if income.index[i] in bs.index {
      RollingAverageRows(x, IndexOf(bs.index, income.index[i]));
    }
  }

  /** DSO on a common date with finite receivables and non-zero revenue is
      receivables / revenue * 365 of that date. */
  lemma DsoRows(income: Frame, bs: Frame, i: nat)
    requires WellFormed(income) && WellFormed(bs)
    requires HasColumn(income, "Total Revenue") && HasColumn(bs, "Net Receivables") && HaveCommonDates(income, bs)
    requires i < |income.index| && income.index[i] in bs.index
    requires Col(bs, "Net Receivables")[IndexOf(bs.index, income.index[i])].Num?
    requires Col(income, "Total Revenue")[i].Num? && Col(income, "Total Revenue")[i].v != 0.0
    ensures var j := IndexOf(bs.index, income.index[i]);
            DaysSalesOutstanding(income, bs).Some?
            && DaysSalesOutstanding(income, bs).value[i]
               == Num(Col(bs, "Net Receivables")[j].v / Col(income, "Total Revenue")[i].v * 365.0)
  {
  }
}
