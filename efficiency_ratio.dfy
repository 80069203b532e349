/** `efficiency_ratio.py`: per-year turnover ratios that average a
    balance-sheet item over a year and the year before it. */
module EfficiencyRatio {
  import opened Py
  import opened YearlyTables

  /** `str(int(y) - 1)`: the key of the year before `y`, None where `int`
      raises ValueError. */
  function PrevYearKey(y: string): Option<string> {
    match ParseInt(y)
    case None => None
    case Some(n) => Some(IntToString(n - 1))
  }

  /** The previous key of a year written by `str` is that of the calendar
      year before. */
  lemma PrevYearKeyIsCalendarPredecessor(n: int)
    ensures PrevYearKey(IntToString(n)) == Some(IntToString(n - 1))
  {
    IntStringRoundTrip(n);
  }

  /** `x or 0` for a number that may be None. */
  function OrZero(x: Option<real>): real {
    if x.Some? then x.value else 0.0
  }

  class EfficiencyRatios {
    const income: Statement
    const balance: Statement

    constructor (data: Data)
      ensures income == GetOr(data.incomeStatement, EmptyDict())
      ensures balance == GetOr(data.balanceSheet, EmptyDict())
    {
      income := GetOr(data.incomeStatement, EmptyDict());
      balance := GetOr(data.balanceSheet, EmptyDict());
    }

    /** `(x_Y + x_{Y-1}) / 2` for balance-sheet item `name`, when the key
        is an integer and both years report the item. */
    function Average(name: string, y: string): Option<real> {
      match PrevYearKey(y)
      case None => None
      case Some(p) =>
        if Line(balance, y, name).Some? && Line(balance, p, name).Some?
        then Some((Line(balance, y, name).value + Line(balance, p, name).value) / 2.0)
        else None
    }

    /** One year of the asset or receivables loop: ValueError for a key that
        is not an integer, ZeroDivisionError for a zero average. */
    function TurnoverAt(name: string, y: string): Outcome<Option<real>> {
      if PrevYearKey(y).None? then Raise(ValueError)
      else if Line(income, y, "Total Revenue").Some? && Average(name, y).Some? then
        if Average(name, y).value == 0.0 then Raise(ZeroDivisionError)
        else Ok(Some(Line(income, y, "Total Revenue").value / Average(name, y).value))
      else Ok(None)
    }

    /** Revenue over the two-year average of balance-sheet item `name`. */
    method Turnover(name: string) returns (r: Outcome<Table>)
      ensures r.Raise? <==> (exists y :: y in income.items && TurnoverAt(name, y).Raise?)
      ensures r.Raise? ==> exists i :: 0 <= i < |income.keys| && TurnoverAt(name, income.keys[i]) == Raise(r.error)
                                      && forall j :: 0 <= j < i ==> TurnoverAt(name, income.keys[j]).Ok?
      ensures r.Ok? ==> forall y :: y in r.value.items <==>
        y in income.items && Line(income, y, "Total Revenue").Some? && Average(name, y).Some?
      ensures r.Ok? ==> forall y :: y in r.value.items ==>
        Line(income, y, "Total Revenue").Some? && Average(name, y).Some? && Average(name, y).value != 0.0
        && r.value.items[y] == Line(income, y, "Total Revenue").value / Average(name, y).value
      ensures r.Ok? ==> Subsequence(r.value.keys, income.keys)
    {
      r := TabulateChecked(income.keys, y => TurnoverAt(name, y));
      if r.Raise? {
        var i :| 0 <= i < |income.keys| && TurnoverAt(name, income.keys[i]) == Raise(r.error);
      } else {
        forall y | y in income.items ensures TurnoverAt(name, y).Ok? {
          var i := IndexOf(income.keys, y);
        }
      }
    }

    /** Asset turnover = Total Revenue / average Total Assets of the year and
        the year before; no entry without the previous year. */
    method AssetTurnoverRatio() returns (r: Outcome<Table>)
      ensures r.Raise? <==> (exists y :: y in income.items && TurnoverAt("Total Assets", y).Raise?)
      ensures r.Raise? ==> exists i :: 0 <= i < |income.keys| && TurnoverAt("Total Assets", income.keys[i]) == Raise(r.error)
                                      && forall j :: 0 <= j < i ==> TurnoverAt("Total Assets", income.keys[j]).Ok?
      ensures r.Ok? ==> forall y :: y in r.value.items <==>
        y in income.items && Line(income, y, "Total Revenue").Some? && Average("Total Assets", y).Some?
      ensures r.Ok? ==> forall y :: y in r.value.items ==>
        Line(income, y, "Total Revenue").Some? && Average("Total Assets", y).Some?
        && r.value.items[y] == Line(income, y, "Total Revenue").value / Average("Total Assets", y).value
      ensures r.Ok? ==> Subsequence(r.value.keys, income.keys)
    {
      r := Turnover("Total Assets");
    }

    /** Receivables turnover = Total Revenue / average Accounts Receivable. */
    method ReceivablesTurnoverRatio() returns (r: Outcome<Table>)
      ensures r.Raise? <==> (exists y :: y in income.items && TurnoverAt("Accounts Receivable", y).Raise?)
      ensures r.Raise? ==> exists i :: 0 <= i < |income.keys| && TurnoverAt("Accounts Receivable", income.keys[i]) == Raise(r.error)
                                      && forall j :: 0 <= j < i ==> TurnoverAt("Accounts Receivable", income.keys[j]).Ok?
      ensures r.Ok? ==> forall y :: y in r.value.items <==>
        y in income.items && Line(income, y, "Total Revenue").Some? && Average("Accounts Receivable", y).Some?
      ensures r.Ok? ==> forall y :: y in r.value.items ==>
        Line(income, y, "Total Revenue").Some? && Average("Accounts Receivable", y).Some?
        && r.value.items[y] == Line(income, y, "Total Revenue").value / Average("Accounts Receivable", y).value
      ensures r.Ok? ==> Subsequence(r.value.keys, income.keys)
    {
      r := Turnover("Accounts Receivable");
    }

    /** Inventory + Other Inventories of one year, each None or missing
        counting as 0. */
    function InventorySum(y: string): real {
      OrZero(Line(balance, y, "Inventory")) + OrZero(Line(balance, y, "Other Inventories"))
    }

    /** One year of the inventory loop; both yearly sums must be positive,
        so it never divides by zero. */
    function InventoryTurnoverAt(y: string): Outcome<Option<real>> {
      match PrevYearKey(y)
      case None => Raise(ValueError)
      case Some(p) =>
        if Line(income, y, "Cost Of Revenue").Some? && InventorySum(y) > 0.0 && InventorySum(p) > 0.0
        then Ok(Some(Line(income, y, "Cost Of Revenue").value / ((InventorySum(y) + InventorySum(p)) / 2.0)))
        else Ok(None)
    }

    /** Inventory turnover = Cost Of Revenue / average yearly inventory. The
        only error is a year key that is not an integer. */
    method InventoryTurnoverRatio() returns (r: Outcome<Table>)
      ensures r.Raise? <==> (exists y :: y in income.items && PrevYearKey(y).None?)
      ensures r.Raise? ==> r.error == ValueError
      ensures r.Ok? ==> forall y :: y in r.value.items <==>
        y in income.items && Line(income, y, "Cost Of Revenue").Some?
        && InventorySum(y) > 0.0 && InventorySum(PrevYearKey(y).value) > 0.0
      ensures r.Ok? ==> forall y :: y in r.value.items ==>
        Line(income, y, "Cost Of Revenue").Some? && PrevYearKey(y).Some?
        && r.value.items[y] == Line(income, y, "Cost Of Revenue").value
                               / ((InventorySum(y) + InventorySum(PrevYearKey(y).value)) / 2.0)
      ensures r.Ok? ==> Subsequence(r.value.keys, income.keys)
    {
      r := TabulateChecked(income.keys, InventoryTurnoverAt);
      if r.Raise? {
        var i :| 0 <= i < |income.keys| && InventoryTurnoverAt(income.keys[i]) == Raise(r.error);
      } else {
        forall y | y in income.items ensures PrevYearKey(y).Some? {
          var i := IndexOf(income.keys, y);
        }
      }
    }
  }
}
