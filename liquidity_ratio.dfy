/** `liquidity_ratio.py`: per-year liquidity ratios over a year-keyed
    balance sheet. */
module LiquidityRatio {
  import opened Py
  import opened YearlyTables

  class LiquidityRatios {
    const balance: Statement

    constructor (data: Data)
      ensures balance == GetOr(data.balanceSheet, EmptyDict())
    {
      balance := GetOr(data.balanceSheet, EmptyDict());
    }

    /** Current ratio = Current Assets / Current Liabilities. */
    method CurrentRatio() returns (r: Table)
      ensures forall y :: y in r.items <==>
        y in balance.items && Line(balance, y, "Current Assets").Some? && Truthy(Line(balance, y, "Current Liabilities"))
      ensures forall y :: y in r.items ==>
        Line(balance, y, "Current Assets").Some? && Truthy(Line(balance, y, "Current Liabilities"))
        && r.items[y] == Line(balance, y, "Current Assets").value / Line(balance, y, "Current Liabilities").value
      ensures Subsequence(r.keys, balance.keys)
    {
      if |balance.keys| == 0 {
        return EmptyDict();
      }
      r := Tabulate(balance.keys, y => Ratio(Line(balance, y, "Current Assets"), Line(balance, y, "Current Liabilities")));
    }

    /** `record.get("Inventory", 0)`: 0 only when the item is absent; an item
        present with value None stays None. */
    function Inventory(y: string): Option<real> {
      if y in balance.items && "Inventory" in balance.items[y] then balance.items[y]["Inventory"] else Some(0.0)
    }

    /** One year of the quick-ratio loop: subtracting a None inventory raises
        TypeError. */
    function QuickRatioAt(y: string): Outcome<Option<real>> {
      var assets := Line(balance, y, "Current Assets");
      var liabilities := Line(balance, y, "Current Liabilities");
      if assets.Some? && Truthy(liabilities) then
        if Inventory(y).None? then Raise(TypeError)
        else Ok(Some((assets.value - Inventory(y).value) / liabilities.value))
      else Ok(None)
    }

    /** Quick ratio = (Current Assets - Inventory) / Current Liabilities, an
        absent Inventory counting as 0. */
    method QuickRatio() returns (r: Outcome<Table>)
      ensures r.Raise? ==> r.error == TypeError
      ensures r.Raise? <==> (exists y :: y in balance.items
                                && Line(balance, y, "Current Assets").Some? && Truthy(Line(balance, y, "Current Liabilities"))
                                && "Inventory" in balance.items[y] && balance.items[y]["Inventory"].None?)
      ensures r.Ok? ==> forall y :: y in r.value.items <==>
        y in balance.items && Line(balance, y, "Current Assets").Some? && Truthy(Line(balance, y, "Current Liabilities"))
      ensures r.Ok? ==> forall y :: y in r.value.items ==>
        Line(balance, y, "Current Assets").Some? && Truthy(Line(balance, y, "Current Liabilities")) && Inventory(y).Some?
        && r.value.items[y] == (Line(balance, y, "Current Assets").value - Inventory(y).value) / Line(balance, y, "Current Liabilities").value
      ensures r.Ok? ==> Subsequence(r.value.keys, balance.keys)
    {
      if |balance.keys| == 0 {
        return Ok(EmptyDict());
      }
      r := TabulateChecked(balance.keys, QuickRatioAt);
      if r.Raise? {
        var i :| 0 <= i < |balance.keys| && QuickRatioAt(balance.keys[i]) == Raise(r.error);
      }
    }

    /** Cash ratio = Cash And Cash Equivalents / Current Liabilities; an
        empty balance sheet gives None rather than an empty table. */
    method CashRatio() returns (r: Option<Table>)
      ensures r.None? <==> |balance.keys| == 0
      ensures r.Some? ==> forall y :: y in r.value.items <==>
        y in balance.items && Line(balance, y, "Cash And Cash Equivalents").Some? && Truthy(Line(balance, y, "Current Liabilities"))
      ensures r.Some? ==> forall y :: y in r.value.items ==>
        Line(balance, y, "Cash And Cash Equivalents").Some? && Truthy(Line(balance, y, "Current Liabilities"))
        && r.value.items[y] == Line(balance, y, "Cash And Cash Equivalents").value / Line(balance, y, "Current Liabilities").value
      ensures r.Some? ==> Subsequence(r.value.keys, balance.keys)
    {
      if |balance.keys| == 0 {
        return None;
      }
      var t := Tabulate(balance.keys, y => Ratio(Line(balance, y, "Cash And Cash Equivalents"), Line(balance, y, "Current Liabilities")));
      return Some(t);
    }
  }
}
