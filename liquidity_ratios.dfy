/** `liquidity_ratios.py`: liquidity ratios as columns over the balance
    sheet's own rows, and the latest Cash Ratio of a company and its
    benchmarks. */
module LiquidityRatios {
  import opened Py
  import opened Cells

  const CurrentAssets := "Total Current Assets"
  const CurrentLiabilities := "Total Current Liabilities"
  const InventoryLine := "Inventory"
  const CashLine := "Cash And Cash Equivalents"

  /** `calculate_liquidity_ratios`: a frame on the balance sheet's index
      with a Current, Quick and Cash Ratio column, each added only when the
      balance-sheet columns it divides exist. */
  function CalculateLiquidityRatios(bs: Frame): (r: Frame)
    requires WellFormed(bs)
    ensures r.index == bs.index && WellFormed(r)
  {
    var r0 := EmptyFrame(bs.index);
    var r1 := if HasColumn(bs, CurrentAssets) && HasColumn(bs, CurrentLiabilities)
              then SetColumn(r0, "Current Ratio", ColDiv(Col(bs, CurrentAssets), Col(bs, CurrentLiabilities)))
              else r0;
    var r2 := if HasColumn(bs, CurrentAssets) && HasColumn(bs, InventoryLine) && HasColumn(bs, CurrentLiabilities)
              then SetColumn(r1, "Quick Ratio",
                             ColDiv(ColSub(Col(bs, CurrentAssets), Col(bs, InventoryLine)), Col(bs, CurrentLiabilities)))
              else r1;
    if HasColumn(bs, CashLine) && HasColumn(bs, CurrentLiabilities)
    then SetColumn(r2, "Cash Ratio", ColDiv(Col(bs, CashLine), Col(bs, CurrentLiabilities)))
    else r2
  }

  /** Which columns the result has: exactly the ratios whose source
      columns exist, and nothing else. */
  lemma LiquidityColumns(bs: Frame)
    requires WellFormed(bs)
    ensures var r := CalculateLiquidityRatios(bs);
            (HasColumn(r, "Current Ratio") <==> HasColumn(bs, CurrentAssets) && HasColumn(bs, CurrentLiabilities))
            && (HasColumn(r, "Quick Ratio") <==>
                  HasColumn(bs, CurrentAssets) && HasColumn(bs, InventoryLine) && HasColumn(bs, CurrentLiabilities))
            && (HasColumn(r, "Cash Ratio") <==> HasColumn(bs, CashLine) && HasColumn(bs, CurrentLiabilities))
            && (forall name :: HasColumn(r, name) ==> name in ["Current Ratio", "Quick Ratio", "Cash Ratio"])
  {
    assert "Current Ratio" != "Quick Ratio" && "Current Ratio" != "Cash Ratio" && "Quick Ratio" != "Cash Ratio" by {
      assert "Current Ratio"[0] != "Quick Ratio"[0] && "Quick Ratio"[0] != "Cash Ratio"[0];
      assert "Current Ratio"[1] != "Cash Ratio"[1];
    }
  }

  /** Row by row: the Quick Ratio is (current assets - inventory) over
      current liabilities, and where all three are finite with non-zero
      liabilities it is that real quotient. */
  lemma QuickRatioRows(bs: Frame, i: nat)
    requires WellFormed(bs)
    requires HasColumn(bs, CurrentAssets) && HasColumn(bs, InventoryLine) && HasColumn(bs, CurrentLiabilities)
    requires i < |bs.index|
    requires Col(bs, CurrentAssets)[i].Num? && Col(bs, InventoryLine)[i].Num?
    requires Col(bs, CurrentLiabilities)[i].Num? && Col(bs, CurrentLiabilities)[i].v != 0.0
    ensures var r := CalculateLiquidityRatios(bs);
            HasColumn(r, "Quick Ratio")
            && Col(r, "Quick Ratio")[i]
               == Num((Col(bs, CurrentAssets)[i].v - Col(bs, InventoryLine)[i].v) / Col(bs, CurrentLiabilities)[i].v)
  {
    LiquidityColumns(bs);
    var r := CalculateLiquidityRatios(bs);
    var quick := ColDiv(ColSub(Col(bs, CurrentAssets), Col(bs, InventoryLine)), Col(bs, CurrentLiabilities));
    assert "Quick Ratio" != "Cash Ratio" by {
      assert "Quick Ratio"[0] != "Cash Ratio"[0];
    }
    assert Col(r, "Quick Ratio") == quick;
  }

  /** Row by row: the Current Ratio is current assets over current
      liabilities, the real quotient where both are finite and the
      liabilities non-zero. */
  lemma CurrentRatioRows(bs: Frame, i: nat)
    requires WellFormed(bs)
    requires HasColumn(bs, CurrentAssets) && HasColumn(bs, CurrentLiabilities)
    requires i < |bs.index|
    requires Col(bs, CurrentAssets)[i].Num?
    requires Col(bs, CurrentLiabilities)[i].Num? && Col(bs, CurrentLiabilities)[i].v != 0.0
    ensures var r := CalculateLiquidityRatios(bs);
            HasColumn(r, "Current Ratio")
            && Col(r, "Current Ratio")[i] == Num(Col(bs, CurrentAssets)[i].v / Col(bs, CurrentLiabilities)[i].v)
  {
    LiquidityColumns(bs);
    var r := CalculateLiquidityRatios(bs);
    var current := ColDiv(Col(bs, CurrentAssets), Col(bs, CurrentLiabilities));
    assert "Current Ratio" != "Quick Ratio" && "Current Ratio" != "Cash Ratio" by {
      assert "Current Ratio"[0] != "Quick Ratio"[0] && "Current Ratio"[1] != "Cash Ratio"[1];
    }
    assert Col(r, "Current Ratio") == current;
  }

  /** Row by row: the Cash Ratio is cash and equivalents over current
      liabilities, the real quotient where both are finite and the
      liabilities non-zero. */
  lemma CashRatioRows(bs: Frame, i: nat)
    requires WellFormed(bs)
    requires HasColumn(bs, CashLine) && HasColumn(bs, CurrentLiabilities)
    requires i < |bs.index|
    requires Col(bs, CashLine)[i].Num?
    requires Col(bs, CurrentLiabilities)[i].Num? && Col(bs, CurrentLiabilities)[i].v != 0.0
    ensures var r := CalculateLiquidityRatios(bs);
            HasColumn(r, "Cash Ratio")
            && Col(r, "Cash Ratio")[i] == Num(Col(bs, CashLine)[i].v / Col(bs, CurrentLiabilities)[i].v)
  {
    var r := CalculateLiquidityRatios(bs);
    var cash := ColDiv(Col(bs, CashLine), Col(bs, CurrentLiabilities));
    assert Col(r, "Cash Ratio") == cash;
  }

  /** `series.iloc[-1]` of a column when the frame has it: IndexError on
      a column with no rows. */
  function LastOf(f: Frame, ratio: string): Option<Outcome<Cell>> {
    if !HasColumn(f, ratio) then None
    else if |Col(f, ratio)| == 0 then Some(Raise(IndexError))
    else Some(Ok(Col(f, ratio)[|Col(f, ratio)| - 1]))
  }

  /** The dict after the company's block: its last Cash Ratio under
      "Company" when it has the column, nothing when it does not, and
      IndexError for a column with no rows. */
  function CompanyEntry(company: Frame): (r: Outcome<Dict<string, Cell>>)
    ensures r.Raise? <==> LastOf(company, "Cash Ratio") == Some(Raise(IndexError))
    ensures r.Raise? ==> r.error == IndexError
    ensures r.Ok? ==> r.value.keys == CompanyKeys(company)
    ensures r.Ok? && HasColumn(company, "Cash Ratio") ==> LastOf(company, "Cash Ratio") == Some(Ok(r.value.items["Company"]))
  {
    match LastOf(company, "Cash Ratio")
    case None => Ok(EmptyDict())
    case Some(Raise(e)) => Raise(e)
    case Some(Ok(v)) => Ok(Assign(EmptyDict(), "Company", v))
  }

  /** The benchmark loop's cell for a name: the benchmark's last Cash
      Ratio, or nothing for a name that is not a benchmark. */
  function BenchmarkLast(benchmarks: Dict<string, Frame>): string -> Option<Outcome<Cell>> {
    name => if name in benchmarks.items then LastOf(benchmarks.items[name], "Cash Ratio") else None
  }

  /** Some key of the loop raises exactly when some benchmark's Cash Ratio
      column has no rows. */
  lemma BenchmarkLastRaises(benchmarks: Dict<string, Frame>)
    ensures (exists i :: 0 <= i < |benchmarks.keys| && BenchmarkLast(benchmarks)(benchmarks.keys[i]).Some?
                         && BenchmarkLast(benchmarks)(benchmarks.keys[i]).value.Raise?)
            <==> exists name :: name in benchmarks.items && LastOf(benchmarks.items[name], "Cash Ratio") == Some(Raise(IndexError))
    ensures forall e :: (exists i :: 0 <= i < |benchmarks.keys| && BenchmarkLast(benchmarks)(benchmarks.keys[i]) == Some(Raise(e)))
                        ==> e == IndexError
  {
    var f := BenchmarkLast(benchmarks);
    forall name | name in benchmarks.items && LastOf(benchmarks.items[name], "Cash Ratio") == Some(Raise(IndexError))
      ensures exists i :: 0 <= i < |benchmarks.keys| && f(benchmarks.keys[i]).Some? && f(benchmarks.keys[i]).value.Raise?
    {
      var i := IndexOf(benchmarks.keys, name);
      assert f(benchmarks.keys[i]) == LastOf(benchmarks.items[name], "Cash Ratio");
    }
  }

  /** The key the company's block adds: "Company" when the company has a
      Cash Ratio column. */
  function CompanyKeys(company: Frame): seq<string> {
    if HasColumn(company, "Cash Ratio") then ["Company"] else []
  }

  /** `display_single_numbers`: the company's last Cash Ratio under
      "Company" when it has the column, then the last Cash Ratio of every
      benchmark that has the column, in the benchmarks' order. */
  method DisplaySingleNumbers(company: Frame, benchmarks: Dict<string, Frame>) returns (r: Outcome<Dict<string, Cell>>)
    ensures r.Raise? <==> LastOf(company, "Cash Ratio") == Some(Raise(IndexError))
                          || exists name :: name in benchmarks.items && LastOf(benchmarks.items[name], "Cash Ratio") == Some(Raise(IndexError))
    ensures r.Raise? ==> r.error == IndexError
    ensures r.Ok? ==> forall name :: name in r.value.items <==>
                        (name == "Company" && HasColumn(company, "Cash Ratio"))
                        || (name in benchmarks.items && HasColumn(benchmarks.items[name], "Cash Ratio"))
    ensures r.Ok? ==> forall name :: name in benchmarks.items && HasColumn(benchmarks.items[name], "Cash Ratio") ==>
                        LastOf(benchmarks.items[name], "Cash Ratio") == Some(Ok(r.value.items[name]))
    ensures r.Ok? && HasColumn(company, "Cash Ratio")
            && !("Company" in benchmarks.items && HasColumn(benchmarks.items["Company"], "Cash Ratio")) ==>
              LastOf(company, "Cash Ratio") == Some(Ok(r.value.items["Company"]))
    ensures r.Ok? ==> Subsequence(r.value.keys, CompanyKeys(company) + benchmarks.keys)
  {
    var start := CompanyEntry(company);
    if start.Raise? {
      return Raise(start.error);
    }
    var latest := start.value;
    r := UpdateChecked(latest, benchmarks.keys, BenchmarkLast(benchmarks));
    BenchmarkLastRaises(benchmarks);
  }
}
