/** `financial_data_utilis.py`: the look-back rule of the fetch, flattening
    of statements and price rows into date-keyed dicts, and matching each
    statement date to the closest price date. */
module FinancialDataUtilis {
  import opened Py
  import opened Dates
  import opened FinancialDataUtils

  // ---------------------------------------------------------------------
  // The look-back period of fetch_financial_data
  // ---------------------------------------------------------------------

  /** Days between the start and the end of the price download: a period
      "Ny" means 365 * N days, any other period 5 * 365 days; a prefix that
      is not an integer raises ValueError. */
  function LookbackDays(period: string): Outcome<int> {
    if |period| > 0 && period[|period| - 1] == 'y' then
      match ParseInt(period[..|period| - 1])
      case None => Raise(ValueError)
      case Some(years) => Ok(365 * years)
    else Ok(365 * 5)
  }

  /** "Ny" written from an integer N looks back 365 * N days. */
  lemma LookbackOfYears(n: int)
    ensures LookbackDays(IntToString(n) + "y") == Ok(365 * n)
  {
    var p := IntToString(n) + "y";
    assert p[..|p| - 1] == IntToString(n);
    IntStringRoundTrip(n);
  }

  /** A period not ending in 'y' falls back to five years. */
  lemma LookbackDefault(period: string)
    requires |period| == 0 || period[|period| - 1] != 'y'
    ensures LookbackDays(period) == Ok(1825)
  {
  }

  /** "y" alone, or a prefix such as "five", raises. */
  lemma LookbackRejectsNonInteger(period: string)
    requires |period| > 0 && period[|period| - 1] == 'y'
    requires ParseInt(period[..|period| - 1]).None?
    ensures LookbackDays(period) == Raise(ValueError)
  {
  }

  // ---------------------------------------------------------------------
  // process_financial_statement
  // ---------------------------------------------------------------------

  /** The (date key, record) pair of period column `i`. */
  function DatedPeriod(t: ProviderTable, i: nat): (string, Record)
    requires Rectangular(t) && i < |t.periods| && Valid(t.periods[i])
  {
    (Format(t.periods[i]), PeriodRecord(t, i))
  }

  predicate ValidPeriods(t: ProviderTable) {
    forall i :: 0 <= i < |t.periods| ==> Valid(t.periods[i])
  }

  function DatedPeriods(t: ProviderTable): seq<(string, Record)>
    requires Rectangular(t) && ValidPeriods(t)
  {
    seq(|t.periods|, i requires 0 <= i < |t.periods| => DatedPeriod(t, i))
  }

  /** `process_financial_statement`: {} for a missing or empty statement;
      otherwise, period by period, `result[date.strftime("%Y-%m-%d")] = row`
      with NaN made None. */
  method ProcessFinancialStatement(statement: Option<ProviderTable>) returns (result: Statement)
    requires statement.Some? ==> Rectangular(statement.value) && ValidPeriods(statement.value)
    ensures statement.None? || IsEmpty(statement.value) ==> result.keys == []
    ensures statement.Some? && !IsEmpty(statement.value) ==> result == AssignAll(EmptyDict(), DatedPeriods(statement.value))
  {
    if statement.None? || IsEmpty(statement.value) {
      return EmptyDict();
    }
    result := FillDict(DatedPeriods(statement.value));
  }

  /** With distinct period dates of years 1000 to 9999, the processed
      statement has one entry per period, keyed "YYYY-MM-DD" in column
      order, holding that period's cleaned column. */
  lemma ProcessedStatementShape(t: ProviderTable)
    requires Rectangular(t) && ValidPeriods(t) && Distinct(t.periods)
    requires forall i :: 0 <= i < |t.periods| ==> t.periods[i].year >= 1000
    ensures var st := AssignAll(EmptyDict(), DatedPeriods(t));
            |st.keys| == |t.periods|
            && (forall i :: 0 <= i < |t.periods| ==> st.keys[i] == Format(t.periods[i]))
            && (forall i :: 0 <= i < |t.periods| ==> st.items[Format(t.periods[i])] == PeriodRecord(t, i))
  {
    var pairs := DatedPeriods(t);
    forall i, j | 0 <= i < j < |pairs| ensures pairs[i].0 != pairs[j].0 {
      FormattedDatesDiffer(t.periods[i], t.periods[j]);
    }
    AssignAllDistinctPairs(pairs);
    forall i | 0 <= i < |t.periods|
      ensures pairs[i].0 == Format(t.periods[i]) && pairs[i].1 == PeriodRecord(t, i)
    {
      assert pairs[i] == DatedPeriod(t, i);
    }
  }

  lemma FormattedDatesDiffer(a: Date, b: Date)
    requires Valid(a) && Valid(b) && a.year >= 1000 && b.year >= 1000 && a != b
    ensures Format(a) != Format(b)
  {
    if Format(a) == Format(b) {
      FormatInjective(a, b);
    }
  }

  // ---------------------------------------------------------------------
  // process_stock_data
  // ---------------------------------------------------------------------

  /** A downloaded price table: one row per trading date, one column per
      field. */
  datatype StockTable = StockTable(dates: seq<Date>, cols: map<string, seq<Reading>>)

  predicate StockRectangular(t: StockTable) {
    forall name :: name in t.cols ==> |t.cols[name]| == |t.dates|
  }

  /** `stock_data.empty`. */
  predicate StockEmpty(t: StockTable) {
    |t.dates| == 0 || |t.cols| == 0
  }

  /** The columns every processed row reads. */
  predicate HasPriceColumns(t: StockTable) {
    "Open" in t.cols && "High" in t.cols && "Low" in t.cols && "Close" in t.cols && "Volume" in t.cols
  }

  /** Row `i` as `{Open, High, Low, Close, Adj Close, Volume}` with NaN made
      None; Adj Close falls back to Close when the table has no such column. */
  function StockRecord(t: StockTable, i: nat): Record
    requires StockRectangular(t) && HasPriceColumns(t) && i < |t.dates|
  {
    var adj := if "Adj Close" in t.cols then t.cols["Adj Close"][i] else t.cols["Close"][i];
    map[
      "Open" := Cleaned(t.cols["Open"][i]),
      "High" := Cleaned(t.cols["High"][i]),
      "Low" := Cleaned(t.cols["Low"][i]),
      "Close" := Cleaned(t.cols["Close"][i]),
      "Adj Close" := Cleaned(adj),
      "Volume" := Cleaned(t.cols["Volume"][i])]
  }

  /** A processed row has exactly the six price fields, each the row's
      value with NaN made None, Adj Close standing in for Close when absent. */
  lemma StockRecordFields(t: StockTable, i: nat)
    requires StockRectangular(t) && HasPriceColumns(t) && i < |t.dates|
    ensures forall k :: k in StockRecord(t, i) <==> k in ["Open", "High", "Low", "Close", "Adj Close", "Volume"]
    ensures StockRecord(t, i)["Close"] == Cleaned(t.cols["Close"][i])
    ensures "Adj Close" !in t.cols ==> StockRecord(t, i)["Adj Close"] == StockRecord(t, i)["Close"]
    ensures "Adj Close" in t.cols ==> StockRecord(t, i)["Adj Close"] == Cleaned(t.cols["Adj Close"][i])
    ensures forall k :: k in StockRecord(t, i) && StockRecord(t, i)[k].None? ==>
              (k == "Adj Close" && "Adj Close" in t.cols && t.cols["Adj Close"][i] == Blank)
              || (k != "Adj Close" && t.cols[k][i] == Blank)
              || (k == "Adj Close" && "Adj Close" !in t.cols && t.cols["Close"][i] == Blank)
  {
  }

  function StockPairs(t: StockTable): seq<(string, Record)>
    requires StockRectangular(t) && HasPriceColumns(t) && forall i :: 0 <= i < |t.dates| ==> Valid(t.dates[i])
  {
    seq(|t.dates|, i requires 0 <= i < |t.dates| => (Format(t.dates[i]), StockRecord(t, i)))
  }

  /** `process_stock_data`: {} for a missing or empty table; otherwise one
      entry per row keyed by its formatted date. A missing price column
      raises KeyError at the first row. */
  method ProcessStockData(stock: Option<StockTable>) returns (r: Outcome<Dict<string, Record>>)
    requires stock.Some? ==> StockRectangular(stock.value) && forall i :: 0 <= i < |stock.value.dates| ==> Valid(stock.value.dates[i])
    ensures stock.None? || StockEmpty(stock.value) ==> r == Ok(EmptyDict())
    ensures r.Raise? <==> stock.Some? && !StockEmpty(stock.value) && !HasPriceColumns(stock.value)
    ensures r.Raise? ==> r.error == KeyError
    ensures r.Ok? && stock.Some? && !StockEmpty(stock.value) ==>
              HasPriceColumns(stock.value) && r.value == AssignAll(EmptyDict(), StockPairs(stock.value))
  {
    if stock.None? || StockEmpty(stock.value) {
      return Ok(EmptyDict());
    }
    var t := stock.value;
    if !HasPriceColumns(t) {
      return Raise(KeyError);
    }
    var result := FillDict(StockPairs(t));
    return Ok(result);
  }

  // ---------------------------------------------------------------------
  // get_annual_stock_prices
  // ---------------------------------------------------------------------

  /** `min(dates, key=lambda d: abs(d - target))`: the first date at the
      smallest distance. */
  function ClosestIndex(dates: seq<Date>, target: Date): (i: nat)
    requires |dates| > 0 && Valid(target)
    requires forall j :: 0 <= j < |dates| ==> Valid(dates[j])
    ensures i < |dates|
    ensures forall j :: 0 <= j < |dates| ==> Distance(dates[i], target) <= Distance(dates[j], target)
    ensures forall j :: 0 <= j < i ==> Distance(dates[j], target) > Distance(dates[i], target)
    decreases |dates|
  {
    if |dates| == 1 then 0
    else
      var init := dates[..|dates| - 1];
      assert forall j :: 0 <= j < |init| ==> init[j] == dates[j];
      var k := ClosestIndex(init, target);
      var last := |dates| - 1;
      if Distance(dates[last], target) < Distance(dates[k], target) then last else k
  }

  /** `[datetime.strptime(d, "%Y-%m-%d") for d in keys]`, None as soon as
      one key does not parse. */
  function ParseAll(keys: seq<string>): (r: Option<seq<Date>>)
    ensures r.Some? ==> |r.value| == |keys| && forall j :: 0 <= j < |keys| ==> Parse(keys[j]) == Some(r.value[j])
    ensures r.None? ==> exists j :: 0 <= j < |keys| && Parse(keys[j]).None?
    decreases |keys|
  {
    if |keys| == 0 then Some([])
    else
      match (ParseAll(keys[..|keys| - 1]), Parse(keys[|keys| - 1]))
      case (Some(ds), Some(d)) => Some(ds + [d])
      case _ => None
  }

  /** Every parsed date is a real calendar date. */
  lemma ParsedDatesValid(s: string)
    requires Parse(s).Some?
    ensures Valid(Parse(s).value)
  {
  }

  /** One iteration of `get_annual_stock_prices` for statement date `fin`:
      the Close of the stock row at the closest date, or the exception the
      lookup raises. */
  function ClosestClose(stock: Dict<string, Record>, fin: string): Outcome<Option<real>> {
    match Parse(fin)
    case None => Raise(ValueError)
    case Some(target) =>
      match ParseAll(stock.keys)
      case None => Raise(ValueError)
      case Some(dates) =>
        if |dates| == 0 then Raise(ValueError)
        else
          var key := Format(dates[ClosestIndex(dates, target)]);
          if key !in stock.items || "Close" !in stock.items[key] then Raise(KeyError)
          else Ok(stock.items[key]["Close"])
  }

  /** When every stock key is written "%Y-%m-%d" with a four-digit year and
      its row has a Close, the lookup succeeds and reads the row that
      `ClosestIndex` picks: the first at the smallest distance from the
      statement date, before or after it. */
  lemma ClosestCloseReadsNearestRow(stock: Dict<string, Record>, fin: string) returns (dates: seq<Date>)
    requires Parse(fin).Some? && |stock.keys| > 0
    requires forall k :: k in stock.items ==> |k| == 10 && k[0] != '0' && Parse(k).Some? && "Close" in stock.items[k]
    ensures |dates| == |stock.keys| && forall j :: 0 <= j < |stock.keys| ==> Parse(stock.keys[j]) == Some(dates[j]) && Valid(dates[j])
    ensures ClosestClose(stock, fin) == Ok(stock.items[stock.keys[ClosestIndex(dates, Parse(fin).value)]]["Close"])
  {
    dates := ParsedKeys(stock);
    var i := ClosestIndex(dates, Parse(fin).value);
    var key := stock.keys[i];
    assert key in stock.items;
    FormatParse(key);
    assert Format(dates[i]) == key;
  }

  /** Every key of a stock dict whose keys all parse gives its date. */
  lemma ParsedKeys(stock: Dict<string, Record>) returns (dates: seq<Date>)
    requires forall k :: k in stock.items ==> Parse(k).Some?
    ensures ParseAll(stock.keys) == Some(dates)
    ensures |dates| == |stock.keys|
    ensures forall j :: 0 <= j < |stock.keys| ==> Parse(stock.keys[j]) == Some(dates[j]) && Valid(dates[j])
  {
    forall j | 0 <= j < |stock.keys| ensures Parse(stock.keys[j]).Some? {
      assert stock.keys[j] in stock.items;
    }
    dates := ParseAll(stock.keys).value;
  }

  /** Empty stock data makes `min` raise ValueError for every date. */
  lemma ClosestCloseOfNoPrices(stock: Dict<string, Record>, fin: string)
    requires |stock.keys| == 0
    ensures ClosestClose(stock, fin) == Raise(ValueError)
  {
  }

  /** `get_annual_stock_prices`: for each statement date, in order, the
      Close of the closest stock row; the first date whose lookup raises
      ends the call with that exception. */
  method GetAnnualStockPrices(stock: Dict<string, Record>, financialDates: seq<string>)
    returns (r: Outcome<Dict<string, Option<real>>>)
    ensures r.Raise? <==> exists i :: 0 <= i < |financialDates| && ClosestClose(stock, financialDates[i]).Raise?
    ensures r.Raise? ==> exists i :: 0 <= i < |financialDates| && ClosestClose(stock, financialDates[i]) == Raise(r.error)
                                    && forall j :: 0 <= j < i ==> ClosestClose(stock, financialDates[j]).Ok?
    ensures r.Ok? ==> forall d :: d in r.value.items <==> d in financialDates
    ensures r.Ok? ==> forall d :: d in r.value.items ==> ClosestClose(stock, d) == Ok(r.value.items[d])
    ensures r.Ok? && Distinct(financialDates) ==> r.value.keys == financialDates
  {
    r := MapChecked(financialDates, fin => ClosestClose(stock, fin));
  }
}
