/** `financial_data_utils.py`: reshaping what the market-data provider
    returns into the year-keyed dicts the per-year calculators read, and
    the yearly price table. The provider itself is not modelled: the table
    it returns is an input. */
module FinancialDataUtils {
  import opened Py
  import opened Dates

  /** A provider cell: a reported number or a blank (NaN). */
  datatype Reading = Reported(amount: real) | Blank

  /** A provider statement table: one column per period end, newest first,
      and one row per line item. */
  datatype ProviderTable = ProviderTable(periods: seq<Date>, rows: map<string, seq<Reading>>)

  /** Every row has one cell per period. */
  predicate Rectangular(t: ProviderTable) {
    forall name :: name in t.rows ==> |t.rows[name]| == |t.periods|
  }

  /** `statement.empty`: no period columns or no line-item rows. */
  predicate IsEmpty(t: ProviderTable) {
    |t.periods| == 0 || |t.rows| == 0
  }

  /** `value if notna(value) else None`. */
  function Cleaned(r: Reading): Option<real> {
    match r
    case Reported(x) => Some(x)
    case Blank => None
  }

  /** `str(date.year)`: the key a period column is renamed to. */
  function YearKey(d: Date): string {
    IntToString(d.year)
  }

  /** Column `i` as a record: line item to cleaned value. */
  function PeriodRecord(t: ProviderTable, i: nat): Record
    requires Rectangular(t) && i < |t.periods|
  {
    map name | name in t.rows :: Cleaned(t.rows[name][i])
  }

  /** The (key, record) pairs of the kept columns `statement.iloc[:, :duration]`. */
  function PeriodPairs(t: ProviderTable, duration: int): seq<(string, Record)>
    requires Rectangular(t)
  {
    var kept := Prefix(t.periods, duration);
    seq(|kept|, i requires 0 <= i < |kept| => (YearKey(kept[i]), PeriodRecord(t, i)))
  }

  /** `get_balance_sheet`, `get_cashflow_statement`, `get_yearly_earnings`
      and `get_income_statement` after the fetch: {} for a missing or empty
      table, otherwise the first `duration` periods keyed by year with NaN
      made None. */
  function StatementByYear(t: Option<ProviderTable>, duration: int): Statement
    requires t.Some? ==> Rectangular(t.value)
  {
    if t.None? || IsEmpty(t.value) then EmptyDict()
    else AssignAll(EmptyDict(), PeriodPairs(t.value, duration))
  }

  /** The period columns fall in different years. */
  predicate DistinctYears(periods: seq<Date>) {
    forall i, j :: 0 <= i < j < |periods| ==> periods[i].year != periods[j].year
  }

  lemma PrefixOfPeriods(periods: seq<Date>, duration: int)
    ensures Prefix(periods, duration) <= periods
    ensures duration >= 0 ==> |Prefix(periods, duration)| <= duration
  {
  }

  /** A missing or empty provider table gives an empty statement. */
  lemma EmptyTableGivesEmptyStatement(t: Option<ProviderTable>, duration: int)
    requires t.Some? ==> Rectangular(t.value)
    requires t.None? || IsEmpty(t.value)
    ensures StatementByYear(t, duration).keys == []
  {
  }

  /** The statement is keyed, in column order, by the years of the first
      `duration` periods, so it has at most `duration` keys. */
  lemma StatementKeysAreKeptYears(t: ProviderTable, duration: int)
    requires Rectangular(t) && DistinctYears(t.periods) && !IsEmpty(t)
    ensures var st := StatementByYear(Some(t), duration);
            var kept := Prefix(t.periods, duration);
            |st.keys| == |kept|
            && (forall i :: 0 <= i < |kept| ==> st.keys[i] == IntToString(kept[i].year))
            && (duration >= 0 ==> |st.keys| <= duration)
  {
    var pairs := PeriodPairs(t, duration);
    var kept := Prefix(t.periods, duration);
    PrefixOfPeriods(t.periods, duration);
    forall i, j | 0 <= i < j < |pairs| ensures pairs[i].0 != pairs[j].0 {
      assert kept[i] == t.periods[i] && kept[j] == t.periods[j];
      YearKeyInjective(kept[i].year, kept[j].year);
    }
    AssignAllDistinctKeys(pairs);
  }

  /** Within a kept period, the line items are exactly the table's rows, a
      blank becomes None and a reported number is kept unchanged. */
  lemma StatementRecordsAreCleanedColumns(t: ProviderTable, duration: int, i: nat)
    requires Rectangular(t) && DistinctYears(t.periods) && !IsEmpty(t)
    requires i < |Prefix(t.periods, duration)|
    ensures var st := StatementByYear(Some(t), duration);
            var y := YearKey(t.periods[i]);
            y in st.items
            && (forall name :: name in st.items[y] <==> name in t.rows)
            && (forall name :: name in t.rows ==>
                  (st.items[y][name] == None <==> t.rows[name][i] == Blank)
                  && (t.rows[name][i].Reported? ==> st.items[y][name] == Some(t.rows[name][i].amount)))
  {
    var pairs := PeriodPairs(t, duration);
    var kept := Prefix(t.periods, duration);
    PrefixOfPeriods(t.periods, duration);
    assert kept[i] == t.periods[i];
    forall j | i < j < |pairs| ensures pairs[j].0 != pairs[i].0 {
      assert kept[j] == t.periods[j];
      YearKeyInjective(kept[i].year, kept[j].year);
    }
    AssignAllLastWins(pairs, i);
  }

  lemma YearKeyInjective(a: int, b: int)
    requires a != b
    ensures IntToString(a) != IntToString(b)
  {
    IntStringRoundTrip(a);
    IntStringRoundTrip(b);
  }

  // ---------------------------------------------------------------------
  // get_yearly_stock_price
  // ---------------------------------------------------------------------

  /** A row of the monthly price history. */
  datatype PriceRow = PriceRow(date: Date, close: real)

  /** The Close of the first row of year `y`, None when no row falls in it. */
  function FirstClose(history: seq<PriceRow>, y: int): Option<real> {
    if |history| == 0 then None
    else if history[0].date.year == y then Some(history[0].close)
    else FirstClose(history[1..], y)
  }

  /** The Close of the last row of year `y`, None when no row falls in it. */
  function LastClose(history: seq<PriceRow>, y: int): Option<real> {
    if |history| == 0 then None
    else if history[|history| - 1].date.year == y then Some(history[|history| - 1].close)
    else LastClose(history[..|history| - 1], y)
  }

  /** FirstClose finds a row of the year, and no earlier row of that year. */
  lemma {:induction false} FirstCloseIsFirstRow(history: seq<PriceRow>, y: int)
    ensures FirstClose(history, y).Some? <==> exists i :: 0 <= i < |history| && history[i].date.year == y
    ensures FirstClose(history, y).Some? ==>
              exists i :: 0 <= i < |history| && history[i].date.year == y
                          && FirstClose(history, y).value == history[i].close
                          && forall j :: 0 <= j < i ==> history[j].date.year != y
  {
    if |history| > 0 && history[0].date.year != y {
      var rest := history[1..];
      FirstCloseIsFirstRow(rest, y);
      if exists i :: 0 <= i < |history| && history[i].date.year == y {
        var i :| 0 <= i < |history| && history[i].date.year == y;
        assert rest[i - 1] == history[i];
      }
      if FirstClose(rest, y).Some? {
        var i :| 0 <= i < |rest| && rest[i].date.year == y && FirstClose(rest, y).value == rest[i].close
                 && forall j :: 0 <= j < i ==> rest[j].date.year != y;
        assert history[i + 1] == rest[i];
        forall j | 0 <= j < i + 1 ensures history[j].date.year != y {
          if j > 0 {
            assert history[j] == rest[j - 1];
          }
        }
      }
    }
  }

  /** LastClose finds a row of the year, and no later row of that year. */
  lemma {:induction false} LastCloseIsLastRow(history: seq<PriceRow>, y: int)
    ensures LastClose(history, y).Some? <==> exists i :: 0 <= i < |history| && history[i].date.year == y
    ensures LastClose(history, y).Some? ==>
              exists i :: 0 <= i < |history| && history[i].date.year == y
                          && LastClose(history, y).value == history[i].close
                          && forall j :: i < j < |history| ==> history[j].date.year != y
  {
    var n := |history| - 1;
    if |history| > 0 && history[n].date.year != y {
      var init := history[..n];
      LastCloseIsLastRow(init, y);
      if exists i :: 0 <= i < |history| && history[i].date.year == y {
        var i :| 0 <= i < |history| && history[i].date.year == y;
        assert init[i] == history[i];
      }
      if LastClose(init, y).Some? {
        var i :| 0 <= i < |init| && init[i].date.year == y && LastClose(init, y).value == init[i].close
                 && forall j :: i < j < |init| ==> init[j].date.year != y;
        assert history[i] == init[i];
        forall j | i < j < |history| ensures history[j].date.year != y {
          if j < n {
            assert history[j] == init[j];
          }
        }
      }
    }
  }

  lemma {:induction false} FirstCloseExtend(history: seq<PriceRow>, i: nat, y: int)
    requires i < |history|
    ensures FirstClose(history[..i + 1], y)
            == if FirstClose(history[..i], y).Some? then FirstClose(history[..i], y)
               else if history[i].date.year == y then Some(history[i].close)
               else None
    decreases i
  {
    if i > 0 {
      var rest := history[1..];
      FirstCloseExtend(rest, i - 1, y);
      assert history[..i + 1][1..] == rest[..i];
      assert history[..i][1..] == rest[..i - 1];
      assert rest[i - 1] == history[i];
    }
  }

  /** The years of the rows, each once, in the order of their first row. */
  function FirstAppearance(history: seq<PriceRow>): (r: seq<Key>)
    ensures forall k :: k in r <==> k.IntKey? && exists j :: 0 <= j < |history| && history[j].date.year == k.i
    ensures Distinct(r)
  {
    if |history| == 0 then []
    else
      var p := FirstAppearance(history[..|history| - 1]);
      var k := IntKey(history[|history| - 1].date.year);
      assert forall j :: 0 <= j < |history| - 1 ==> history[..|history| - 1][j] == history[j];
      if k in p then p else p + [k]
  }

  /** `get_yearly_stock_price` after the fetch: for every row, in order, the
      year's price is set only if the year has none yet, so each year keeps
      the Close of its first row, and the years are in the order of their
      first row. */
  method GetYearlyStockPrice(history: seq<PriceRow>) returns (prices: Dict<Key, real>)
    ensures forall k :: k in prices.items <==> k.IntKey? && FirstClose(history, k.i).Some?
    ensures forall k :: k in prices.items ==> prices.items[k] == FirstClose(history, k.i).value
    ensures prices.keys == FirstAppearance(history)
  {
    prices := EmptyDict();
    var i := 0;
    while i < |history|
      invariant 0 <= i <= |history|
      invariant forall k :: k in prices.items <==> k.IntKey? && FirstClose(history[..i], k.i).Some?
      invariant forall k :: k in prices.items ==> prices.items[k] == FirstClose(history[..i], k.i).value
      invariant prices.keys == FirstAppearance(history[..i])
    {
      var row := history[i];
      assert history[..i + 1][..i] == history[..i];
      forall y: int ensures FirstClose(history[..i + 1], y)
                            == if FirstClose(history[..i], y).Some? then FirstClose(history[..i], y)
                               else if history[i].date.year == y then Some(history[i].close)
                               else None
      {
        FirstCloseExtend(history, i, y);
      }
      if IntKey(row.date.year) !in prices.items {
        prices := Assign(prices, IntKey(row.date.year), row.close);
      }
      i := i + 1;
    }
    assert history[..i] == history;
  }

  /** The year-end price the comment on the loop describes: every row
      overwrites its year, so each year keeps the Close of its last row. */
  method GetYearEndStockPrice(history: seq<PriceRow>) returns (prices: Dict<Key, real>)
    ensures forall k :: k in prices.items <==> k.IntKey? && LastClose(history, k.i).Some?
    ensures forall k :: k in prices.items ==> prices.items[k] == LastClose(history, k.i).value
  {
    prices := EmptyDict();
    var i := 0;
    while i < |history|
      invariant 0 <= i <= |history|
      invariant forall k :: k in prices.items <==> k.IntKey? && LastClose(history[..i], k.i).Some?
      invariant forall k :: k in prices.items ==> prices.items[k] == LastClose(history[..i], k.i).value
    {
      var row := history[i];
      assert history[..i + 1][..i] == history[..i];
      prices := Assign(prices, IntKey(row.date.year), row.close);
      i := i + 1;
    }
    assert history[..i] == history;
  }

  /** Two monthly rows of 2023, closing at 100 in January and 120 in
      December: the loop as written stores 100, the year-end price is 120. */
  lemma FirstRowWinsExample()
    ensures var history := [PriceRow(Date(2023, 1, 1), 100.0), PriceRow(Date(2023, 12, 1), 120.0)];
            FirstClose(history, 2023) == Some(100.0) && LastClose(history, 2023) == Some(120.0)
  {
    var history := [PriceRow(Date(2023, 1, 1), 100.0), PriceRow(Date(2023, 12, 1), 120.0)];
    assert history[..1] == [history[0]];
  }

  // ---------------------------------------------------------------------
  // get_historical_data
  // ---------------------------------------------------------------------

  /** The history request that `get_historical_data` makes. */
  datatype HistoryRequest = ForPeriod(period: string) | ForRange(start: string, end: string)

  /** Python truthiness of an optional string argument. */
  predicate Given(s: Option<string>) {
    s.Some? && |s.value| > 0
  }

  /** `get_historical_data`'s argument check: a duration wins; otherwise
      both dates are needed; otherwise ValueError. */
  function HistoryRequestOf(duration: Option<string>, start: Option<string>, end: Option<string>): (r: Outcome<HistoryRequest>)
    ensures r.Raise? <==> !Given(duration) && !(Given(start) && Given(end))
    ensures r.Raise? ==> r.error == ValueError
    ensures r.Ok? && r.value.ForPeriod? ==> Given(duration) && r.value.period == duration.value
    ensures r.Ok? && r.value.ForRange? ==> !Given(duration) && r.value.start == start.value && r.value.end == end.value
  {
    if Given(duration) then Ok(ForPeriod(duration.value))
    else if Given(start) && Given(end) then Ok(ForRange(start.value, end.value))
    else Raise(ValueError)
  }
}
