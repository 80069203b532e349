/** `profitability_ratios.py`: profitability ratios over date-keyed
    statements, one ratio dict per period present in both statements, then
    ordered by date and read back for display. */
module ProfitabilityRatios {
  import opened Py
  import opened Dates
  import opened Cells

  /** The ratio columns, each with the label it is stored under. */
  datatype RatioName =
    | NetProfitMargin | OperatingProfitMargin | ReturnOnEquity | ReturnOnAssets
    | ReturnOnCapitalEmployed | EarningsPerShare
  {
    function Label(): string {
      match this
      case NetProfitMargin => "Net Profit Margin (%)"
      case OperatingProfitMargin => "Operating Profit Margin (%)"
      case ReturnOnEquity => "Return on Equity (%)"
      case ReturnOnAssets => "Return on Assets (%)"
      case ReturnOnCapitalEmployed => "Return on Capital Employed (%)"
      case EarningsPerShare => "EPS (₹ per share)"
    }
  }

  /** The ratios of one period, in the order they are inserted. */
  type Ratios = Dict<RatioName, Option<real>>

  /** `num / den * 100` when `num is not None and den is not None and
      den != 0`, None otherwise. */
  function GuardedPercent(num: Option<real>, den: Option<real>): Option<real> {
    if num.Some? && den.Some? && den.value != 0.0 then Some(num.value / den.value * 100.0) else None
  }

  /** `d[k] = v` under condition `c`. */
  function AssignIf(d: Ratios, c: bool, k: RatioName, v: Option<real>): Ratios {
    if c then Assign(d, k, v) else d
  }

  /** ROCE = Operating Income / (Total Assets - Total Current Liabilities)
      * 100 when the capital employed is positive; the subtraction raises
      TypeError when either balance item is None. */
  function RoceOf(ebit: Option<real>, assets: Option<real>, liabilities: Option<real>): Outcome<Option<real>> {
    if assets.None? || liabilities.None? then Raise(TypeError)
    else
      var employed := assets.value - liabilities.value;
      if ebit.Some? && employed != 0.0 && employed > 0.0 then Ok(Some(ebit.value / employed * 100.0))
      else Ok(None)
  }

  /** `net_income / shares` when both are present and shares > 0. */
  function EpsOf(netIncome: Option<real>, shares: Option<real>): Option<real> {
    if netIncome.Some? && shares.Some? && shares.value > 0.0 then Some(netIncome.value / shares.value) else None
  }

  predicate HasRoceInputs(inc: Record, bal: Record) {
    "Operating Income" in inc && "Total Assets" in bal && "Total Current Liabilities" in bal
  }

  /** The ratio keys written before ROCE, each only when its line names
      are keys of the period's records. */
  function MarginRatios(inc: Record, bal: Record): Ratios {
    var d1 := AssignIf(EmptyDict(), "Net Income" in inc && "Total Revenue" in inc,
                       NetProfitMargin, GuardedPercent(Item(inc, "Net Income"), Item(inc, "Total Revenue")));
    var d2 := AssignIf(d1, "Operating Income" in inc && "Total Revenue" in inc,
                       OperatingProfitMargin, GuardedPercent(Item(inc, "Operating Income"), Item(inc, "Total Revenue")));
    var d3 := AssignIf(d2, "Net Income" in inc && "Total Stockholder Equity" in bal,
                       ReturnOnEquity, GuardedPercent(Item(inc, "Net Income"), Item(bal, "Total Stockholder Equity")));
    AssignIf(d3, "Net Income" in inc && "Total Assets" in bal,
             ReturnOnAssets, GuardedPercent(Item(inc, "Net Income"), Item(bal, "Total Assets")))
  }

  /** The ROCE subtraction raises: its line names are present and one of
      the two balance items is None. */
  predicate RoceRaises(inc: Record, bal: Record) {
    HasRoceInputs(inc, bal) && RoceOf(Item(inc, "Operating Income"), Item(bal, "Total Assets"),
                                      Item(bal, "Total Current Liabilities")).Raise?
  }

  /** The margins `m` followed by ROCE and EPS, each written only when
      its line names are keys of the records. */
  function WithRoceAndEps(m: Ratios, inc: Record, bal: Record, shares: Option<real>): Ratios
    requires !RoceRaises(inc, bal)
  {
    var roce := RoceOf(Item(inc, "Operating Income"), Item(bal, "Total Assets"), Item(bal, "Total Current Liabilities"));
    var d5 := if HasRoceInputs(inc, bal) then Assign(m, ReturnOnCapitalEmployed, roce.value) else m;
    AssignIf(d5, "Net Income" in inc, EarningsPerShare, EpsOf(Item(inc, "Net Income"), shares))
  }

  /** The body of the period loop: the six ratios in insertion order, or
      the TypeError of the ROCE subtraction. */
  function PeriodRatios(inc: Record, bal: Record, shares: Option<real>): Outcome<Ratios> {
    if RoceRaises(inc, bal) then Raise(TypeError) else Ok(WithRoceAndEps(MarginRatios(inc, bal), inc, bal, shares))
  }

  lemma AssignIfMeaning(d: Ratios, c: bool, k: RatioName, v: Option<real>, k': RatioName)
    ensures k' in AssignIf(d, c, k, v).items <==> k' in d.items || (c && k' == k)
    ensures k' in AssignIf(d, c, k, v).items ==>
              AssignIf(d, c, k, v).items[k'] == if c && k' == k then v else d.items[k']
    ensures |AssignIf(d, c, k, v).keys| <= |d.keys| + 1
  {
  }

  /** The ROCE subtraction raises exactly when a balance item it reads is
      None, and then with TypeError. */
  lemma PeriodRatiosRaise(inc: Record, bal: Record, shares: Option<real>)
    ensures PeriodRatios(inc, bal, shares).Raise? <==>
              HasRoceInputs(inc, bal) && (bal["Total Assets"].None? || bal["Total Current Liabilities"].None?)
    ensures PeriodRatios(inc, bal, shares).Raise? ==> PeriodRatios(inc, bal, shares).error == TypeError
  {
  }

  /** Which margins are written: each exactly when its line names are keys
      of the records; ROCE and EPS are not among them. */
  lemma MarginRatiosKeys(inc: Record, bal: Record)
    ensures var m := MarginRatios(inc, bal);
            (NetProfitMargin in m.items <==> "Net Income" in inc && "Total Revenue" in inc)
            && (OperatingProfitMargin in m.items <==> "Operating Income" in inc && "Total Revenue" in inc)
            && (ReturnOnEquity in m.items <==> "Net Income" in inc && "Total Stockholder Equity" in bal)
            && (ReturnOnAssets in m.items <==> "Net Income" in inc && "Total Assets" in bal)
            && ReturnOnCapitalEmployed !in m.items && EarningsPerShare !in m.items
  {
  }

  /** The four margin values: a percentage only when its numerator and a
      non-zero denominator are present. */
  lemma MarginRatiosValues(inc: Record, bal: Record)
    ensures var r := MarginRatios(inc, bal);
            (NetProfitMargin in r.items ==>
               "Net Income" in inc && "Total Revenue" in inc
               && r.items[NetProfitMargin] == GuardedPercent(inc["Net Income"], inc["Total Revenue"]))
            && (OperatingProfitMargin in r.items ==>
                  "Operating Income" in inc && "Total Revenue" in inc
                  && r.items[OperatingProfitMargin] == GuardedPercent(inc["Operating Income"], inc["Total Revenue"]))
            && (ReturnOnEquity in r.items ==>
                  "Net Income" in inc && "Total Stockholder Equity" in bal
                  && r.items[ReturnOnEquity] == GuardedPercent(inc["Net Income"], bal["Total Stockholder Equity"]))
            && (ReturnOnAssets in r.items ==>
                  "Net Income" in inc && "Total Assets" in bal
                  && r.items[ReturnOnAssets] == GuardedPercent(inc["Net Income"], bal["Total Assets"]))
  {
    var c1 := "Net Income" in inc && "Total Revenue" in inc;
    var c2 := "Operating Income" in inc && "Total Revenue" in inc;
    var c3 := "Net Income" in inc && "Total Stockholder Equity" in bal;
    var c4 := "Net Income" in inc && "Total Assets" in bal;
    var v1 := GuardedPercent(Item(inc, "Net Income"), Item(inc, "Total Revenue"));
    var v2 := GuardedPercent(Item(inc, "Operating Income"), Item(inc, "Total Revenue"));
    var v3 := GuardedPercent(Item(inc, "Net Income"), Item(bal, "Total Stockholder Equity"));
    var v4 := GuardedPercent(Item(inc, "Net Income"), Item(bal, "Total Assets"));
    var d1 := AssignIf(EmptyDict(), c1, NetProfitMargin, v1);
    var d2 := AssignIf(d1, c2, OperatingProfitMargin, v2);
    var d3 := AssignIf(d2, c3, ReturnOnEquity, v3);
    assert MarginRatios(inc, bal) == AssignIf(d3, c4, ReturnOnAssets, v4);
    AssignIfMeaning(EmptyDict(), c1, NetProfitMargin, v1, NetProfitMargin);
    AssignIfMeaning(d1, c2, OperatingProfitMargin, v2, NetProfitMargin);
    AssignIfMeaning(d1, c2, OperatingProfitMargin, v2, OperatingProfitMargin);
    AssignIfMeaning(d2, c3, ReturnOnEquity, v3, NetProfitMargin);
    AssignIfMeaning(d2, c3, ReturnOnEquity, v3, OperatingProfitMargin);
    AssignIfMeaning(d2, c3, ReturnOnEquity, v3, ReturnOnEquity);
    AssignIfMeaning(d3, c4, ReturnOnAssets, v4, NetProfitMargin);
    AssignIfMeaning(d3, c4, ReturnOnAssets, v4, OperatingProfitMargin);
    AssignIfMeaning(d3, c4, ReturnOnAssets, v4, ReturnOnEquity);
    AssignIfMeaning(d3, c4, ReturnOnAssets, v4, ReturnOnAssets);
  }

  /** Adding ROCE and EPS keeps the margins, writes ROCE exactly when its
      three line names are present and EPS exactly when Net Income is, and
      writes nothing else. */
  lemma WithRoceAndEpsKeys(m: Ratios, inc: Record, bal: Record, shares: Option<real>)
    requires !RoceRaises(inc, bal)
    requires ReturnOnCapitalEmployed !in m.items && EarningsPerShare !in m.items
    ensures var r := WithRoceAndEps(m, inc, bal, shares);
            (forall k :: k in r.items <==> k in m.items || (k == ReturnOnCapitalEmployed && HasRoceInputs(inc, bal))
                                           || (k == EarningsPerShare && "Net Income" in inc))
            && (forall k :: k in m.items ==> r.items[k] == m.items[k])
  {
    var roce := RoceOf(Item(inc, "Operating Income"), Item(bal, "Total Assets"), Item(bal, "Total Current Liabilities"));
    var d5 := if HasRoceInputs(inc, bal) then Assign(m, ReturnOnCapitalEmployed, roce.value) else m;
    var eps := EpsOf(Item(inc, "Net Income"), shares);
    forall k ensures k in WithRoceAndEps(m, inc, bal, shares).items <==> k in d5.items || (k == EarningsPerShare && "Net Income" in inc)
    ensures k in d5.items ==> WithRoceAndEps(m, inc, bal, shares).items[k] == d5.items[k]
    {
      AssignIfMeaning(d5, "Net Income" in inc, EarningsPerShare, eps, k);
    }
  }

  /** ROCE is defined only on a positive capital employed, and is then
      EBIT / (Total Assets - Total Current Liabilities) * 100; EPS is
      defined only on a positive share count, and is then Net Income /
      shares. */
  lemma WithRoceAndEpsValues(m: Ratios, inc: Record, bal: Record, shares: Option<real>)
    requires !RoceRaises(inc, bal)
    requires ReturnOnCapitalEmployed !in m.items && EarningsPerShare !in m.items
    ensures var r := WithRoceAndEps(m, inc, bal, shares);
            (ReturnOnCapitalEmployed in r.items ==>
               (r.items[ReturnOnCapitalEmployed].Some? <==>
                  inc["Operating Income"].Some? && bal["Total Assets"].value - bal["Total Current Liabilities"].value > 0.0))
            && (ReturnOnCapitalEmployed in r.items && r.items[ReturnOnCapitalEmployed].Some? ==>
                  r.items[ReturnOnCapitalEmployed].value
                  == inc["Operating Income"].value / (bal["Total Assets"].value - bal["Total Current Liabilities"].value) * 100.0)
            && (EarningsPerShare in r.items ==>
                  (r.items[EarningsPerShare].Some? <==> inc["Net Income"].Some? && shares.Some? && shares.value > 0.0))
            && (EarningsPerShare in r.items && r.items[EarningsPerShare].Some? ==>
                  r.items[EarningsPerShare].value == inc["Net Income"].value / shares.value)
  {
    var roce := RoceOf(Item(inc, "Operating Income"), Item(bal, "Total Assets"), Item(bal, "Total Current Liabilities"));
    var d5 := if HasRoceInputs(inc, bal) then Assign(m, ReturnOnCapitalEmployed, roce.value) else m;
    AssignIfMeaning(d5, "Net Income" in inc, EarningsPerShare, EpsOf(Item(inc, "Net Income"), shares), ReturnOnCapitalEmployed);
  }

  /** Period keys of the income statement that the balance sheet also
      has, in income-statement order. */
  function CommonPeriods(income: seq<string>, balance: Statement): (r: seq<string>)
    ensures forall k :: k in r <==> k in income && k in balance.items
    ensures Subsequence(r, income)
  {
    if income == [] then []
    else if income[|income| - 1] in balance.items then CommonPeriods(income[..|income| - 1], balance) + [income[|income| - 1]]
    else CommonPeriods(income[..|income| - 1], balance)
  }

  /** One more income period: it is appended when the balance sheet has it,
      and it is not among the periods before it. */
  lemma CommonPeriodsStep(income: seq<string>, balance: Statement, i: nat)
    requires i < |income| && Distinct(income)
    ensures income[i] !in CommonPeriods(income[..i], balance)
    ensures CommonPeriods(income[..i + 1], balance)
            == if income[i] in balance.items then CommonPeriods(income[..i], balance) + [income[i]]
               else CommonPeriods(income[..i], balance)
  {
    assert income[..i + 1][..i] == income[..i];
    assert income[i] !in income[..i];
  }

  /** The body of the period loop, as a function of the two records. */
  type PeriodBody = (Record, Record) -> Outcome<Ratios>

  /** The state of the period loop after the first i income periods: none
      of those also in the balance sheet raised, and `results` holds exactly
      their ratios, in income-statement order. */
  ghost predicate Processed(income: Statement, balance: Statement, body: PeriodBody,
                            results: Dict<string, Ratios>, i: nat) {
    i <= |income.keys|
    && (forall j :: 0 <= j < i && income.keys[j] in balance.items ==>
          body(income.items[income.keys[j]], balance.items[income.keys[j]]).Ok?)
    && results.keys == CommonPeriods(income.keys[..i], balance)
    && (forall d :: d in results.items ==>
          d in income.items && d in balance.items
          && body(income.items[d], balance.items[d]) == Ok(results.items[d]))
  }

  /** One period of the loop that does not raise. */
  lemma ProcessedStep(income: Statement, balance: Statement, body: PeriodBody,
                      results: Dict<string, Ratios>, i: nat)
    requires Processed(income, balance, body, results, i) && i < |income.keys|
    requires income.keys[i] in balance.items ==>
               body(income.items[income.keys[i]], balance.items[income.keys[i]]).Ok?
    ensures income.keys[i] !in balance.items ==> Processed(income, balance, body, results, i + 1)
    ensures income.keys[i] in balance.items ==>
              Processed(income, balance, body,
                        Assign(results, income.keys[i],
                               body(income.items[income.keys[i]], balance.items[income.keys[i]]).value),
                        i + 1)
  {
    var date := income.keys[i];
    CommonPeriodsStep(income.keys, balance, i);
    assert date in income.items;
  }

  /** After the last period, no period of both statements raised. */
  lemma ProcessedAll(income: Statement, balance: Statement, body: PeriodBody, results: Dict<string, Ratios>)
    requires Processed(income, balance, body, results, |income.keys|)
    ensures results.keys == CommonPeriods(income.keys, balance)
    ensures forall d :: d in income.items && d in balance.items ==> body(income.items[d], balance.items[d]).Ok?
  {
    assert income.keys[..|income.keys|] == income.keys;
    forall d | d in income.items && d in balance.items
      ensures body(income.items[d], balance.items[d]).Ok?
    {
      var j := IndexOf(income.keys, d);
    }
  }

  /** The period loop: for each income period also in the balance sheet,
      in order, `results[date] = body(...)`; the first period whose body
      raises ends the loop with that exception. */
  method PeriodLoop(income: Statement, balance: Statement, body: PeriodBody)
    returns (r: Outcome<Dict<string, Ratios>>)
    ensures r.Raise? <==> exists d :: d in income.items && d in balance.items
                                      && body(income.items[d], balance.items[d]).Raise?
    ensures r.Raise? ==> exists d :: d in income.items && d in balance.items
                                     && body(income.items[d], balance.items[d]) == Raise(r.error)
    ensures r.Ok? ==> r.value.keys == CommonPeriods(income.keys, balance)
    ensures r.Ok? ==> forall d :: d in r.value.items ==>
              d in income.items && d in balance.items
              && body(income.items[d], balance.items[d]) == Ok(r.value.items[d])
  {
    var results: Dict<string, Ratios> := EmptyDict();
    var i := 0;
    while i < |income.keys|
      invariant Processed(income, balance, body, results, i)
    {
      var date := income.keys[i];
      assert date in income.items;
      if date in balance.items {
        var ratios := body(income.items[date], balance.items[date]);
        if ratios.Raise? {
          return Raise(ratios.error);
        }
        ProcessedStep(income, balance, body, results, i);
        results := Assign(results, date, ratios.value);
      } else {
        ProcessedStep(income, balance, body, results, i);
      }
      i := i + 1;
    }
    ProcessedAll(income, balance, body, results);
    return Ok(results);
  }

  /** `calculate_profitability_ratios`: for each income period also in the
      balance sheet, in order, `results[date] = ratios`; the first period
      whose ROCE subtraction raises ends the call with TypeError. */
  method CalculateProfitabilityRatios(income: Statement, balance: Statement, info: Record)
    returns (r: Outcome<Dict<string, Ratios>>)
    ensures r.Raise? <==> exists d :: d in income.items && d in balance.items
                                      && PeriodRatios(income.items[d], balance.items[d], Item(info, "sharesOutstanding")).Raise?
    ensures r.Raise? ==> r.error == TypeError
    ensures r.Ok? ==> r.value.keys == CommonPeriods(income.keys, balance)
    ensures r.Ok? ==> forall d :: d in r.value.items ==>
              d in income.items && d in balance.items
              && PeriodRatios(income.items[d], balance.items[d], Item(info, "sharesOutstanding")) == Ok(r.value.items[d])
  {
    var shares := Item(info, "sharesOutstanding");
    r := PeriodLoop(income, balance, (inc, bal) => PeriodRatios(inc, bal, shares));
    if r.Raise? {
      var d :| d in income.items && d in balance.items
               && PeriodRatios(income.items[d], balance.items[d], shares) == Raise(r.error);
      PeriodRatiosRaise(income.items[d], balance.items[d], shares);
    }
  }

  // ---------------------------------------------------------------------
  // convert_ratios_to_dataframe (row order only)
  // ---------------------------------------------------------------------

  /** A row of the ratio frame: its date and that period's ratios. */
  datatype Row = Row(date: Date, ratios: Ratios)

  predicate SortedByDate(rows: seq<Row>) {
    forall i, j :: 0 <= i < j < |rows| ==> OnOrBefore(rows[i].date, rows[j].date)
  }

  /** `row` placed before the first row dated after it. */
  function InsertByDate(row: Row, rows: seq<Row>): seq<Row> {
    if rows == [] then [row]
    else if OnOrBefore(row.date, rows[0].date) then [row] + rows
    else [rows[0]] + InsertByDate(row, rows[1..])
  }

  /** `df.sort_values('Date')`, written as an insertion sort. */
  function SortByDate(rows: seq<Row>): seq<Row> {
    if rows == [] then [] else InsertByDate(rows[0], SortByDate(rows[1..]))
  }

  lemma OnOrBeforeTotal(a: Date, b: Date)
    ensures OnOrBefore(a, b) || OnOrBefore(b, a)
  {
  }

  lemma OnOrBeforeTransitive(a: Date, b: Date, c: Date)
    requires OnOrBefore(a, b) && OnOrBefore(b, c)
    ensures OnOrBefore(a, c)
  {
  }

  lemma {:induction false} InsertByDateKeepsRows(row: Row, rows: seq<Row>)
    ensures multiset(InsertByDate(row, rows)) == multiset(rows) + multiset{row}
  {
    if rows != [] && !OnOrBefore(row.date, rows[0].date) {
      InsertByDateKeepsRows(row, rows[1..]);
      assert rows == [rows[0]] + rows[1..];
    }
  }

  /** A row dated no later than every row of a sorted sequence can go in
      front of it. */
  lemma ConsSorted(x: Row, rows: seq<Row>)
    requires SortedByDate(rows)
    requires forall k :: 0 <= k < |rows| ==> OnOrBefore(x.date, rows[k].date)
    ensures SortedByDate([x] + rows)
  {
    var res := [x] + rows;
    forall a, b | 0 <= a < b < |res| ensures OnOrBefore(res[a].date, res[b].date) {
      assert res[b] == rows[b - 1];
      if a > 0 {
        assert res[a] == rows[a - 1];
      }
    }
  }

  lemma {:induction false} InsertByDateSorted(row: Row, rows: seq<Row>)
    requires SortedByDate(rows)
    ensures SortedByDate(InsertByDate(row, rows))
  {
    if rows != [] && !OnOrBefore(row.date, rows[0].date) {
      var tail := rows[1..];
      InsertByDateSorted(row, tail);
      InsertByDateKeepsRows(row, tail);
      var ins := InsertByDate(row, tail);
      OnOrBeforeTotal(row.date, rows[0].date);
      forall k | 0 <= k < |ins| ensures OnOrBefore(rows[0].date, ins[k].date) {
        assert ins[k] in multiset(ins);
        if ins[k] != row {
          assert ins[k] in multiset(tail);
          var m :| 0 <= m < |tail| && tail[m] == ins[k];
          assert rows[m + 1] == tail[m];
        }
      }
      ConsSorted(rows[0], ins);
    } else if rows != [] {
      forall k | 0 <= k < |rows| ensures OnOrBefore(row.date, rows[k].date) {
        if k > 0 {
          OnOrBeforeTransitive(row.date, rows[0].date, rows[k].date);
        }
      }
      ConsSorted(row, rows);
    }
  }

  /** Sorting keeps every row and puts them in date order. */
  lemma {:induction false} SortByDateSortsRows(rows: seq<Row>)
    ensures SortedByDate(SortByDate(rows))
    ensures multiset(SortByDate(rows)) == multiset(rows)
  {
    if rows != [] {
      SortByDateSortsRows(rows[1..]);
      InsertByDateSorted(rows[0], SortByDate(rows[1..]));
      InsertByDateKeepsRows(rows[0], SortByDate(rows[1..]));
      assert rows == [rows[0]] + rows[1..];
    }
  }

  /** `convert_ratios_to_dataframe`: one row per period with its date
      parsed (ValueError for a key that is not a date), ordered by date. */
  method ConvertRatiosToDataframe(ratios: Dict<string, Ratios>) returns (r: Outcome<seq<Row>>)
    ensures r.Raise? <==> exists d :: d in ratios.items && Parse(d).None?
    ensures r.Raise? ==> r.error == ValueError
    ensures r.Ok? ==> SortedByDate(r.value)
    ensures r.Ok? ==> multiset(r.value)
                      == multiset(seq(|ratios.keys|, i requires 0 <= i < |ratios.keys| =>
                                        Row(Parse(ratios.keys[i]).value, ratios.items[ratios.keys[i]])))
  {
    var data: seq<Row> := [];
    var i := 0;
    while i < |ratios.keys|
      invariant 0 <= i <= |ratios.keys|
      invariant forall j :: 0 <= j < i ==> Parse(ratios.keys[j]).Some?
      invariant |data| == i
      invariant forall j :: 0 <= j < i ==> data[j] == Row(Parse(ratios.keys[j]).value, ratios.items[ratios.keys[j]])
    {
      var key := ratios.keys[i];
      assert key in ratios.items;
      match Parse(key) {
        case None =>
          return Raise(ValueError);
        case Some(date) =>
          data := data + [Row(date, ratios.items[key])];
      }
      i := i + 1;
    }
    forall d | d in ratios.items ensures Parse(d).Some? {
      var j := IndexOf(ratios.keys, d);
    }
    assert data == seq(|ratios.keys|, i requires 0 <= i < |ratios.keys| =>
                         Row(Parse(ratios.keys[i]).value, ratios.items[ratios.keys[i]]));
    SortByDateSortsRows(data);
    return Ok(SortByDate(data));
  }

  // ---------------------------------------------------------------------
  // display_latest_values
  // ---------------------------------------------------------------------

  /** `df[ratio].iloc[-1]` for a frame that has the column and rows, None
      otherwise. */
  function Latest(f: Frame, ratio: string): Option<Cell>
    requires WellFormed(f)
  {
    if HasColumn(f, ratio) && !Empty(f) then Some(Col(f, ratio)[|f.index| - 1]) else None
  }

  /** Each benchmark's name with its latest value, in the benchmarks'
      order. */
  function BenchmarkLatest(benchmarks: Dict<string, Frame>, ratio: string): (r: seq<(string, Option<Cell>)>)
    requires forall name :: name in benchmarks.items ==> WellFormed(benchmarks.items[name])
    ensures |r| == |benchmarks.keys|
    ensures forall i :: 0 <= i < |r| ==> r[i] == (benchmarks.keys[i], Latest(benchmarks.items[benchmarks.keys[i]], ratio))
  {
    seq(|benchmarks.keys|, i requires 0 <= i < |benchmarks.keys| =>
          (benchmarks.keys[i], Latest(benchmarks.items[benchmarks.keys[i]], ratio)))
  }

  /** `display_latest_values`: None when the company frame lacks the ratio;
      otherwise `{company: latest}` followed, benchmark by benchmark, by
      each benchmark's last value, or None when it lacks the column or has
      no rows. */
  method DisplayLatestValues(df: Frame, ratio: string, company: string, benchmarks: Dict<string, Frame>)
    returns (r: Option<Dict<string, Option<Cell>>>)
    requires WellFormed(df)
    requires forall name :: name in benchmarks.items ==> WellFormed(benchmarks.items[name])
    ensures r.None? <==> !HasColumn(df, ratio)
    ensures r.Some? ==> r.value == AssignAll(EmptyDict(), [(company, Latest(df, ratio))] + BenchmarkLatest(benchmarks, ratio))
  {
    if !HasColumn(df, ratio) {
      return None;
    }
    var latest := if !Empty(df) then Some(Col(df, ratio)[|df.index| - 1]) else None;
    var values := FillDict([(company, latest)] + BenchmarkLatest(benchmarks, ratio));
    return Some(values);
  }

  /** The displayed values: the company and every benchmark has an entry,
      the company's comes first, each benchmark shows its own latest value,
      and the company shows its own unless a benchmark has the same name. */
  lemma {:induction false} LatestValuesMeaning(df: Frame, ratio: string, company: string, benchmarks: Dict<string, Frame>)
    requires WellFormed(df)
    requires forall name :: name in benchmarks.items ==> WellFormed(benchmarks.items[name])
    ensures var v := AssignAll(EmptyDict(), [(company, Latest(df, ratio))] + BenchmarkLatest(benchmarks, ratio));
            (forall name :: name in v.items <==> name == company || name in benchmarks.items)
            && (forall name :: name in benchmarks.items ==> v.items[name] == Latest(benchmarks.items[name], ratio))
            && (company !in benchmarks.items ==> v.items[company] == Latest(df, ratio))
            && v.keys[0] == company
  {
    var bench := BenchmarkLatest(benchmarks, ratio);
    AssignAllAfterHead(company, Latest(df, ratio), bench);
    var v := AssignAll(EmptyDict(), [(company, Latest(df, ratio))] + bench);
    forall name | name in benchmarks.items
      ensures name in v.items && v.items[name] == Latest(benchmarks.items[name], ratio)
    {
      var j := IndexOf(benchmarks.keys, name);
      assert bench[j].0 == name;
    }
    forall name | name in v.items && name != company ensures name in benchmarks.items {
      var i :| 0 <= i < |bench| && bench[i].0 == name;
      assert benchmarks.keys[i] in benchmarks.keys;
    }
    if company !in benchmarks.items {
      forall i | 0 <= i < |bench| ensures bench[i].0 != company {
        assert benchmarks.keys[i] in benchmarks.keys;
      }
    }
  }
}
