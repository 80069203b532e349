/** `valuation_ratios.py`: P/E and P/B over the income statement's dates
    with the close at or before each date, EV/EBITDA broadcast from the
    company info, and the column labels of the returned table. */
module ValuationRatios {
  import opened Py
  import opened Dates
  import opened Cells

  /** `stock_index[stock_index <= date][-1]`: the last position, in the
      stock index's own order, whose date is on or before `d`. */
  function LastAtOrBefore(dates: seq<Date>, d: Date): (r: Option<nat>)
    ensures r.Some? ==> r.value < |dates| && OnOrBefore(dates[r.value], d)
    ensures r.Some? ==> forall j :: r.value < j < |dates| ==> !OnOrBefore(dates[j], d)
    ensures r.None? ==> forall j :: 0 <= j < |dates| ==> !OnOrBefore(dates[j], d)
  {
    if |dates| == 0 then None
    else if OnOrBefore(dates[|dates| - 1], d) then Some(|dates| - 1)
    else LastAtOrBefore(dates[..|dates| - 1], d)
  }

  predicate Ascending(dates: seq<Date>) {
    forall i, j :: 0 <= i < j < |dates| ==> Before(dates[i], dates[j])
  }

  /** On a stock index in ascending order, the position chosen holds the
      latest stock date on or before `d`, and every earlier position an
      earlier date. */
  lemma {:induction false} LastAtOrBeforeIsLatest(dates: seq<Date>, d: Date)
    requires Ascending(dates)
    requires LastAtOrBefore(dates, d).Some?
    ensures var j := LastAtOrBefore(dates, d).value;
            forall k :: 0 <= k < |dates| && OnOrBefore(dates[k], d) ==> OnOrBefore(dates[k], dates[j])
  {
    var j := LastAtOrBefore(dates, d).value;
    forall k | 0 <= k < |dates| && OnOrBefore(dates[k], d) ensures OnOrBefore(dates[k], dates[j]) {
      if k != j {
        assert k < j;
      }
    }
  }

  /** The close of the chosen stock row: IndexError when no stock date is
      on or before `d`, KeyError when there is no Close column. */
  function PriceFor(stock: Frame, d: Date): Outcome<Cell>
    requires WellFormed(stock)
  {
    match LastAtOrBefore(stock.index, d)
    case None => Raise(IndexError)
    case Some(j) => if HasColumn(stock, "Close") then Ok(Col(stock, "Close")[j]) else Raise(KeyError)
  }

  /** The stock price series over the statement dates, once every date has
      a price. */
  function PriceSeries(finDates: seq<Date>, stock: Frame): (r: seq<Cell>)
    requires WellFormed(stock)
    requires forall i :: 0 <= i < |finDates| ==> PriceFor(stock, finDates[i]).Ok?
    ensures |r| == |finDates|
  {
    seq(|finDates|, i requires 0 <= i < |finDates| => PriceFor(stock, finDates[i]).value)
  }

  /** `info.get('sharesOutstanding')` as a divisor, when truthy. */
  function EpsColumn(income: Frame, shares: Option<real>): Option<seq<Cell>>
    requires WellFormed(income)
  {
    if HasColumn(income, "Net Income") && Truthy(shares) then Some(ColDivBy(Col(income, "Net Income"), Num(shares.value)))
    else None
  }

  function BookValueColumn(bs: Frame, shares: Option<real>): Option<seq<Cell>>
    requires WellFormed(bs)
  {
    if HasColumn(bs, "Total Stockholder Equity") && Truthy(shares)
    then Some(ColDivBy(Col(bs, "Total Stockholder Equity"), Num(shares.value)))
    else None
  }

  /** `info.get('enterpriseToEbitda', np.nan)` on every row. */
  function EvEbitdaColumn(info: Record, n: nat): seq<Cell> {
    Broadcast(if Item(info, "enterpriseToEbitda").Some? then Num(Item(info, "enterpriseToEbitda").value) else NaN, n)
  }

  /** An intermediate of the calculation, not its result: the ratio frame
      built on the income statement's dates before `reset_index` and the
      label join (`ResetAndJoin` turns it into the returned table). P/E =
      price / EPS, P/B = price / book value per share read at the same date
      of the balance sheet (NaN where it has none), then EV/EBITDA. */
  function ValuationFrame(income: Frame, bs: Frame, prices: seq<Cell>, info: Record): (r: Frame)
    requires WellFormed(income) && WellFormed(bs) && |prices| == |income.index|
    ensures r.index == income.index
  {
    var shares := Item(info, "sharesOutstanding");
    var eps := EpsColumn(income, shares);
    var bvps := BookValueColumn(bs, shares);
    var r1 := SetIf(EmptyFrame(income.index), "P/E Ratio", if eps.Some? then Some(ColDiv(prices, eps.value)) else None);
    var r2 := SetIf(r1, "P/B Ratio",
                    if bvps.Some? then Some(ColDiv(prices, Align(bs.index, bvps.value, income.index))) else None);
    SetColumn(r2, "EV/EBITDA", EvEbitdaColumn(info, |income.index|))
  }

  /** The statements the caller passes in, which the calculation extends
      in place with an EPS and a Book Value Per Share column. */
  class StatementFrames {
    var income: Frame
    var balance: Frame

    constructor (income: Frame, balance: Frame)
      ensures this.income == income && this.balance == balance
    {
      this.income := income;
      this.balance := balance;
    }
  }

  /** `calculate_valuation_ratios`: the price loop first (its first failing
      date raises), then the ratio columns; with a truthy share count and
      the source column, the caller's income statement gains `EPS` and its
      balance sheet `Book Value Per Share`. */
  method CalculateValuationRatios(frames: StatementFrames, stock: Frame, info: Record) returns (r: Outcome<Returned>)
    requires WellFormed(frames.income) && WellFormed(frames.balance) && WellFormed(stock)
    modifies frames
    ensures r.Raise? <==> exists i :: 0 <= i < |old(frames.income).index| && PriceFor(stock, old(frames.income).index[i]).Raise?
    ensures r.Raise? ==> frames.income == old(frames.income) && frames.balance == old(frames.balance)
    ensures r.Ok? ==> r.value == ResetAndJoin(ValuationFrame(old(frames.income), old(frames.balance),
                                                             PriceSeries(old(frames.income).index, stock), info))
    ensures r.Ok? ==> frames.income == (var eps := EpsColumn(old(frames.income), Item(info, "sharesOutstanding"));
                                        if eps.Some? then SetColumn(old(frames.income), "EPS", eps.value) else old(frames.income))
    ensures r.Ok? ==> frames.balance == (var bv := BookValueColumn(old(frames.balance), Item(info, "sharesOutstanding"));
                                         if bv.Some? then SetColumn(old(frames.balance), "Book Value Per Share", bv.value)
                                         else old(frames.balance))
  {
    var income := frames.income;
    var bs := frames.balance;
    var fin := income.index;
    var priced := MapChecked(fin, d => PriceFor(stock, d));
    if priced.Raise? {
      return Raise(priced.error);
    }
    var prices := seq(|fin|, i requires 0 <= i < |fin| => priced.value.items[fin[i]]);
    assert prices == PriceSeries(fin, stock);
    var shares := Item(info, "sharesOutstanding");
    var eps := EpsColumn(income, shares);
    if eps.Some? {
      frames.income := SetColumn(income, "EPS", eps.value);
    }
    var bvps := BookValueColumn(bs, shares);
    if bvps.Some? {
      frames.balance := SetColumn(bs, "Book Value Per Share", bvps.value);
    }
    r := Ok(ResetAndJoin(ValuationFrame(income, bs, prices, info)));
  }

  /** P/E on a row with a finite price, finite net income and a non-zero
      share count is price / (net income / shares). */
  lemma PeRows(income: Frame, bs: Frame, prices: seq<Cell>, info: Record, i: nat)
    requires WellFormed(income) && WellFormed(bs) && |prices| == |income.index|
    requires HasColumn(income, "Net Income") && Truthy(Item(info, "sharesOutstanding"))
    requires i < |income.index| && prices[i].Num?
    requires Col(income, "Net Income")[i].Num? && Col(income, "Net Income")[i].v != 0.0
    ensures var r := ValuationFrame(income, bs, prices, info);
            var shares := Item(info, "sharesOutstanding").value;
            HasColumn(r, "P/E Ratio")
            && Col(r, "P/E Ratio")[i] == Num(prices[i].v / (Col(income, "Net Income")[i].v / shares))
  {
    var shares := Item(info, "sharesOutstanding");
    var eps := EpsColumn(income, shares).value;
    var r1 := SetIf(EmptyFrame(income.index), "P/E Ratio", Some(ColDiv(prices, eps)));
    ValuationNamesDiffer();
    var ni := Col(income, "Net Income")[i].v;
    assert ni / shares.value != 0.0;
  }

  lemma ValuationNamesDiffer()
    ensures "P/E Ratio" != "P/B Ratio" && "P/E Ratio" != "EV/EBITDA" && "P/B Ratio" != "EV/EBITDA"
  {
    assert "P/E Ratio"[2] != "P/B Ratio"[2];
    assert "P/E Ratio"[0] != "EV/EBITDA"[0];
    assert "P/B Ratio"[0] != "EV/EBITDA"[0];
  }

  /** P/B reads the book value of the balance-sheet row with the same
      date; a statement date the balance sheet lacks gives NaN. */
  lemma PbRows(income: Frame, bs: Frame, prices: seq<Cell>, info: Record, i: nat)
    requires WellFormed(income) && WellFormed(bs) && |prices| == |income.index|
    requires HasColumn(bs, "Total Stockholder Equity") && Truthy(Item(info, "sharesOutstanding"))
    requires i < |income.index|
    ensures var r := ValuationFrame(income, bs, prices, info);
            var shares := Item(info, "sharesOutstanding").value;
            HasColumn(r, "P/B Ratio")
            && (income.index[i] !in bs.index ==> Col(r, "P/B Ratio")[i] == NaN)
            && (income.index[i] in bs.index ==>
                  Col(r, "P/B Ratio")[i]
                  == Div(prices[i], Div(Col(bs, "Total Stockholder Equity")[IndexOf(bs.index, income.index[i])], Num(shares))))
  {
    ValuationNamesDiffer();
    var shares := Item(info, "sharesOutstanding");
    var bvps := BookValueColumn(bs, shares).value;
    var aligned := Align(bs.index, bvps, income.index);
    var r := ValuationFrame(income, bs, prices, info);
    assert Col(r, "P/B Ratio") == ColDiv(prices, aligned);
    assert Div(prices[i], NaN) == NaN;
  }

  /** EV/EBITDA is the same info value on every row, NaN when absent. */
  lemma EvEbitdaBroadcast(income: Frame, bs: Frame, prices: seq<Cell>, info: Record, i: nat, j: nat)
    requires WellFormed(income) && WellFormed(bs) && |prices| == |income.index|
    requires i < |income.index| && j < |income.index|
    ensures var r := ValuationFrame(income, bs, prices, info);
            HasColumn(r, "EV/EBITDA")
            && Col(r, "EV/EBITDA")[i] == Col(r, "EV/EBITDA")[j]
            && (Item(info, "enterpriseToEbitda").None? <==> Col(r, "EV/EBITDA")[i] == NaN)
  {
  }

  // ---------------------------------------------------------------------
  // Column labels after `reset_index()` and `columns.map('_'.join)`
  // ---------------------------------------------------------------------

  /** `'_'.join(s)` of a string: its characters with '_' between them. */
  function JoinChars(s: string): (r: string)
    ensures |s| > 0 ==> |r| == 2 * |s| - 1
    ensures |s| == 0 ==> r == ""
  {
    if |s| <= 1 then s else [s[0], '_'] + JoinChars(s[1..])
  }

  /** The labels after `reset_index()`: the unnamed date index becomes a
      column named "index" in front of the ratio columns. */
  function ResetIndexLabels(f: Frame): seq<string> {
    ["index"] + f.cols.keys
  }

  /** The labels as written: `'_'.join` applied to each single-level label,
      which joins its characters. */
  function AsWrittenLabels(f: Frame): (r: seq<string>)
    ensures |r| == |ResetIndexLabels(f)|
  {
    seq(|ResetIndexLabels(f)|, i requires 0 <= i < |ResetIndexLabels(f)| => JoinChars(ResetIndexLabels(f)[i]))
  }

  /** Flattening joins the levels of a label with '_'; a single-level
      label is left as it is. */
  function JoinLevels(levels: seq<string>): string
    requires |levels| > 0
  {
    if |levels| == 1 then levels[0] else levels[0] + "_" + JoinLevels(levels[1..])
  }

  /** The evidently intended labels: each label flattened as the single
      level it is, which keeps it unchanged. */
  function IntendedLabels(f: Frame): (r: seq<string>)
    ensures r == ResetIndexLabels(f)
  {
    var labels := ResetIndexLabels(f);
    var flat := seq(|labels|, i requires 0 <= i < |labels| => JoinLevels([labels[i]]));
    assert flat == labels;
    flat
  }

  /** Every label of two or more characters is changed by the join as
      written, so no ratio column keeps its name. */
  lemma AsWrittenLabelsMangleNames(f: Frame, i: nat)
    requires i < |ResetIndexLabels(f)| && |ResetIndexLabels(f)[i]| >= 2
    ensures AsWrittenLabels(f)[i] != IntendedLabels(f)[i]
  {
  }

  /** A concrete label: the date column "index" becomes "i_n_d_e_x". */
  lemma IndexLabelAsWritten()
    ensures JoinChars("index") == "i_n_d_e_x"
  {
    assert "index"[1..] == "ndex" && "ndex"[1..] == "dex" && "dex"[1..] == "ex" && "ex"[1..] == "x";
    assert JoinChars("ex") == "e_x";
    assert JoinChars("dex") == "d_e_x";
    assert JoinChars("ndex") == "n_d_e_x";
  }

  /** The table `calculate_valuation_ratios` returns. After `reset_index()`
      its rows are numbered from 0 and the dates are an ordinary first
      column; `labels` are the labels of all its columns, the dates' first,
      and `ratios` are the ratio columns that follow the dates. */
  datatype Returned = Returned(labels: seq<string>, dates: seq<Date>, ratios: seq<seq<Cell>>)

  /** `reset_index()` followed by `columns.map('_'.join)` on the ratio
      frame: the dates move into the first column, labelled by the joined
      "index", and each ratio column keeps its cells under its name with the
      characters joined. */
  function ResetAndJoin(f: Frame): (r: Returned)
    ensures r.dates == f.index && |r.ratios| == |f.cols.keys|
    ensures r.labels == AsWrittenLabels(f)
  {
    Returned(AsWrittenLabels(f), f.index, seq(|f.cols.keys|, i requires 0 <= i < |f.cols.keys| => Col(f, f.cols.keys[i])))
  }

  /** Each ratio column of the returned table holds the cells of the frame
      column in the same place, under that column's name joined
      character by character. */
  lemma ResetAndJoinColumns(f: Frame)
    ensures var r := ResetAndJoin(f);
            forall i :: 0 <= i < |f.cols.keys| ==>
              r.labels[i + 1] == JoinChars(f.cols.keys[i]) && r.ratios[i] == Col(f, f.cols.keys[i])
  {
  }

  /** `'_'.join(s)` keeps the characters of `s` at the even positions and
      puts '_' at every odd one. */
  lemma {:induction false} JoinCharsSpec(s: string)
    ensures forall k :: 0 <= k < |s| ==> 2 * k < |JoinChars(s)| && JoinChars(s)[2 * k] == s[k]
    ensures forall k :: 0 <= k < |s| - 1 ==> JoinChars(s)[2 * k + 1] == '_'
  {
    if |s| > 1 {
      JoinCharsSpec(s[1..]);
      var t := JoinChars(s[1..]);
      assert JoinChars(s) == [s[0], '_'] + t;
      forall k | 1 <= k < |s| ensures JoinChars(s)[2 * k] == s[k] {
        assert JoinChars(s)[2 * k] == t[2 * (k - 1)];
      }
      forall k | 1 <= k < |s| - 1 ensures JoinChars(s)[2 * k + 1] == '_' {
        assert JoinChars(s)[2 * k + 1] == t[2 * (k - 1) + 1];
      }
    }
  }

  /** The dates' column of the returned table is labelled "i_n_d_e_x". */
  lemma DatesLabelAsWritten(f: Frame)
    ensures ResetAndJoin(f).labels[0] == "i_n_d_e_x"
  {
    assert ResetIndexLabels(f)[0] == "index";
    IndexLabelAsWritten();
  }

  /** With a truthy share count, Net Income and Total Stockholder Equity,
      the ratio columns are P/E, P/B and EV/EBITDA in that order, so the
      returned table carries the dates under "i_n_d_e_x" and then those three
      under their joined names. */
  lemma ValuationColumnsInOrder(income: Frame, bs: Frame, prices: seq<Cell>, info: Record)
    requires WellFormed(income) && WellFormed(bs) && |prices| == |income.index|
    requires HasColumn(income, "Net Income") && HasColumn(bs, "Total Stockholder Equity")
    requires Truthy(Item(info, "sharesOutstanding"))
    ensures ValuationFrame(income, bs, prices, info).cols.keys == ["P/E Ratio", "P/B Ratio", "EV/EBITDA"]
    ensures ResetAndJoin(ValuationFrame(income, bs, prices, info)).labels[0] == "i_n_d_e_x"
  {
    ValuationNamesDiffer();
    var shares := Item(info, "sharesOutstanding");
    var r1 := SetColumn(EmptyFrame(income.index), "P/E Ratio", ColDiv(prices, EpsColumn(income, shares).value));
    assert r1.cols.keys == ["P/E Ratio"];
    var r2 := SetColumn(r1, "P/B Ratio",
                        ColDiv(prices, Align(bs.index, BookValueColumn(bs, shares).value, income.index)));
    assert r2.cols.keys == ["P/E Ratio", "P/B Ratio"];
    assert ValuationFrame(income, bs, prices, info) == SetColumn(r2, "EV/EBITDA", EvEbitdaColumn(info, |income.index|));
    DatesLabelAsWritten(ValuationFrame(income, bs, prices, info));
  }
}
