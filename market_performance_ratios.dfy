/** `market_performance_ratios.py`: yearly dividend yield over the
    year-end rows of the stock data, and the company's market
    capitalisation on every row. */
module MarketPerformanceRatios {
  import opened Py
  import opened Dates
  import opened Cells

  /** A dividend payment date, time-zone aware or naive. */
  datatype Stamp = Stamp(date: Date, tz: Option<string>)

  /** The dividend series the caller passes in; its index is made
      time-zone naive in place. */
  class DividendSeries {
    var index: seq<Stamp>
    var amounts: seq<real>

    constructor (index: seq<Stamp>, amounts: seq<real>)
      ensures this.index == index && this.amounts == amounts
    {
      this.index := index;
      this.amounts := amounts;
    }

    /** `index = index.to_pydatetime(); index = index.tz_localize(None)`:
        every stamp keeps its wall-clock date and loses its zone. */
    method MakeNaive()
      modifies this
      ensures |index| == |old(index)| && amounts == old(amounts)
      ensures forall i :: 0 <= i < |index| ==> index[i] == Stamp(old(index)[i].date, None)
    {
      var stamps := index;
      index := seq(|stamps|, i requires 0 <= i < |stamps| => Stamp(stamps[i].date, None));
    }

    /** The payment dates, zone dropped. */
    function Dates(): (r: seq<Date>)
      reads this
      ensures |r| == |index| && forall i :: 0 <= i < |r| ==> r[i] == index[i].date
    {
      var stamps := index;
      seq(|stamps|, i requires 0 <= i < |stamps| => stamps[i].date)
    }
  }

  /** `dividends[(index >= datetime(y, 1, 1)) & (index <= datetime(y, 12, 31))].sum()`. */
  function AnnualDividend(dates: seq<Date>, amounts: seq<real>, y: int): real
    requires |dates| == |amounts|
  {
    if |dates| == 0 then 0.0
    else
      var n := |dates| - 1;
      var rest := AnnualDividend(dates[..n], amounts[..n], y);
      if OnOrBefore(Date(y, 1, 1), dates[n]) && OnOrBefore(dates[n], Date(y, 12, 31)) then rest + amounts[n] else rest
  }

  /** A dividend counts towards year y exactly when it is dated in y. */
  lemma InYearWindow(d: Date, y: int)
    requires Valid(d)
    ensures OnOrBefore(Date(y, 1, 1), d) && OnOrBefore(d, Date(y, 12, 31)) <==> d.year == y
  {
  }

  /** Only payments dated in the year count: with none dated in it, the
      annual dividend is 0, one more payment dated in it adds its amount,
      and one more payment dated in another year changes nothing. */
  lemma {:induction false} AnnualDividendCountsTheYear(dates: seq<Date>, amounts: seq<real>, y: int)
    requires |dates| == |amounts|
    requires forall i :: 0 <= i < |dates| ==> Valid(dates[i])
    ensures (forall i :: 0 <= i < |dates| ==> dates[i].year != y) ==> AnnualDividend(dates, amounts, y) == 0.0
    ensures forall d: Date, a: real :: Valid(d) && d.year == y ==>
              AnnualDividend(dates + [d], amounts + [a], y) == AnnualDividend(dates, amounts, y) + a
    ensures forall d: Date, a: real :: Valid(d) && d.year != y ==>
              AnnualDividend(dates + [d], amounts + [a], y) == AnnualDividend(dates, amounts, y)
  {
    if |dates| > 0 {
      var n := |dates| - 1;
      AnnualDividendCountsTheYear(dates[..n], amounts[..n], y);
      InYearWindow(dates[n], y);
    }
    forall d: Date, a: real | Valid(d) && d.year == y
      ensures AnnualDividend(dates + [d], amounts + [a], y) == AnnualDividend(dates, amounts, y) + a
    {
      InYearWindow(d, y);
      assert (dates + [d])[..|dates|] == dates;
      assert (amounts + [a])[..|amounts|] == amounts;
    }
    forall d: Date, a: real | Valid(d) && d.year != y
      ensures AnnualDividend(dates + [d], amounts + [a], y) == AnnualDividend(dates, amounts, y)
    {
      InYearWindow(d, y);
      assert (dates + [d])[..|dates|] == dates;
      assert (amounts + [a])[..|amounts|] == amounts;
    }
  }

  /** The yield cell of a year: 0 when the annual dividend is not
      positive; otherwise dividend / price * 100 when the price lookup
      finds a row, the cell left empty (NaN) when it does not. */
  function YieldCell(annual: real, price: Option<Cell>): Cell {
    if annual > 0.0 then (if price.Some? then Mul(Div(Num(annual), price.value), Num(100.0)) else NaN)
    else Num(0.0)
  }

  /** The body of the dividend-yield loop for one year: the branches on the
      annual dividend and on the price lookup. */
  method YearYield(annual: real, price: Option<Cell>) returns (cell: Cell)
    ensures cell == YieldCell(annual, price)
    ensures annual <= 0.0 ==> cell == Num(0.0)
    ensures annual > 0.0 && price.None? ==> cell == NaN
  {
    cell := NaN;
    if annual > 0.0 {
      match price {
        case Some(p) =>
          cell := Mul(Div(Num(annual), p), Num(100.0));
        case None =>
      }
    } else {
      cell := Num(0.0);
    }
  }

  /** The dividend-yield loop over the year-end rows, with the price lookup
      given as `probe`. */
  method DividendYieldColumn(years: seq<Date>, dates: seq<Date>, amounts: seq<real>, probe: Date -> Option<Cell>)
    returns (col: seq<Cell>)
    requires |dates| == |amounts|
    ensures |col| == |years|
    ensures forall i :: 0 <= i < |years| ==> col[i] == YieldCell(AnnualDividend(dates, amounts, years[i].year), probe(years[i]))
  {
    col := [];
    var i := 0;
    while i < |years|
      invariant 0 <= i <= |years| && |col| == i
      invariant forall j :: 0 <= j < i ==> col[j] == YieldCell(AnnualDividend(dates, amounts, years[j].year), probe(years[j]))
    {
      var cell := YearYield(AnnualDividend(dates, amounts, years[i].year), probe(years[i]));
      col := col + [cell];
      i := i + 1;
    }
  }

  /** A label of the yearly stock index: a date, or a (ticker, date string)
      pair as the membership test builds it. */
  datatype Label = DateLabel(date: Date) | TickerDate(ticker: string, year: string)

  /** As written: `(ticker, year) in stock_yearly.index` and the Close of
      that row. */
  function ProbeAsWritten(labels: seq<Label>, close: seq<Cell>, ticker: string, d: Date): Option<Cell>
    requires |close| == |labels| && Valid(d)
  {
    var key := TickerDate(ticker, Format(d));
    if key in labels then Some(close[IndexOf(labels, key)]) else None
  }

  /** Evidently intended: the Close of the year-end row itself. */
  function ProbeByDate(yearEnds: seq<Date>, close: seq<Cell>, d: Date): Option<Cell>
    requires |close| == |yearEnds|
  {
    if d in yearEnds then Some(close[IndexOf(yearEnds, d)]) else None
  }

  /** `info.get('marketCap', np.nan)` on every row. */
  function MarketCapColumn(info: Record, n: nat): seq<Cell> {
    Broadcast(if Item(info, "marketCap").Some? then Num(Item(info, "marketCap").value) else NaN, n)
  }

  /** `calculate_market_performance_ratios` as written (without Beta): the
      dividend index made naive in place, the yield column over the
      year-end rows with the pair lookup, and the market capitalisation. */
  method CalculateMarketPerformanceRatios(yearly: Frame, divs: DividendSeries, info: Record, ticker: string)
    returns (r: Frame)
    requires WellFormed(yearly) && HasColumn(yearly, "Close") && |divs.index| == |divs.amounts|
    requires forall i :: 0 <= i < |yearly.index| ==> Valid(yearly.index[i])
    modifies divs
    ensures forall i :: 0 <= i < |divs.index| ==> divs.index[i].tz.None?
    ensures divs.Dates() == old(divs.Dates()) && divs.amounts == old(divs.amounts)
    ensures r.index == yearly.index
    ensures r.cols.keys == ["Dividend Yield (%)", "Market Capitalization"]
    ensures !r.cols.items["Dividend Yield (%)"].numeric && r.cols.items["Market Capitalization"].numeric
    ensures |r.cols.items["Dividend Yield (%)"].cells| == |yearly.index|
    ensures r.cols.items["Market Capitalization"].cells == MarketCapColumn(info, |yearly.index|)
    ensures forall i :: 0 <= i < |yearly.index| ==>
              r.cols.items["Dividend Yield (%)"].cells[i]
              == YieldCell(AnnualDividend(divs.Dates(), divs.amounts, yearly.index[i].year),
                           ProbeAsWritten(DateLabels(yearly.index), Col(yearly, "Close"), ticker, yearly.index[i]))
  {
    divs.MakeNaive();
    var labels := DateLabels(yearly.index);
    var close := Col(yearly, "Close");
    var years := yearly.index;
    var probe := d => if Valid(d) then ProbeAsWritten(labels, close, ticker, d) else None;
    var col := DividendYieldColumn(years, divs.Dates(), divs.amounts, probe);
    r := SetColumn(SetObjectColumn(EmptyFrame(years), "Dividend Yield (%)", col), "Market Capitalization",
                   MarketCapColumn(info, |years|));
    assert "Dividend Yield (%)" != "Market Capitalization";
  }

  /** The same with the year-end row read by its date. */
  method CalculateMarketPerformanceRatiosByDate(yearly: Frame, divs: DividendSeries, info: Record)
    returns (r: Frame)
    requires WellFormed(yearly) && HasColumn(yearly, "Close") && |divs.index| == |divs.amounts|
    modifies divs
    ensures forall i :: 0 <= i < |divs.index| ==> divs.index[i].tz.None?
    ensures divs.Dates() == old(divs.Dates()) && divs.amounts == old(divs.amounts)
    ensures r.index == yearly.index
    ensures r.cols.keys == ["Dividend Yield (%)", "Market Capitalization"]
    ensures !r.cols.items["Dividend Yield (%)"].numeric && r.cols.items["Market Capitalization"].numeric
    ensures |r.cols.items["Dividend Yield (%)"].cells| == |yearly.index|
    ensures r.cols.items["Market Capitalization"].cells == MarketCapColumn(info, |yearly.index|)
    ensures forall i :: 0 <= i < |yearly.index| ==>
              r.cols.items["Dividend Yield (%)"].cells[i]
              == YieldCell(AnnualDividend(divs.Dates(), divs.amounts, yearly.index[i].year), Some(Col(yearly, "Close")[i]))
  {
    divs.MakeNaive();
    var close := Col(yearly, "Close");
    var years := yearly.index;
    var col := DividendYieldColumn(years, divs.Dates(), divs.amounts, d => ProbeByDate(years, close, d));
    forall i | 0 <= i < |years| ensures ProbeByDate(years, close, years[i]) == Some(close[i]) {
      var j := IndexOf(years, years[i]);
      assert j == i;
    }
    r := SetColumn(SetObjectColumn(EmptyFrame(years), "Dividend Yield (%)", col), "Market Capitalization",
                   MarketCapColumn(info, |years|));
    assert "Dividend Yield (%)" != "Market Capitalization";
  }

  /** The resampled yearly index: every label a date. */
  function DateLabels(dates: seq<Date>): (r: seq<Label>)
    ensures |r| == |dates| && forall i :: 0 <= i < |r| ==> r[i] == DateLabel(dates[i])
  {
    seq(|dates|, i requires 0 <= i < |dates| => DateLabel(dates[i]))
  }

  /** As written, the pair is never a label of a date index, so a year
      with a positive annual dividend keeps an empty (NaN) yield. */
  lemma AsWrittenYieldNeverComputed(yearEnds: seq<Date>, close: seq<Cell>, ticker: string, d: Date, annual: real)
    requires |close| == |yearEnds| && Valid(d) && annual > 0.0
    ensures ProbeAsWritten(DateLabels(yearEnds), close, ticker, d) == None
    ensures YieldCell(annual, ProbeAsWritten(DateLabels(yearEnds), close, ticker, d)) == NaN
  {
  }

  /** With the lookup by date, a year with a positive annual dividend and
      a finite non-zero close gets dividend / close * 100; a year without
      dividends gets 0. */
  lemma ByDateYield(annual: real, close: Cell)
    ensures annual <= 0.0 ==> YieldCell(annual, Some(close)) == Num(0.0)
    ensures annual > 0.0 && close.Num? && close.v != 0.0 ==>
              YieldCell(annual, Some(close)) == Num(annual / close.v * 100.0)
              && (close.v > 0.0 ==> YieldCell(annual, Some(close)).v > 0.0)
  {
    if annual > 0.0 && close.Num? && close.v > 0.0 {
      var q := annual / close.v;
      assert q > 0.0;
      assert q * 100.0 > 0.0;
    }
  }
}
