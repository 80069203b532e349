/** `market_performance_ratio.py`: per-year dividend yield and market
    capitalisation. The price of a statement year is looked up with the
    statement's own key, a string, while the yearly price table that
    `get_yearly_stock_price` builds is keyed by integer years. */
module MarketPerformanceRatio {
  import opened Py
  import opened YearlyTables

  /** `stock_price.get(year, None)` with the string key unchanged. */
  function PriceByKey(prices: Prices, y: string): Option<real> {
    Get(prices, StrKey(y))
  }

  /** The evidently intended lookup, as `valuation_ratio.py` does it: the
      price stored under the integer year `int(y)`; a key that is not an
      integer finds no price. */
  function PriceByYear(prices: Prices, y: string): Option<real> {
    match ParseInt(y)
    case None => None
    case Some(n) => Get(prices, IntKey(n))
  }

  /** `dps / price * 100` under `dps is not None and price is not None and
      price > 0`. */
  function DividendYieldOf(dps: Option<real>, price: Option<real>): Option<real> {
    if dps.Some? && price.Some? && price.value > 0.0 then Some(dps.value / price.value * 100.0) else None
  }

  /** `price * shares` when both are present; no sign or zero check. */
  function MarketCapOf(price: Option<real>, shares: Option<real>): Option<real> {
    if price.Some? && shares.Some? then Some(price.value * shares.value) else None
  }

  lemma MarketCapValue(price: Option<real>, shares: Option<real>, v: real)
    requires MarketCapOf(price, shares) == Some(v)
    ensures price.Some? && shares.Some? && v == price.value * shares.value
  {
  }

  /** A price table keyed only by integer years, as `get_yearly_stock_price`
      returns it. */
  predicate YearKeyed(prices: Prices) {
    forall k :: k in prices.items ==> k.IntKey?
  }

  /** A string key never finds an entry of an integer-keyed price table. */
  lemma StringKeyMissesYearKeyedPrices(prices: Prices, y: string)
    requires YearKeyed(prices)
    ensures PriceByKey(prices, y) == None
  {
  }

  /** The integer-year lookup finds, for a key written by `str(n)`, exactly
      the price of year n. */
  lemma PriceByYearFindsYearPrice(prices: Prices, n: int)
    ensures PriceByYear(prices, IntToString(n)) == Get(prices, IntKey(n))
  {
    IntStringRoundTrip(n);
  }

  /** A concrete case: year "2023" with a dividend of 10 per share and the
      2023 price 200 stored under the integer 2023. The string lookup gives
      no yield; the integer-year lookup gives 5%. */
  lemma DividendYieldMissesIntegerYear()
    ensures var prices: Prices := DictRep([IntKey(2023)], map[IntKey(2023) := 200.0]);
            DividendYieldOf(Some(10.0), PriceByKey(prices, "2023")) == None
            && DividendYieldOf(Some(10.0), PriceByYear(prices, "2023")) == Some(5.0)
  {
    var prices: Prices := DictRep([IntKey(2023)], map[IntKey(2023) := 200.0]);
    assert "2023"[..3] == "202" && "202"[..2] == "20" && "20"[..1] == "2";
    assert ParseDigits("2023") == Some(2023);
    assert PriceByYear(prices, "2023") == Some(200.0);
  }

  class MarketPerformanceRatios {
    const income: Statement
    const balance: Statement
    const stockPrice: Prices

    /** `data.get("stock_price", fetched)`: the yearly prices fetched for the
        ticker are used only when the data carries none. */
    constructor (data: Data, fetched: Prices)
      ensures stockPrice == GetOr(data.stockPrice, fetched)
      ensures balance == GetOr(data.balanceSheet, EmptyDict())
      ensures income == GetOr(data.incomeStatement, EmptyDict())
    {
      stockPrice := GetOr(data.stockPrice, fetched);
      balance := GetOr(data.balanceSheet, EmptyDict());
      income := GetOr(data.incomeStatement, EmptyDict());
    }

    /** Dividend yield (%) = Dividends Per Share / price * 100 over
        income-statement years, the price looked up under the string key. */
    method DividendYield() returns (r: Table)
      ensures forall y :: y in r.items <==>
        y in income.items && Line(income, y, "Dividends Per Share").Some?
        && StrKey(y) in stockPrice.items && stockPrice.items[StrKey(y)] > 0.0
      ensures forall y :: y in r.items ==>
        Line(income, y, "Dividends Per Share").Some? && StrKey(y) in stockPrice.items
        && r.items[y] == Line(income, y, "Dividends Per Share").value / stockPrice.items[StrKey(y)] * 100.0
      ensures Subsequence(r.keys, income.keys)
      ensures YearKeyed(stockPrice) ==> r.keys == []
    {
      r := Tabulate(income.keys, y => DividendYieldOf(Line(income, y, "Dividends Per Share"), PriceByKey(stockPrice, y)));
      if YearKeyed(stockPrice) && r.keys != [] {
        assert r.keys[0] in r.items;
        StringKeyMissesYearKeyedPrices(stockPrice, r.keys[0]);
      }
    }

    /** Market capitalisation = price * Ordinary Shares Number over
        balance-sheet years, the price looked up under the string key. */
    method MarketCapitalization() returns (r: Table)
      ensures forall y :: y in r.items <==>
        y in balance.items && StrKey(y) in stockPrice.items && Line(balance, y, "Ordinary Shares Number").Some?
      ensures forall y :: y in r.items ==>
        StrKey(y) in stockPrice.items && Line(balance, y, "Ordinary Shares Number").Some?
        && r.items[y] == stockPrice.items[StrKey(y)] * Line(balance, y, "Ordinary Shares Number").value
      ensures Subsequence(r.keys, balance.keys)
      ensures YearKeyed(stockPrice) ==> r.keys == []
    {
      r := Tabulate(balance.keys, y => MarketCapOf(PriceByKey(stockPrice, y), Line(balance, y, "Ordinary Shares Number")));
      MarketCapByKeyValues(r);
    }

    lemma MarketCapByKeyValues(t: Table)
      requires forall y :: y in t.items ==>
        MarketCapOf(PriceByKey(stockPrice, y), Line(balance, y, "Ordinary Shares Number")) == Some(t.items[y])
      ensures forall y :: y in t.items ==>
        StrKey(y) in stockPrice.items && Line(balance, y, "Ordinary Shares Number").Some?
        && t.items[y] == stockPrice.items[StrKey(y)] * Line(balance, y, "Ordinary Shares Number").value
    {
      forall y | y in t.items
        ensures StrKey(y) in stockPrice.items && Line(balance, y, "Ordinary Shares Number").Some?
        ensures t.items[y] == stockPrice.items[StrKey(y)] * Line(balance, y, "Ordinary Shares Number").value
      {
        MarketCapValue(PriceByKey(stockPrice, y), Line(balance, y, "Ordinary Shares Number"), t.items[y]);
        assert PriceByKey(stockPrice, y).value == stockPrice.items[StrKey(y)];
      }
    }

    /** Dividend yield with the price of the integer year: every year written
        as `str(n)` whose dividend and positive price are there gets a yield. */
    method DividendYieldByYear() returns (r: Table)
      ensures forall y :: y in r.items <==>
        y in income.items && DividendYieldOf(Line(income, y, "Dividends Per Share"), PriceByYear(stockPrice, y)).Some?
      ensures forall n: int :: IntToString(n) in income.items && Line(income, IntToString(n), "Dividends Per Share").Some?
                               && IntKey(n) in stockPrice.items && stockPrice.items[IntKey(n)] > 0.0
                               ==> IntToString(n) in r.items
                                   && r.items[IntToString(n)]
                                      == Line(income, IntToString(n), "Dividends Per Share").value / stockPrice.items[IntKey(n)] * 100.0
      ensures Subsequence(r.keys, income.keys)
    {
      r := Tabulate(income.keys, y => DividendYieldOf(Line(income, y, "Dividends Per Share"), PriceByYear(stockPrice, y)));
      forall n: int | IntToString(n) in income.items && Line(income, IntToString(n), "Dividends Per Share").Some?
                      && IntKey(n) in stockPrice.items && stockPrice.items[IntKey(n)] > 0.0
        ensures IntToString(n) in r.items
        ensures r.items[IntToString(n)]
                == Line(income, IntToString(n), "Dividends Per Share").value / stockPrice.items[IntKey(n)] * 100.0
      {
        PriceByYearFindsYearPrice(stockPrice, n);
      }
    }

    /** Market capitalisation with the price of the integer year: every
        year written as `str(n)` with a price and a share count gets one. */
    method MarketCapitalizationByYear() returns (r: Table)
      ensures forall y :: y in r.items <==>
        y in balance.items && PriceByYear(stockPrice, y).Some? && Line(balance, y, "Ordinary Shares Number").Some?
      ensures forall n: int :: IntToString(n) in balance.items && IntKey(n) in stockPrice.items
                               && Line(balance, IntToString(n), "Ordinary Shares Number").Some?
                               ==> IntToString(n) in r.items
                                   && r.items[IntToString(n)]
                                      == stockPrice.items[IntKey(n)] * Line(balance, IntToString(n), "Ordinary Shares Number").value
      ensures Subsequence(r.keys, balance.keys)
    {
      r := Tabulate(balance.keys, y => MarketCapOf(PriceByYear(stockPrice, y), Line(balance, y, "Ordinary Shares Number")));
      MarketCapByYearValues(r);
    }

    lemma MarketCapByYearValues(t: Table)
      requires forall y :: y in t.items <==>
        y in balance.items && MarketCapOf(PriceByYear(stockPrice, y), Line(balance, y, "Ordinary Shares Number")).Some?
      requires forall y :: y in t.items ==>
        MarketCapOf(PriceByYear(stockPrice, y), Line(balance, y, "Ordinary Shares Number")) == Some(t.items[y])
      ensures forall n: int :: IntToString(n) in balance.items && IntKey(n) in stockPrice.items
                               && Line(balance, IntToString(n), "Ordinary Shares Number").Some?
                               ==> IntToString(n) in t.items
                                   && t.items[IntToString(n)]
                                      == stockPrice.items[IntKey(n)] * Line(balance, IntToString(n), "Ordinary Shares Number").value
    {
      forall n: int | IntToString(n) in balance.items && IntKey(n) in stockPrice.items
                      && Line(balance, IntToString(n), "Ordinary Shares Number").Some?
        ensures IntToString(n) in t.items
        ensures t.items[IntToString(n)]
                == stockPrice.items[IntKey(n)] * Line(balance, IntToString(n), "Ordinary Shares Number").value
      {
        var y := IntToString(n);
        var shares := Line(balance, y, "Ordinary Shares Number");
        PriceByYearFindsYearPrice(stockPrice, n);
        assert PriceByYear(stockPrice, y) == Some(stockPrice.items[IntKey(n)]);
        assert shares.Some?;
        assert PriceByYear(stockPrice, y).Some?;
        assert MarketCapOf(PriceByYear(stockPrice, y), shares).Some?;
        assert y in t.items;
      }
    }
  }
}
