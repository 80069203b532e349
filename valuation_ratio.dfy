/** `valuation_ratio.py`: per-year valuation ratios. The price of a
    statement year is looked up under the integer year, `int(year)`. */
module ValuationRatio {
  import opened Py
  import opened YearlyTables

  /** `stock_prices.get(int(y))`: ValueError for a key that is not an integer. */
  function PriceOf(prices: Prices, y: string): Outcome<Option<real>> {
    match ParseInt(y)
    case None => Raise(ValueError)
    case Some(n) => Ok(Get(prices, IntKey(n)))
  }

  /** `num / den` for present operands; a zero denominator raises. */
  function Quotient(num: real, den: real): Outcome<Option<real>> {
    if den == 0.0 then Raise(ZeroDivisionError) else Ok(Some(num / den))
  }

  class ValuationRatios {
    const income: Statement
    const balance: Statement
    const prices: Prices

    constructor (data: Data)
      ensures income == GetOr(data.incomeStatement, EmptyDict())
      ensures balance == GetOr(data.balanceSheet, EmptyDict())
      ensures prices == GetOr(data.stockPrices, EmptyDict())
    {
      income := GetOr(data.incomeStatement, EmptyDict());
      balance := GetOr(data.balanceSheet, EmptyDict());
      prices := GetOr(data.stockPrices, EmptyDict());
    }

    /** One year of the P/E loop: price / Diluted EPS, EPS unchecked for zero. */
    function PeAt(y: string): Outcome<Option<real>> {
      match PriceOf(prices, y)
      case Raise(e) => Raise(e)
      case Ok(price) =>
        var eps := Line(income, y, "Diluted EPS");
        if price.Some? && eps.Some? then Quotient(price.value, eps.value) else Ok(None)
    }

    /** P/E = price / Diluted EPS over income-statement years. */
    method PeRatio() returns (r: Outcome<Table>)
      ensures r.Raise? <==> (exists y :: y in income.items && PeAt(y).Raise?)
      ensures r.Raise? ==> exists i :: 0 <= i < |income.keys| && PeAt(income.keys[i]) == Raise(r.error)
                                      && forall j :: 0 <= j < i ==> PeAt(income.keys[j]).Ok?
      ensures r.Ok? ==> forall y :: y in r.value.items <==> y in income.items && PeDefined(y)
      ensures r.Ok? ==> forall y :: y in r.value.items ==>
        PeDefined(y) && Line(income, y, "Diluted EPS").value != 0.0
        && r.value.items[y] == prices.items[IntKey(ParseInt(y).value)] / Line(income, y, "Diluted EPS").value
      ensures r.Ok? ==> Subsequence(r.value.keys, income.keys)
      ensures |prices.keys| == 0 && r.Ok? ==> r.value.keys == []
    {
      r := TabulateChecked(income.keys, PeAt);
      if r.Raise? {
        var i :| 0 <= i < |income.keys| && PeAt(income.keys[i]) == Raise(r.error);
      } else {
        PeTable(r.value);
      }
    }

    /** The P/E table of a run in which no year raised: exactly the years
        on which P/E is defined, each with its quotient. */
    lemma PeTable(t: Table)
      requires !exists i :: 0 <= i < |income.keys| && PeAt(income.keys[i]).Raise?
      requires forall k :: k in t.items <==> k in income.keys && PeAt(k).Ok? && PeAt(k).value.Some?
      requires forall k :: k in t.items ==> PeAt(k) == Ok(Some(t.items[k]))
      ensures forall y :: y in income.items ==> PeAt(y).Ok?
      ensures forall y :: y in t.items <==> y in income.items && PeDefined(y)
      ensures forall y :: y in t.items ==>
        PeDefined(y) && Line(income, y, "Diluted EPS").value != 0.0
        && t.items[y] == prices.items[IntKey(ParseInt(y).value)] / Line(income, y, "Diluted EPS").value
      ensures |prices.keys| == 0 ==> t.keys == []
    {
      CheckedOverStatement(income, PeAt, t);
      forall y | y in income.items
        ensures PeAt(y).value.Some? <==> PeDefined(y)
      {
        PeAtValue(y);
      }
      forall y | y in t.items
        ensures PeDefined(y)
        ensures t.items[y] == prices.items[IntKey(ParseInt(y).value)] / Line(income, y, "Diluted EPS").value
      {
        PeAtValue(y);
      }
      if t.keys != [] {
        assert t.keys[0] in t.items;
      }
    }

    /** The inputs of P/E for year y are there: an integer year with a price,
        and a Diluted EPS. */
    predicate PeDefined(y: string) {
      ParseInt(y).Some? && IntKey(ParseInt(y).value) in prices.items && Line(income, y, "Diluted EPS").Some?
    }

    /** What one non-raising step of the P/E loop inserts. */
    lemma PeAtValue(y: string)
      requires PeAt(y).Ok?
      ensures PeAt(y).value.Some? <==> PeDefined(y)
      ensures PeAt(y).value.Some? ==>
                Line(income, y, "Diluted EPS").value != 0.0
                && PeAt(y).value.value == prices.items[IntKey(ParseInt(y).value)] / Line(income, y, "Diluted EPS").value
    {
    }

    /** One year of the P/B loop: price / (equity / shares) for a positive
        share count; a zero equity makes the book value 0 and the division
        raise. */
    function PbAt(y: string): Outcome<Option<real>> {
      match PriceOf(prices, y)
      case Raise(e) => Raise(e)
      case Ok(price) =>
        var equity := Line(balance, y, "Stockholders Equity");
        var shares := Line(balance, y, "Ordinary Shares Number");
        if price.Some? && equity.Some? && shares.Some? && shares.value > 0.0
        then Quotient(price.value, equity.value / shares.value)
        else Ok(None)
    }

    /** P/B = price / book value per share over balance-sheet years. */
    method PbRatio() returns (r: Outcome<Table>)
      ensures r.Raise? <==> (exists y :: y in balance.items && PbAt(y).Raise?)
      ensures r.Raise? ==> exists i :: 0 <= i < |balance.keys| && PbAt(balance.keys[i]) == Raise(r.error)
                                      && forall j :: 0 <= j < i ==> PbAt(balance.keys[j]).Ok?
      ensures r.Ok? ==> forall y :: y in r.value.items <==> y in balance.items && PbDefined(y)
      ensures r.Ok? ==> forall y :: y in r.value.items ==>
        PbDefined(y) && Line(balance, y, "Stockholders Equity").value != 0.0
        && r.value.items[y] == prices.items[IntKey(ParseInt(y).value)]
                               / (Line(balance, y, "Stockholders Equity").value / Line(balance, y, "Ordinary Shares Number").value)
      ensures r.Ok? ==> Subsequence(r.value.keys, balance.keys)
      ensures |prices.keys| == 0 && r.Ok? ==> r.value.keys == []
    {
      r := TabulateChecked(balance.keys, PbAt);
      if r.Raise? {
        var i :| 0 <= i < |balance.keys| && PbAt(balance.keys[i]) == Raise(r.error);
      } else {
        PbTable(r.value);
      }
    }

    /** The P/B table of a run in which no year raised: exactly the years
        on which P/B is defined, each with its quotient. */
    lemma PbTable(t: Table)
      requires !exists i :: 0 <= i < |balance.keys| && PbAt(balance.keys[i]).Raise?
      requires forall k :: k in t.items <==> k in balance.keys && PbAt(k).Ok? && PbAt(k).value.Some?
      requires forall k :: k in t.items ==> PbAt(k) == Ok(Some(t.items[k]))
      ensures forall y :: y in balance.items ==> PbAt(y).Ok?
      ensures forall y :: y in t.items <==> y in balance.items && PbDefined(y)
      ensures forall y :: y in t.items ==>
        PbDefined(y) && Line(balance, y, "Stockholders Equity").value != 0.0
        && t.items[y] == prices.items[IntKey(ParseInt(y).value)]
                         / (Line(balance, y, "Stockholders Equity").value / Line(balance, y, "Ordinary Shares Number").value)
      ensures |prices.keys| == 0 ==> t.keys == []
    {
      CheckedOverStatement(balance, PbAt, t);
      forall y | y in balance.items
        ensures PbAt(y).value.Some? <==> PbDefined(y)
      {
        PbAtValue(y);
      }
      forall y | y in t.items
        ensures PbDefined(y) && Line(balance, y, "Stockholders Equity").value != 0.0
        ensures t.items[y] == prices.items[IntKey(ParseInt(y).value)]
                             / (Line(balance, y, "Stockholders Equity").value / Line(balance, y, "Ordinary Shares Number").value)
      {
        PbAtValue(y);
      }
      if t.keys != [] {
        assert t.keys[0] in t.items;
      }
    }

    /** The inputs of P/B for year y are there: an integer year with a price,
        an equity and a positive share count. */
    predicate PbDefined(y: string) {
      ParseInt(y).Some? && IntKey(ParseInt(y).value) in prices.items
      && Line(balance, y, "Stockholders Equity").Some?
      && Line(balance, y, "Ordinary Shares Number").Some? && Line(balance, y, "Ordinary Shares Number").value > 0.0
    }

    /** What one non-raising step of the P/B loop inserts. */
    lemma PbAtValue(y: string)
      requires PbAt(y).Ok?
      ensures PbAt(y).value.Some? <==> PbDefined(y)
      ensures PbAt(y).value.Some? ==>
                Line(balance, y, "Stockholders Equity").value != 0.0
                && PbAt(y).value.value == prices.items[IntKey(ParseInt(y).value)]
                     / (Line(balance, y, "Stockholders Equity").value / Line(balance, y, "Ordinary Shares Number").value)
    {
    }

    /** Enterprise value of year y = price * shares + Total Debt - Cash,
        when all four are present. */
    function EnterpriseValue(price: real, y: string): Option<real> {
      var shares := Line(balance, y, "Ordinary Shares Number");
      var debt := Line(balance, y, "Total Debt");
      var cash := Line(balance, y, "Cash And Cash Equivalents");
      if shares.Some? && debt.Some? && cash.Some? then Some(price * shares.value + debt.value - cash.value) else None
    }

    /** One year of the EV/EBITDA loop. */
    function EvEbitdaAt(y: string): Outcome<Option<real>> {
      match PriceOf(prices, y)
      case Raise(e) => Raise(e)
      case Ok(price) =>
        var ebitda := Line(income, y, "EBITDA");
        if price.Some? && EnterpriseValue(price.value, y).Some? && ebitda.Some?
        then Quotient(EnterpriseValue(price.value, y).value, ebitda.value)
        else Ok(None)
    }

    /** EV/EBITDA over income-statement years, EBITDA unchecked for zero. */
    method EvEbitdaRatio() returns (r: Outcome<Table>)
      ensures r.Raise? <==> (exists y :: y in income.items && EvEbitdaAt(y).Raise?)
      ensures r.Raise? ==> exists i :: 0 <= i < |income.keys| && EvEbitdaAt(income.keys[i]) == Raise(r.error)
                                      && forall j :: 0 <= j < i ==> EvEbitdaAt(income.keys[j]).Ok?
      ensures r.Ok? ==> forall y :: y in r.value.items <==> y in income.items && EvEbitdaDefined(y)
      ensures r.Ok? ==> forall y :: y in r.value.items ==>
        EvEbitdaDefined(y) && Line(income, y, "EBITDA").value != 0.0
        && r.value.items[y] == EnterpriseValue(prices.items[IntKey(ParseInt(y).value)], y).value
                               / Line(income, y, "EBITDA").value
      ensures r.Ok? ==> Subsequence(r.value.keys, income.keys)
      ensures |prices.keys| == 0 && r.Ok? ==> r.value.keys == []
    {
      r := TabulateChecked(income.keys, EvEbitdaAt);
      if r.Raise? {
        var i :| 0 <= i < |income.keys| && EvEbitdaAt(income.keys[i]) == Raise(r.error);
      } else {
        EvEbitdaTable(r.value);
      }
    }

    /** The EV/EBITDA table of a run in which no year raised: exactly the
        years on which EV/EBITDA is defined, each with its quotient. */
    lemma EvEbitdaTable(t: Table)
      requires !exists i :: 0 <= i < |income.keys| && EvEbitdaAt(income.keys[i]).Raise?
      requires forall k :: k in t.items <==> k in income.keys && EvEbitdaAt(k).Ok? && EvEbitdaAt(k).value.Some?
      requires forall k :: k in t.items ==> EvEbitdaAt(k) == Ok(Some(t.items[k]))
      ensures forall y :: y in income.items ==> EvEbitdaAt(y).Ok?
      ensures forall y :: y in t.items <==> y in income.items && EvEbitdaDefined(y)
      ensures forall y :: y in t.items ==>
        EvEbitdaDefined(y) && Line(income, y, "EBITDA").value != 0.0
        && t.items[y] == EnterpriseValue(prices.items[IntKey(ParseInt(y).value)], y).value
                         / Line(income, y, "EBITDA").value
      ensures |prices.keys| == 0 ==> t.keys == []
    {
      CheckedOverStatement(income, EvEbitdaAt, t);
      forall y | y in income.items
        ensures EvEbitdaAt(y).value.Some? <==> EvEbitdaDefined(y)
      {
        EvEbitdaAtValue(y);
      }
      forall y | y in t.items
        ensures EvEbitdaDefined(y) && Line(income, y, "EBITDA").value != 0.0
        ensures t.items[y] == EnterpriseValue(prices.items[IntKey(ParseInt(y).value)], y).value
                             / Line(income, y, "EBITDA").value
      {
        EvEbitdaAtValue(y);
      }
      if t.keys != [] {
        assert t.keys[0] in t.items;
      }
    }

    /** The inputs of EV/EBITDA for year y are there: an integer year with a
        price, an enterprise value and an EBITDA. */
    predicate EvEbitdaDefined(y: string) {
      ParseInt(y).Some? && IntKey(ParseInt(y).value) in prices.items
      && EnterpriseValue(prices.items[IntKey(ParseInt(y).value)], y).Some? && Line(income, y, "EBITDA").Some?
    }

    /** What one non-raising step of the EV/EBITDA loop inserts. */
    lemma EvEbitdaAtValue(y: string)
      requires EvEbitdaAt(y).Ok?
      ensures EvEbitdaAt(y).value.Some? <==> EvEbitdaDefined(y)
      ensures EvEbitdaAt(y).value.Some? ==>
                Line(income, y, "EBITDA").value != 0.0
                && EvEbitdaAt(y).value.value == EnterpriseValue(prices.items[IntKey(ParseInt(y).value)], y).value
                                                / Line(income, y, "EBITDA").value
    {
    }
  }
}
