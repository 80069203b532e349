/** The per-year ratio loop shared by the dict-based calculators: walk the
    period keys of a statement in order and insert a ratio for every period
    on which it is defined. */
module YearlyTables {
  import opened Py

  /** A ratio table: period key to ratio, in insertion order. */
  type Table = Dict<string, real>

  /** Year-keyed prices, as `get_yearly_stock_price` builds them (int keys)
      or as a caller supplies them. */
  type Prices = Dict<Key, real>

  /** The `data` dict handed to every calculator class; an absent key is
      None. */
  datatype Data = Data(
    incomeStatement: Option<Statement>,
    balanceSheet: Option<Statement>,
    stockPrices: Option<Prices>,
    stockPrice: Option<Prices>)

  /** `data.get(key, default)`. */
  function GetOr<T>(o: Option<T>, default: T): T {
    if o.Some? then o.value else default
  }

  /** `num / den` under the guard `num is not None and den`. */
  function Ratio(num: Option<real>, den: Option<real>): Option<real> {
    if num.Some? && Truthy(den) then Some(num.value / den.value) else None
  }

  /** `num / den * 100` under the same guard. */
  function Percent(num: Option<real>, den: Option<real>): Option<real> {
    if num.Some? && Truthy(den) then Some(num.value / den.value * 100.0) else None
  }

  /** The loop state after the keys `prefix`: exactly the keys on which
      `cell` is defined, with their values, in key order. */
  ghost predicate TabulatedBy(r: Table, prefix: seq<string>, cell: string -> Option<real>) {
    (forall k :: k in r.items <==> k in prefix && cell(k).Some?)
    && (forall k :: k in r.items ==> cell(k) == Some(r.items[k]))
    && Subsequence(r.keys, prefix)
  }

  /** One iteration of the loop keeps the state in step with the keys. */
  lemma TabulateStep(r: Table, prefix: seq<string>, k: string, cell: string -> Option<real>)
    requires TabulatedBy(r, prefix, cell) && k !in prefix
    ensures cell(k).Some? ==> TabulatedBy(Assign(r, k, cell(k).value), prefix + [k], cell)
    ensures cell(k).None? ==> TabulatedBy(r, prefix + [k], cell)
  {
    assert k !in r.items;
    SubsequenceAppend(r.keys, prefix, k);
  }

  /** `for k in keys: v = cell(k); if v is defined: table[k] = v`. */
  method Tabulate(keys: seq<string>, cell: string -> Option<real>) returns (r: Table)
    requires Distinct(keys)
    ensures forall k :: k in r.items <==> k in keys && cell(k).Some?
    ensures forall k :: k in r.items ==> cell(k) == Some(r.items[k])
    ensures Subsequence(r.keys, keys)
  {
    r := EmptyDict();
    var i := 0;
    while i < |keys|
      invariant 0 <= i <= |keys|
      invariant TabulatedBy(r, keys[..i], cell)
    {
      var k := keys[i];
      assert keys[..i + 1] == keys[..i] + [k];
      assert k !in keys[..i];
      TabulateStep(r, keys[..i], k, cell);
      if cell(k).Some? {
        r := Assign(r, k, cell(k).value);
      }
      i := i + 1;
    }
    assert keys[..i] == keys;
  }

  /** A checked cell read as a plain one: a raising key has no value. */
  function Plain(cell: string -> Outcome<Option<real>>): string -> Option<real> {
    k => if cell(k).Ok? then cell(k).value else None
  }

  /** The loop state of the checked loop after the keys `prefix`, none of
      which raised. */
  ghost predicate CheckedBy(t: Table, prefix: seq<string>, cell: string -> Outcome<Option<real>>) {
    (forall j :: 0 <= j < |prefix| ==> cell(prefix[j]).Ok?)
    && TabulatedBy(t, prefix, Plain(cell))
  }

  /** One non-raising iteration of the checked loop. */
  lemma CheckedStep(t: Table, prefix: seq<string>, k: string, cell: string -> Outcome<Option<real>>)
    requires CheckedBy(t, prefix, cell) && k !in prefix && cell(k).Ok?
    ensures cell(k).value.Some? ==> CheckedBy(Assign(t, k, cell(k).value.value), prefix + [k], cell)
    ensures cell(k).value.None? ==> CheckedBy(t, prefix + [k], cell)
  {
    var p := prefix + [k];
    forall j | 0 <= j < |p| ensures cell(p[j]).Ok? {
      if j < |prefix| {
        assert p[j] == prefix[j];
      }
    }
    TabulateStep(t, prefix, k, Plain(cell));
  }

  /** The checked loop over a statement's periods, read in terms of the
      statement: when no period raised, every period's cell is a value,
      and the table holds exactly the periods whose value is defined. */
  lemma CheckedOverStatement(st: Statement, cell: string -> Outcome<Option<real>>, t: Table)
    requires !exists i :: 0 <= i < |st.keys| && cell(st.keys[i]).Raise?
    requires forall k :: k in t.items <==> k in st.keys && cell(k).Ok? && cell(k).value.Some?
    ensures forall y :: y in st.items ==> cell(y).Ok?
    ensures forall y :: y in t.items <==> y in st.items && cell(y).Ok? && cell(y).value.Some?
  {
    forall y | y in st.items ensures cell(y).Ok? {
      var i := IndexOf(st.keys, y);
    }
  }

  /** The same loop when computing a cell can raise: the first raising key,
      in order, ends the loop with its exception. */
  method TabulateChecked(keys: seq<string>, cell: string -> Outcome<Option<real>>) returns (r: Outcome<Table>)
    requires Distinct(keys)
    ensures r.Raise? <==> exists i :: 0 <= i < |keys| && cell(keys[i]).Raise?
    ensures r.Raise? ==> exists i :: 0 <= i < |keys| && cell(keys[i]) == Raise(r.error)
                                    && forall j :: 0 <= j < i ==> cell(keys[j]).Ok?
    ensures r.Ok? ==> forall k :: k in r.value.items <==> k in keys && cell(k).Ok? && cell(k).value.Some?
    ensures r.Ok? ==> forall k :: k in r.value.items ==> cell(k) == Ok(Some(r.value.items[k]))
    ensures r.Ok? ==> Subsequence(r.value.keys, keys)
  {
    var t: Table := EmptyDict();
    var i := 0;
    while i < |keys|
      invariant 0 <= i <= |keys|
      invariant CheckedBy(t, keys[..i], cell)
    {
      var k := keys[i];
      if cell(k).Raise? {
        assert forall j :: 0 <= j < i ==> cell(keys[j]).Ok? by {
          forall j | 0 <= j < i ensures cell(keys[j]).Ok? {
            assert keys[..i][j] == keys[j];
          }
        }
        return Raise(cell(k).error);
      }
      assert keys[..i + 1] == keys[..i] + [k];
      assert k !in keys[..i];
      CheckedStep(t, keys[..i], k, cell);
      if cell(k).value.Some? {
        t := Assign(t, k, cell(k).value.value);
      }
      i := i + 1;
    }
    assert keys[..i] == keys;
    return Ok(t);
  }
}
