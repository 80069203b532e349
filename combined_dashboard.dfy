/** `combined_dashboard.py`: the rules behind the dashboard, that is which
    ratio columns are charted and summarised, the summary row of a column
    (latest value, average, trend), the benchmark comparison cells with
    their "N/A" entries, the chart file names and category keys, and the
    isolation of benchmarks whose computation fails. */
module CombinedDashboard {
  import opened Py
  import opened Cells

  // ---------------------------------------------------------------------
  // Which columns are charted and summarised
  // ---------------------------------------------------------------------

  /** `not series.isnull().all()`: some cell is not NaN. */
  predicate HasValue(cells: seq<Cell>) {
    exists i :: 0 <= i < |cells| && !cells[i].NaN?
  }

  /** `is_numeric_dtype(ratios[c]) and not ratios[c].isnull().all()`. */
  predicate Charted(f: Frame, name: string) {
    HasColumn(f, name) && f.cols.items[name].numeric && HasValue(Col(f, name))
  }

  /** The charted columns among `names`, in their order. */
  function ChartedAmong(f: Frame, names: seq<string>): (r: seq<string>)
    requires Distinct(names)
    ensures forall c :: c in r <==> c in names && Charted(f, c)
    ensures Subsequence(r, names)
  {
    if names == [] then []
    else
      var n := |names| - 1;
      var rest := ChartedAmong(f, names[..n]);
      assert rest != [] ==> rest[|rest| - 1] != names[n] by {
        if rest != [] {
          assert rest[|rest| - 1] in rest;
        }
      }
      if Charted(f, names[n]) then
        assert (rest + [names[n]])[..|rest|] == rest;
        rest + [names[n]]
      else
        rest
  }

  /** The columns both loops visit: the frame's charted columns in column
      order. */
  function ChartedColumns(f: Frame): (r: seq<string>)
    ensures forall c :: c in r <==> HasColumn(f, c) && Charted(f, c)
    ensures Subsequence(r, f.cols.keys)
  {
    ChartedAmong(f, f.cols.keys)
  }

  // ---------------------------------------------------------------------
  // Average of a column
  // ---------------------------------------------------------------------

  /** Sum of the non-NaN cells (pandas skips NaN). */
  function NonNullSum(cells: seq<Cell>): Cell {
    if cells == [] then Num(0.0)
    else
      var n := |cells| - 1;
      if cells[n].NaN? then NonNullSum(cells[..n]) else Add(NonNullSum(cells[..n]), cells[n])
  }

  function NonNullCount(cells: seq<Cell>): nat {
    if cells == [] then 0
    else
      var n := |cells| - 1;
      NonNullCount(cells[..n]) + if cells[n].NaN? then 0 else 1
  }

  /** `series.mean()`: the sum of the non-NaN cells over their count, NaN
      when there are none. */
  function Mean(cells: seq<Cell>): Cell {
    Div(NonNullSum(cells), Num(NonNullCount(cells) as real))
  }

  lemma {:induction false} SumBounds(cells: seq<Cell>, lo: real, hi: real)
    requires forall i :: 0 <= i < |cells| ==> cells[i].Num? && lo <= cells[i].v <= hi
    ensures NonNullCount(cells) == |cells| && NonNullSum(cells).Num?
    ensures |cells| as real * lo <= NonNullSum(cells).v <= |cells| as real * hi
  {
    if cells != [] {
      var n := |cells| - 1;
      SumBounds(cells[..n], lo, hi);
      assert (n + 1) as real * lo == n as real * lo + lo;
      assert (n + 1) as real * hi == n as real * hi + hi;
    }
  }

  lemma QuotientBetween(s: real, n: real, lo: real, hi: real)
    requires n > 0.0 && n * lo <= s <= n * hi
    ensures lo <= s / n <= hi
  {
    var q := s / n;
    assert q * n == s;
    assert (q - lo) * n >= 0.0;
    assert (hi - q) * n >= 0.0;
  }

  /** The average of a column of finite values lies between their bounds. */
  lemma MeanBounds(cells: seq<Cell>, lo: real, hi: real)
    requires |cells| > 0
    requires forall i :: 0 <= i < |cells| ==> cells[i].Num? && lo <= cells[i].v <= hi
    ensures Mean(cells).Num? && lo <= Mean(cells).v <= hi
  {
    SumBounds(cells, lo, hi);
    QuotientBetween(NonNullSum(cells).v, |cells| as real, lo, hi);
  }

  // ---------------------------------------------------------------------
  // Trend
  // ---------------------------------------------------------------------

  datatype Trend = Improving | Declining | Stable | NotApplicable

  /** The rule as written: with more than one row, Improving when the
      latest value exceeds 1.05 times the first, Declining when it is below
      0.95 times the first, Stable otherwise; "N/A" with one row. */
  function TrendAsWritten(rows: nat, first: Cell, latest: Cell): Trend {
    if rows > 1 then
      if Gt(latest, Scale(first, 1.05)) then Improving
      else if Gt(Scale(first, 0.95), latest) then Declining
      else Stable
    else NotApplicable
  }

  /** The 5% band around the first value, whatever its sign. */
  function TrendOf(rows: nat, first: Cell, latest: Cell): Trend {
    if rows > 1 then
      var band := Scale(Abs(first), 0.05);
      if Gt(latest, Add(first, band)) then Improving
      else if Gt(Sub(first, band), latest) then Declining
      else Stable
    else NotApplicable
  }

  /** On finite values the trend is Improving exactly when the latest
      value is more than 5% of |first| above the first, Declining exactly
      when it is that far below, and so an Improving trend is a rise and a
      Declining one a fall; with one row it is "N/A". */
  lemma TrendMeaning(rows: nat, x: real, y: real)
    ensures rows <= 1 ==> TrendOf(rows, Num(x), Num(y)) == NotApplicable
    ensures var m := if x < 0.0 then -x else x;
            rows > 1 ==>
              (TrendOf(rows, Num(x), Num(y)) == Improving <==> y > x + m * 0.05)
              && (TrendOf(rows, Num(x), Num(y)) == Declining <==> y < x - m * 0.05)
    ensures TrendOf(rows, Num(x), Num(y)) == Improving ==> y > x
    ensures TrendOf(rows, Num(x), Num(y)) == Declining ==> y < x
  {
  }

  /** On finite values the rule as written reports Improving exactly when
      the latest value exceeds 1.05 times the first, Declining exactly when
      it does not and is below 0.95 times the first, and Stable otherwise. */
  lemma TrendAsWrittenMeaning(rows: nat, x: real, y: real)
    ensures rows <= 1 ==> TrendAsWritten(rows, Num(x), Num(y)) == NotApplicable
    ensures rows > 1 ==>
              (TrendAsWritten(rows, Num(x), Num(y)) == Improving <==> y > x * 1.05)
              && (TrendAsWritten(rows, Num(x), Num(y)) == Declining <==> !(y > x * 1.05) && y < x * 0.95)
              && (TrendAsWritten(rows, Num(x), Num(y)) == Stable <==> !(y > x * 1.05) && !(y < x * 0.95))
  {
  }

  /** For a non-negative first value the rule as written is that rule. */
  lemma TrendAsWrittenForNonNegativeFirst(rows: nat, x: real, latest: Cell)
    requires x >= 0.0
    ensures TrendAsWritten(rows, Num(x), latest) == TrendOf(rows, Num(x), latest)
  {
    assert Scale(Num(x), 1.05) == Add(Num(x), Scale(Abs(Num(x)), 0.05));
    assert Scale(Num(x), 0.95) == Sub(Num(x), Scale(Abs(Num(x)), 0.05));
  }

  /** As written, for a negative first value the thresholds swap sides: a
      latest value up to 5% below the first is reported Improving. */
  lemma TrendAsWrittenInvertedForNegativeFirst(x: real, y: real)
    requires x < 0.0 && x * 1.05 < y < x
    ensures TrendAsWritten(2, Num(x), Num(y)) == Improving
    ensures TrendOf(2, Num(x), Num(y)) == Stable
  {
  }

  // ---------------------------------------------------------------------
  // Summary table of one category
  // ---------------------------------------------------------------------

  datatype SummaryRow = SummaryRow(ratio: string, latest: Cell, average: Cell, trend: Trend)

  /** The summary row of a charted column: its last cell, its mean and the
      trend from its first to its last cell over the frame's rows. */
  function Summary(f: Frame, name: string): (r: SummaryRow)
    requires WellFormed(f) && Charted(f, name)
  {
    var cells := Col(f, name);
    SummaryRow(name, cells[|cells| - 1], Mean(cells), TrendAsWritten(|f.index|, cells[0], cells[|cells| - 1]))
  }

  /** The summary row with the 5% band around |first|, as the thresholds
      evidently intend. */
  function SummaryByBand(f: Frame, name: string): SummaryRow
    requires WellFormed(f) && Charted(f, name)
  {
    var cells := Col(f, name);
    SummaryRow(name, cells[|cells| - 1], Mean(cells), TrendOf(|f.index|, cells[0], cells[|cells| - 1]))
  }

  /** The two summaries differ at most in the trend, and not at all when the
      first value is a non-negative number. */
  lemma SummaryByBandAgrees(f: Frame, name: string)
    requires WellFormed(f) && Charted(f, name)
    ensures var (a, b) := (Summary(f, name), SummaryByBand(f, name));
            a.ratio == b.ratio && a.latest == b.latest && a.average == b.average
    ensures Col(f, name)[0].Num? && Col(f, name)[0].v >= 0.0 ==> Summary(f, name) == SummaryByBand(f, name)
  {
    var cells := Col(f, name);
    if cells[0].Num? && cells[0].v >= 0.0 {
      TrendAsWrittenForNonNegativeFirst(|f.index|, cells[0].v, cells[|cells| - 1]);
    }
  }

  /** A charted column has a last cell, and its summary row keeps the
      column's name. */
  lemma SummaryOfCharted(f: Frame, name: string)
    requires WellFormed(f) && Charted(f, name)
    ensures |Col(f, name)| > 0 && |f.index| > 0
    ensures Summary(f, name).ratio == name && Summary(f, name).latest == Col(f, name)[|f.index| - 1]
    ensures |f.index| == 1 ==> Summary(f, name).trend == NotApplicable
  {
  }

  /** `os.path.join(directory, file)`. */
  function Join(directory: string, file: string): string {
    directory + "/" + file
  }

  datatype Section = Section(title: string, rows: seq<SummaryRow>, charts: seq<string>)

  /** One category of the summary report: nothing for an empty frame;
      otherwise a row for every charted column and a link to the chart of
      every column whose file exists (`chartExists` stands for
      `os.path.exists` under the output directory). Computing the category key may raise. */
  method CategorySection(title: string, f: Frame, chartExists: string -> bool) returns (s: Outcome<Option<Section>>)
    requires WellFormed(f)
    ensures Empty(f) ==> s == Ok(None)
    ensures !Empty(f) ==> (s.Raise? <==> CategoryKey(title).Raise?)
    ensures s.Raise? ==> s.error == IndexError
    ensures s.Ok? && s.value.Some? ==>
              var sec := s.value.value;
              sec.title == title
              && |sec.rows| == |ChartedColumns(f)|
              && forall i :: 0 <= i < |sec.rows| ==> sec.rows[i] == Summary(f, ChartedColumns(f)[i])
    ensures s.Ok? && s.value.Some? ==>
              var key := CategoryKey(title).value;
              forall p :: p in s.value.value.charts <==>
                exists c :: c in f.cols.keys && p == Join(key, ChartFileName(c)) && chartExists(p)
  {
    if Empty(f) {
      return Ok(None);
    }
    var rows := SummaryRows(f);
    var key := CategoryKey(title);
    if key.Raise? {
      return Raise(key.error);
    }
    var charts := ChartLinks(key.value, f.cols.keys, chartExists);
    s := Ok(Some(Section(title, rows, charts)));
  }

  /** `rows` are the summary rows of the charted columns among the first
      i names, in order. */
  ghost predicate SummarisedUpTo(f: Frame, rows: seq<SummaryRow>, names: seq<string>, i: nat)
    requires WellFormed(f) && Distinct(names) && i <= |names|
  {
    var cols := ChartedAmong(f, names[..i]);
    |rows| == |cols| && forall j :: 0 <= j < |rows| ==> rows[j] == Summary(f, cols[j])
  }

  /** One more column name: its summary row is appended when it is
      charted. */
  lemma SummarisedStep(f: Frame, rows: seq<SummaryRow>, names: seq<string>, i: nat)
    requires WellFormed(f) && Distinct(names) && i < |names|
    requires SummarisedUpTo(f, rows, names, i)
    ensures Charted(f, names[i]) ==> SummarisedUpTo(f, rows + [Summary(f, names[i])], names, i + 1)
    ensures !Charted(f, names[i]) ==> SummarisedUpTo(f, rows, names, i + 1)
  {
    assert names[..i + 1][..i] == names[..i];
  }

  /** The summary rows of a category, one per charted column in order. */
  method SummaryRows(f: Frame) returns (rows: seq<SummaryRow>)
    requires WellFormed(f)
    ensures |rows| == |ChartedColumns(f)|
    ensures forall i :: 0 <= i < |rows| ==> rows[i] == Summary(f, ChartedColumns(f)[i])
  {
    var names := f.cols.keys;
    rows := [];
    var i := 0;
    while i < |names|
      invariant 0 <= i <= |names|
      invariant SummarisedUpTo(f, rows, names, i)
    {
      SummarisedStep(f, rows, names, i);
      if Charted(f, names[i]) {
        rows := rows + [Summary(f, names[i])];
      }
      i := i + 1;
    }
    assert names[..i] == names;
  }

  /** The chart path of each column, in column order. */
  function ChartPaths(key: string, names: seq<string>): seq<string> {
    seq(|names|, i requires 0 <= i < |names| => Join(key, ChartFileName(names[i])))
  }

  /** The chart links of a category: the relative path of every column's
      chart whose file exists, in column order. */
  method ChartLinks(key: string, names: seq<string>, chartExists: string -> bool) returns (charts: seq<string>)
    ensures forall p :: p in charts <==> exists c :: c in names && p == Join(key, ChartFileName(c)) && chartExists(p)
    ensures Subsequence(charts, ChartPaths(key, names))
  {
    charts := [];
    var i := 0;
    ghost var seen: seq<string> := [];
    while i < |names|
      invariant 0 <= i <= |names|
      invariant forall p :: p in charts <==> exists c :: c in names[..i] && p == Join(key, ChartFileName(c)) && chartExists(p)
      invariant seen == ChartPaths(key, names[..i]) && Subsequence(charts, seen)
    {
      var path := Join(key, ChartFileName(names[i]));
      if chartExists(path) {
        assert (charts + [path])[..|charts|] == charts;
        assert (seen + [path])[..|seen|] == seen;
        charts := charts + [path];
      } else {
        SubsequenceExtend(charts, seen, path);
      }
      assert names[..i + 1] == names[..i] + [names[i]];
      seen := seen + [path];
      i := i + 1;
    }
    assert names[..i] == names;
  }

  // ---------------------------------------------------------------------
  // Chart file names and category keys
  // ---------------------------------------------------------------------

  /** `s.replace(pat, sub)`: every non-overlapping occurrence of `pat`,
      from left to right, replaced by `sub`. */
  function Replace(s: string, pat: string, sub: string): string
    requires |pat| > 0
    decreases |s|
  {
    if |s| < |pat| then s
    else if s[..|pat|] == pat then sub + Replace(s[|pat|..], pat, sub)
    else [s[0]] + Replace(s[1..], pat, sub)
  }

  /** The chart file of a ratio: spaces and slashes become underscores,
      "(%)" becomes "Pct", and ".png" is appended; saving and linking use
      this one rule. */
  function ChartFileName(ratio: string): string {
    Replace(Replace(Replace(ratio, " ", "_"), "/", "_"), "(%)", "Pct") + ".png"
  }

  /** Replacing never brings in a character that neither the text nor the
      replacement holds. */
  lemma {:induction false} ReplaceKeepsAbsent(s: string, pat: string, sub: string, c: char)
    requires |pat| > 0 && c !in s && c !in sub
    ensures c !in Replace(s, pat, sub)
    decreases |s|
  {
    if |s| >= |pat| {
      if s[..|pat|] == pat {
        ReplaceKeepsAbsent(s[|pat|..], pat, sub, c);
      } else {
        ReplaceKeepsAbsent(s[1..], pat, sub, c);
      }
    }
  }

  /** Replacing a single character removes it. */
  lemma {:induction false} ReplaceCharRemoves(s: string, c: char, sub: string)
    requires c !in sub
    ensures c !in Replace(s, [c], sub)
    decreases |s|
  {
    if |s| >= 1 {
      if s[..1] == [c] {
        ReplaceCharRemoves(s[1..], c, sub);
      } else {
        assert s[0] != c;
        ReplaceCharRemoves(s[1..], c, sub);
      }
    }
  }

  /** A text in which `pat` does not occur is left as it is. */
  lemma {:induction false} ReplaceFree(s: string, pat: string, sub: string)
    requires |pat| > 0 && Free(s, pat)
    ensures Replace(s, pat, sub) == s
    decreases |s|
  {
    if |s| >= |pat| {
      assert !OccursAt(s, pat, 0);
      assert Free(s[1..], pat) by {
        forall i ensures !OccursAt(s[1..], pat, i) {
          assert !OccursAt(s, pat, i + 1);
          if 0 <= i && i + |pat| <= |s[1..]| {
            assert s[1..][i..i + |pat|] == s[i + 1..i + 1 + |pat|];
          }
        }
      }
      ReplaceFree(s[1..], pat, sub);
    }
  }

  /** A chart file name has no space and no slash and ends in ".png"; a
      ratio name without spaces, slashes or "(%)" is kept as it is. */
  lemma ChartFileNameShape(ratio: string)
    ensures var r := ChartFileName(ratio);
            ' ' !in r && '/' !in r && |r| >= 4 && r[|r| - 4..] == ".png"
    ensures ' ' !in ratio && '/' !in ratio && Free(ratio, "(%)") ==> ChartFileName(ratio) == ratio + ".png"
  {
    var a := Replace(ratio, " ", "_");
    ReplaceCharRemoves(ratio, ' ', "_");
    var b := Replace(a, "/", "_");
    ReplaceCharRemoves(a, '/', "_");
    ReplaceKeepsAbsent(a, "/", "_", ' ');
    ReplaceKeepsAbsent(b, "(%)", "Pct", ' ');
    ReplaceKeepsAbsent(b, "(%)", "Pct", '/');
    if ' ' !in ratio && '/' !in ratio && Free(ratio, "(%)") {
      ReplaceFree(ratio, " ", "_");
      ReplaceFree(ratio, "/", "_");
      ReplaceFree(ratio, "(%)", "Pct");
    }
  }

  /** `title.split()[0].lower()`: IndexError on a blank title. */
  function CategoryKey(title: string): Outcome<string> {
    var words := Split(title);
    if words == [] then Raise(IndexError) else Ok(Lower(words[0]))
  }

  /** The key of a title that starts with a word and a space is that word
      lower-cased. */
  lemma CategoryKeyOfTitle(w: string, rest: string)
    requires w != [] && forall i :: 0 <= i < |w| ==> !IsSpace(w[i])
    ensures CategoryKey(w + " " + rest) == Ok(Lower(w))
  {
    SplitFirstWord(w, rest);
  }

  /** The section titles of the report: the key of the market category is
      "market", the key under which benchmark and index data are stored. */
  lemma MarketCategoryKey()
    ensures CategoryKey("Market Performance Ratios") == Ok("market")
  {
    var t := "Market Performance Ratios";
    assert t == "Market" + " " + t[7..] by {
      assert t[..6] == "Market" && t[6] == ' ';
      assert t == t[..6] + " " + t[7..];
    }
    assert !IsSpace('M') && !IsSpace('a') && !IsSpace('r') && !IsSpace('k') && !IsSpace('e') && !IsSpace('t');
    CategoryKeyOfTitle("Market", t[7..]);
    LowerMarket();
  }

  lemma LowerMarket()
    ensures Lower("Market") == "market"
  {
    assert LowerChar('M') == 'm';
  }

  // ---------------------------------------------------------------------
  // Benchmarks
  // ---------------------------------------------------------------------

  /** The six ratio frames of one company, by category key. */
  type Categories = Dict<string, Frame>

  /** Fetching and computing each benchmark inside `try`: a benchmark whose
      computation raises is skipped with a warning, the others are stored
      under their names (a name given twice is computed twice and stored
      once). */
  method CollectBenchmarks(names: seq<string>, compute: string -> Outcome<Categories>)
    returns (data: Dict<string, Categories>, warnings: seq<string>)
    ensures forall k :: k in data.items <==> k in names && compute(k).Ok?
    ensures forall k :: k in data.items ==> data.items[k] == compute(k).value
    ensures forall k :: k in warnings <==> k in names && compute(k).Raise?
    ensures Subsequence(data.keys, names) && Subsequence(warnings, names)
  {
    data := EmptyDict();
    warnings := [];
    var i := 0;
    ghost var seen: seq<string> := [];
    while i < |names|
      invariant 0 <= i <= |names| && seen == names[..i]
      invariant CollectedBy(data, warnings, seen, compute)
      invariant Subsequence(data.keys, seen) && Subsequence(warnings, seen)
    {
      var k := names[i];
      assert names[..i + 1] == seen + [k];
      CollectStep(data, warnings, seen, k, compute);
      CollectOrderStep(data.keys, warnings, seen, k);
      match compute(k) {
        case Ok(v) =>
          AssignKeepsOrder(data, k, v, seen);
          data := Assign(data, k, v);
        case Raise(_) =>
          warnings := warnings + [k];
      }
      seen := seen + [k];
      i := i + 1;
    }
    assert names[..i] == names;
  }

  /** The state of the benchmark loop after the names `prefix`: the
      succeeding ones stored with their categories and the failing ones
      warned about. */
  ghost predicate CollectedBy(data: Dict<string, Categories>, warnings: seq<string>, prefix: seq<string>,
                              compute: string -> Outcome<Categories>) {
    (forall k :: k in data.items <==> k in prefix && compute(k).Ok?)
    && (forall k :: k in data.items ==> data.items[k] == compute(k).value)
    && (forall k :: k in warnings <==> k in prefix && compute(k).Raise?)
  }

  /** One iteration of the benchmark loop. */
  lemma CollectStep(data: Dict<string, Categories>, warnings: seq<string>, prefix: seq<string>, k: string,
                    compute: string -> Outcome<Categories>)
    requires CollectedBy(data, warnings, prefix, compute)
    ensures compute(k).Ok? ==> CollectedBy(Assign(data, k, compute(k).value), warnings, prefix + [k], compute)
    ensures compute(k).Raise? ==> CollectedBy(data, warnings + [k], prefix + [k], compute)
  {
  }

  /** The stored names and the warnings stay in the order of the names
      seen, whichever of the two receives the next name. */
  lemma CollectOrderStep(keys: seq<string>, warnings: seq<string>, prefix: seq<string>, k: string)
    requires Subsequence(keys, prefix) && Subsequence(warnings, prefix)
    ensures Subsequence(warnings, prefix + [k]) && Subsequence(warnings + [k], prefix + [k])
    ensures Subsequence(keys, prefix + [k])
  {
    SubsequenceExtend(warnings, prefix, k);
    SubsequenceExtend(keys, prefix, k);
    assert (warnings + [k])[..|warnings|] == warnings;
    assert (prefix + [k])[..|prefix|] == prefix;
  }

  /** A benchmark's cell in the comparison table: its last value of the
      column; "N/A" (None) when it lacks the category or the column;
      IndexError for a column with no rows. */
  function BenchmarkCell(data: Categories, key: string, column: string): Outcome<Option<Cell>> {
    if key in data.items && HasColumn(data.items[key], column) then
      var cells := Col(data.items[key], column);
      if |cells| == 0 then Raise(IndexError) else Ok(Some(cells[|cells| - 1]))
    else Ok(None)
  }

  /** A cell is "N/A" exactly when the benchmark lacks the category or the
      column, and otherwise holds the benchmark's last value. */
  lemma BenchmarkCellMeaning(data: Categories, key: string, column: string)
    ensures BenchmarkCell(data, key, column) == Ok(None) <==> !(key in data.items && HasColumn(data.items[key], column))
    ensures key in data.items && HasColumn(data.items[key], column) && |Col(data.items[key], column)| > 0 ==>
              var cells := Col(data.items[key], column);
              BenchmarkCell(data, key, column) == Ok(Some(cells[|cells| - 1]))
  {
  }

  datatype ComparisonRow = ComparisonRow(ratio: string, company: Cell, benchmarks: seq<Option<Cell>>)

  /** One row of the comparison table: the company's latest value, then one
      cell per benchmark in the benchmarks' order. */
  method ComparisonRowOf(ratio: string, latest: Cell, data: Dict<string, Categories>, key: string)
    returns (r: Outcome<ComparisonRow>)
    ensures r.Raise? <==> exists j :: 0 <= j < |data.keys| && BenchmarkCell(data.items[data.keys[j]], key, ratio).Raise?
    ensures r.Raise? ==> r.error == IndexError
    ensures r.Ok? ==> r.value.ratio == ratio && r.value.company == latest && |r.value.benchmarks| == |data.keys|
    ensures r.Ok? ==> forall j :: 0 <= j < |data.keys| ==>
                        BenchmarkCell(data.items[data.keys[j]], key, ratio) == Ok(r.value.benchmarks[j])
  {
    var cells: seq<Option<Cell>> := [];
    var j := 0;
    while j < |data.keys|
      invariant 0 <= j <= |data.keys| && |cells| == j
      invariant forall m :: 0 <= m < j ==> BenchmarkCell(data.items[data.keys[m]], key, ratio) == Ok(cells[m])
    {
      match BenchmarkCell(data.items[data.keys[j]], key, ratio) {
        case Raise(e) =>
          return Raise(e);
        case Ok(c) =>
          cells := cells + [c];
      }
      j := j + 1;
    }
    r := Ok(ComparisonRow(ratio, latest, cells));
  }

  // ---------------------------------------------------------------------
  // Chart series
  // ---------------------------------------------------------------------

  /** The series drawn on the chart of one ratio of one category: the
      company's, then each benchmark that has the category and the ratio,
      then the market index's only for the 'market' category. */
  function ChartSeries(ticker: string, category: string, ratio: string, ratios: Frame,
                       data: Dict<string, Categories>, index: Option<(string, Frame)>): seq<(string, seq<Cell>)>
    requires HasColumn(ratios, ratio)
  {
    [(ticker, Col(ratios, ratio))]
    + BenchmarkSeries(category, ratio, data, data.keys)
    + (if index.Some? && category == "market" && HasColumn(index.value.1, ratio)
       then [(index.value.0 + " (Market)", Col(index.value.1, ratio))] else [])
  }

  /** The benchmarks of `names`, in that order, that hold the category and
      the ratio, each with its column. */
  function BenchmarkSeries(category: string, ratio: string, data: Dict<string, Categories>, names: seq<string>)
    : (r: seq<(string, seq<Cell>)>)
    requires forall k :: k in names ==> k in data.items
    ensures forall p :: p in r ==> p.0 in names && category in data.items[p.0].items
                                   && HasColumn(data.items[p.0].items[category], ratio)
                                   && p.1 == Col(data.items[p.0].items[category], ratio)
    ensures forall k :: k in names && category in data.items[k].items && HasColumn(data.items[k].items[category], ratio)
                        ==> (k, Col(data.items[k].items[category], ratio)) in r
  {
    if names == [] then []
    else
      var n := |names| - 1;
      assert names == names[..n] + [names[n]];
      var rest := BenchmarkSeries(category, ratio, data, names[..n]);
      var c := data.items[names[n]];
      if category in c.items && HasColumn(c.items[category], ratio)
      then rest + [(names[n], Col(c.items[category], ratio))]
      else rest
  }

  /** The labels of a list of series, in drawing order. */
  function SeriesLabels(s: seq<(string, seq<Cell>)>): seq<string> {
    seq(|s|, i requires 0 <= i < |s| => s[i].0)
  }

  /** A name after `front` is not among the labels drawn for `front`. */
  lemma LaterNameNotDrawn(category: string, ratio: string, data: Dict<string, Categories>,
                          front: seq<string>, k: string)
    requires forall x :: x in front ==> x in data.items
    requires k !in front
    ensures k !in SeriesLabels(BenchmarkSeries(category, ratio, data, front))
  {
    var rest := BenchmarkSeries(category, ratio, data, front);
    forall i | 0 <= i < |rest| ensures SeriesLabels(rest)[i] in front {
      assert rest[i] in rest;
    }
  }

  /** One more name draws at most its own series, after the others. */
  lemma BenchmarkLabelsStep(category: string, ratio: string, data: Dict<string, Categories>, names: seq<string>)
    requires names != [] && forall k :: k in names ==> k in data.items
    ensures var n := |names| - 1;
            var before := SeriesLabels(BenchmarkSeries(category, ratio, data, names[..n]));
            var after := SeriesLabels(BenchmarkSeries(category, ratio, data, names));
            after == before || after == before + [names[n]]
  {
    var n := |names| - 1;
    var rest := BenchmarkSeries(category, ratio, data, names[..n]);
    var c := data.items[names[n]];
    if category in c.items && HasColumn(c.items[category], ratio) {
      var p := (names[n], Col(c.items[category], ratio));
      assert SeriesLabels(rest + [p]) == SeriesLabels(rest) + [names[n]];
    }
  }

  /** The benchmarks are drawn in the order of `names` (the dict's
      insertion order). */
  lemma {:induction false} BenchmarkSeriesInOrder(category: string, ratio: string, data: Dict<string, Categories>,
                                                  names: seq<string>)
    requires forall k :: k in names ==> k in data.items
    requires Distinct(names)
    ensures Subsequence(SeriesLabels(BenchmarkSeries(category, ratio, data, names)), names)
  {
    if names != [] {
      var n := |names| - 1;
      var front := names[..n];
      assert names == front + [names[n]];
      assert names[n] !in front by {
        forall j | 0 <= j < n ensures front[j] != names[n] {
          assert front[j] == names[j];
        }
      }
      BenchmarkSeriesInOrder(category, ratio, data, front);
      LaterNameNotDrawn(category, ratio, data, front, names[n]);
      SubsequenceAppend(SeriesLabels(BenchmarkSeries(category, ratio, data, front)), front, names[n]);
      BenchmarkLabelsStep(category, ratio, data, names);
    }
  }

  /** The company's series comes first; the index is drawn only on a
      'market' chart; every other series belongs to a benchmark holding the
      category and the ratio. */
  lemma ChartSeriesMeaning(ticker: string, category: string, ratio: string, ratios: Frame,
                           data: Dict<string, Categories>, index: Option<(string, Frame)>)
    requires HasColumn(ratios, ratio)
    ensures var s := ChartSeries(ticker, category, ratio, ratios, data, index);
            var overlay := index.Some? && category == "market" && HasColumn(index.value.1, ratio);
            s[0] == (ticker, Col(ratios, ratio))
            && (overlay ==> s[|s| - 1] == (index.value.0 + " (Market)", Col(index.value.1, ratio)))
            && (forall j :: 1 <= j < |s| - (if overlay then 1 else 0) ==>
                  s[j].0 in data.items && category in data.items[s[j].0].items
                  && HasColumn(data.items[s[j].0].items[category], ratio)
                  && s[j].1 == Col(data.items[s[j].0].items[category], ratio))
  {
    var s := ChartSeries(ticker, category, ratio, ratios, data, index);
    var b := BenchmarkSeries(category, ratio, data, data.keys);
    var overlay := index.Some? && category == "market" && HasColumn(index.value.1, ratio);
    forall j | 1 <= j < |s| - (if overlay then 1 else 0)
      ensures s[j].0 in data.items && category in data.items[s[j].0].items
              && HasColumn(data.items[s[j].0].items[category], ratio)
              && s[j].1 == Col(data.items[s[j].0].items[category], ratio)
    {
      assert s[j] == b[j - 1];
      assert s[j] in b;
    }
  }

}
