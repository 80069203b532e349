/** `main.py`: finding a company's ticker from its name in the mapping
    table, and choosing industry peers as benchmarks. The table is the
    parsed mapping file, or the error its reading raised. */
module CompanyLookup {
  import opened Py

  /** A row of the mapping table. */
  datatype Company = Company(symbol: string, name: string, industry: string)

  /** The row filters the lookups use. */
  datatype Filter = ExactName(query: string) | NameContains(query: string) | NameHasWord(word: string) | SymbolIs(ticker: string)

  /** Whether a row passes a filter: the lower-cased name equals the
      lower-cased query, contains it, or holds the word as a whole word;
      or the symbol is the ticker. */
  predicate Passes(flt: Filter, c: Company) {
    match flt
    case ExactName(q) => Lower(c.name) == Lower(q)
    case NameContains(q) => Contains(Lower(c.name), Lower(q))
    case NameHasWord(w) => ContainsWord(Lower(c.name), w)
    case SymbolIs(t) => c.symbol == t
  }

  /** `df[filter].iloc[0]`: the position of the first row passing `flt`. */
  function FirstWhere(rows: seq<Company>, flt: Filter): (r: Option<nat>)
    ensures r.Some? ==> r.value < |rows| && Passes(flt, rows[r.value]) && forall j :: 0 <= j < r.value ==> !Passes(flt, rows[j])
    ensures r.None? ==> forall j :: 0 <= j < |rows| ==> !Passes(flt, rows[j])
  {
    if rows == [] then None
    else if Passes(flt, rows[0]) then Some(0)
    else
      match FirstWhere(rows[1..], flt)
      case None => None
      case Some(i) => Some(i + 1)
  }

  /** `str.contains(pat)`, taken as a plain substring test. */
  predicate Contains(s: string, pat: string) {
    exists i :: 0 <= i <= |s| - |pat| && OccursAt(s, pat, i)
  }

  /** `\w`: an ASCII letter, digit or underscore. */
  predicate IsWordChar(c: char) {
    'a' <= c <= 'z' || 'A' <= c <= 'Z' || '0' <= c <= '9' || c == '_'
  }

  /** The character at position i is a word character (false off the text). */
  predicate WordCharAt(s: string, i: int) {
    0 <= i < |s| && IsWordChar(s[i])
  }

  /** `\b` at position i: a word character on exactly one side. */
  predicate Boundary(s: string, i: int) {
    WordCharAt(s, i - 1) != WordCharAt(s, i)
  }

  /** `re.search(r'\b' + word + r'\b', s)`, the word taken literally. */
  predicate ContainsWord(s: string, word: string) {
    exists i :: 0 <= i <= |s| - |word| && OccursAt(s, word, i) && Boundary(s, i) && Boundary(s, i + |word|)
  }

  /** The word loop: the first word, in order, longer than three
      characters that some row's lower-cased name holds as a whole word,
      with the first such row. */
  function WordMatch(rows: seq<Company>, words: seq<string>): (r: Option<nat>)
    ensures r.Some? ==> r.value < |rows|
  {
    if words == [] then None
    else if |words[0]| > 3 && FirstWhere(rows, NameHasWord(words[0])).Some?
    then FirstWhere(rows, NameHasWord(words[0]))
    else WordMatch(rows, words[1..])
  }

  /** The word loop finds a row exactly when some long word matches some
      row. */
  lemma {:induction false} WordMatchFound(rows: seq<Company>, words: seq<string>)
    ensures WordMatch(rows, words).Some? <==>
              exists k, j :: 0 <= k < |words| && 0 <= j < |rows| && |words[k]| > 3 && Passes(NameHasWord(words[k]), rows[j])
  {
    if words != [] {
      WordMatchFound(rows, words[1..]);
      if |words[0]| > 3 && FirstWhere(rows, NameHasWord(words[0])).Some? {
        var j := FirstWhere(rows, NameHasWord(words[0])).value;
        assert Passes(NameHasWord(words[0]), rows[j]);
      } else if WordMatch(rows, words[1..]).Some? {
        var k, j :| 0 <= k < |words[1..]| && 0 <= j < |rows| && |words[1..][k]| > 3 && Passes(NameHasWord(words[1..][k]), rows[j]);
        assert words[k + 1] == words[1..][k];
      } else {
        forall k, j | 0 <= k < |words| && 0 <= j < |rows| && |words[k]| > 3 ensures !Passes(NameHasWord(words[k]), rows[j]) {
          if k > 0 {
            assert words[k] == words[1..][k - 1];
          }
        }
      }
    }
  }

  /** The row the word loop finds is the first row matching the first long
      word that matches any row. */
  lemma {:induction false} WordMatchFirst(rows: seq<Company>, words: seq<string>)
    ensures WordMatch(rows, words).Some? ==>
              exists k :: 0 <= k < |words| && |words[k]| > 3
                && Passes(NameHasWord(words[k]), rows[WordMatch(rows, words).value])
                && (forall j :: 0 <= j < WordMatch(rows, words).value ==> !Passes(NameHasWord(words[k]), rows[j]))
                && forall m, j :: 0 <= m < k && 0 <= j < |rows| && |words[m]| > 3 ==> !Passes(NameHasWord(words[m]), rows[j])
  {
    if words != [] && WordMatch(rows, words).Some? {
      var p := NameHasWord(words[0]);
      if |words[0]| > 3 && FirstWhere(rows, p).Some? {
        assert Passes(p, rows[WordMatch(rows, words).value]);
      } else {
        WordMatchFirst(rows, words[1..]);
        var i := WordMatch(rows, words).value;
        var k :| 0 <= k < |words[1..]| && |words[1..][k]| > 3
                 && Passes(NameHasWord(words[1..][k]), rows[i])
                 && (forall j :: 0 <= j < i ==> !Passes(NameHasWord(words[1..][k]), rows[j]))
                 && forall m, j :: 0 <= m < k && 0 <= j < |rows| && |words[1..][m]| > 3 ==> !Passes(NameHasWord(words[1..][m]), rows[j]);
        assert words[k + 1] == words[1..][k];
        forall m, j | 0 <= m < k + 1 && 0 <= j < |rows| && |words[m]| > 3 ensures !Passes(NameHasWord(words[m]), rows[j]) {
          if m > 0 {
            assert words[m] == words[1..][m - 1];
          } else {
            assert !Passes(p, rows[j]);
          }
        }
      }
    }
  }

  /** The row `map_company_to_ticker` picks: the first exact
      case-insensitive name match; else the first row whose name contains
      the query case-insensitively; else the word loop over the lower-cased
      query's words. */
  function MatchRow(rows: seq<Company>, query: string): (r: Option<nat>)
    ensures r.Some? ==> r.value < |rows|
  {
    match FirstWhere(rows, ExactName(query))
    case Some(i) => Some(i)
    case None =>
      match FirstWhere(rows, NameContains(query))
      case Some(i) => Some(i)
      case None => WordMatch(rows, Split(Lower(query)))
  }

  /** `map_company_to_ticker`: (Symbol, Company Name) of the chosen row;
      (None, None), here None, when no row matches or reading the table
      raised. */
  function MapCompanyToTicker(table: Outcome<seq<Company>>, query: string): Option<(string, string)> {
    if table.Raise? then None
    else
      match MatchRow(table.value, query)
      case None => None
      case Some(i) => Some((table.value[i].symbol, table.value[i].name))
  }

  /** The tiers in order: an exact match wins over a containing name,
      which wins over a word match; within a tier the first row wins; no
      match at all gives None. */
  lemma MapCompanyToTickerMeaning(rows: seq<Company>, query: string)
    ensures var r := MapCompanyToTicker(Ok(rows), query);
            r.Some? ==> exists i :: 0 <= i < |rows| && r.value == (rows[i].symbol, rows[i].name)
    ensures forall i :: 0 <= i < |rows| && Passes(ExactName(query), rows[i]) && (forall j :: 0 <= j < i ==> !Passes(ExactName(query), rows[j])) ==>
              MapCompanyToTicker(Ok(rows), query) == Some((rows[i].symbol, rows[i].name))
    ensures forall i :: 0 <= i < |rows| && Passes(NameContains(query), rows[i]) && (forall j :: 0 <= j < i ==> !Passes(NameContains(query), rows[j]))
                        && (forall j :: 0 <= j < |rows| ==> !Passes(ExactName(query), rows[j])) ==>
              MapCompanyToTicker(Ok(rows), query) == Some((rows[i].symbol, rows[i].name))
    ensures MapCompanyToTicker(Ok(rows), query).None? <==>
              (forall j :: 0 <= j < |rows| ==> !Passes(ExactName(query), rows[j]) && !Passes(NameContains(query), rows[j]))
              && forall k, j :: 0 <= k < |Split(Lower(query))| && 0 <= j < |rows| && |Split(Lower(query))[k]| > 3 ==>
                   !Passes(NameHasWord(Split(Lower(query))[k]), rows[j])
  {
    var exact := FirstWhere(rows, ExactName(query));
    var contains := FirstWhere(rows, NameContains(query));
    WordMatchFound(rows, Split(Lower(query)));
    forall i | 0 <= i < |rows| && Passes(ExactName(query), rows[i]) && (forall j :: 0 <= j < i ==> !Passes(ExactName(query), rows[j]))
      ensures MapCompanyToTicker(Ok(rows), query) == Some((rows[i].symbol, rows[i].name))
    {
      assert exact.Some?;
      assert exact.value == i;
    }
  }

  /** Every name contains the empty query, but the exact tier comes first:
      the empty query picks the first row whose lower-cased name is empty,
      and the first row when no later row has an empty name. */
  lemma EmptyQueryPicksFirstRow(rows: seq<Company>)
    requires |rows| > 0
    ensures (forall j :: 1 <= j < |rows| ==> Lower(rows[j].name) != []) ==>
              MapCompanyToTicker(Ok(rows), "") == Some((rows[0].symbol, rows[0].name))
    ensures forall i :: 0 <= i < |rows| && Lower(rows[i].name) == [] && (forall j :: 0 <= j < i ==> Lower(rows[j].name) != []) ==>
              MapCompanyToTicker(Ok(rows), "") == Some((rows[i].symbol, rows[i].name))
  {
    assert Lower("") == [];
    MapCompanyToTickerMeaning(rows, "");
    if Lower(rows[0].name) != [] && forall j :: 1 <= j < |rows| ==> Lower(rows[j].name) != [] {
      assert OccursAt(Lower(rows[0].name), Lower(""), 0);
      assert Passes(NameContains(""), rows[0]);
    }
  }

  /** The symbols of the rows, in order. */
  function Symbols(rows: seq<Company>): (r: seq<string>)
    ensures |r| == |rows| && forall i :: 0 <= i < |rows| ==> r[i] == rows[i].symbol
  {
    seq(|rows|, i requires 0 <= i < |rows| => rows[i].symbol)
  }

  /** The rows of `industry` other than `ticker`, in table order. */
  function SameIndustry(rows: seq<Company>, industry: string, ticker: string): (r: seq<Company>)
    ensures forall c :: c in r <==> c in rows && c.industry == industry && c.symbol != ticker
    ensures Subsequence(r, rows)
  {
    if rows == [] then []
    else
      var n := |rows| - 1;
      var rest := SameIndustry(rows[..n], industry, ticker);
      if rows[n].industry == industry && rows[n].symbol != ticker then
        assert (rest + [rows[n]])[..|rest|] == rest;
        rest + [rows[n]]
      else
        assert rest != [] ==> rest[|rest| - 1] != rows[n] by {
          if rest != [] {
            assert rest[|rest| - 1] in rest;
          }
        }
        rest
  }

  /** `get_industry_peers`: the Industry of the first row with the ticker,
      then `head(max_peers)` of the other rows of that industry, as
      symbols; [] when the ticker is unknown or reading the table raised. */
  function GetIndustryPeers(table: Outcome<seq<Company>>, ticker: string, maxPeers: int): seq<string> {
    if table.Raise? then []
    else
      match FirstWhere(table.value, SymbolIs(ticker))
      case None => []
      case Some(i) => Symbols(Prefix(SameIndustry(table.value, table.value[i].industry, ticker), maxPeers))
  }

  /** The first `max_peers` rows of an industry, as symbols: no more than
      `max_peers`, never the ticker, all of that industry, and all such
      rows when there are no more than that. */
  lemma PeersOf(rows: seq<Company>, industry: string, ticker: string, maxPeers: nat)
    ensures var peers := SameIndustry(rows, industry, ticker);
            var r := Symbols(Prefix(peers, maxPeers));
            |r| <= maxPeers && ticker !in r
            && (forall p :: p in r ==> exists c :: c in rows && c.symbol == p && c.industry == industry)
            && (|peers| <= maxPeers ==> r == Symbols(peers))
  {
    var peers := SameIndustry(rows, industry, ticker);
    var kept := Prefix(peers, maxPeers);
    assert kept == peers[..|kept|];
    forall p | p in Symbols(kept) ensures p != ticker && exists c :: c in rows && c.symbol == p && c.industry == industry {
      var k :| 0 <= k < |kept| && Symbols(kept)[k] == p;
      assert kept[k] in peers;
    }
  }

  /** The peers exclude the ticker, number at most `max_peers`, and share
      the industry of the first row with the ticker, all such rows when
      there are no more than that; an unknown ticker has none. */
  lemma IndustryPeersMeaning(rows: seq<Company>, ticker: string, maxPeers: nat)
    ensures var r := GetIndustryPeers(Ok(rows), ticker, maxPeers);
            |r| <= maxPeers && ticker !in r
    ensures (forall j :: 0 <= j < |rows| ==> rows[j].symbol != ticker) ==> GetIndustryPeers(Ok(rows), ticker, maxPeers) == []
    ensures forall i :: 0 <= i < |rows| && rows[i].symbol == ticker && (forall j :: 0 <= j < i ==> rows[j].symbol != ticker) ==>
              var peers := SameIndustry(rows, rows[i].industry, ticker);
              var r := GetIndustryPeers(Ok(rows), ticker, maxPeers);
              (forall p :: p in r ==> exists c :: c in rows && c.symbol == p && c.industry == rows[i].industry)
              && (|peers| <= maxPeers ==> r == Symbols(peers))
  {
    var first := FirstWhere(rows, SymbolIs(ticker));
    if first.Some? {
      var i0 := first.value;
      PeersOf(rows, rows[i0].industry, ticker, maxPeers);
      assert GetIndustryPeers(Ok(rows), ticker, maxPeers)
             == Symbols(Prefix(SameIndustry(rows, rows[i0].industry, ticker), maxPeers));
      forall i | 0 <= i < |rows| && rows[i].symbol == ticker && (forall j :: 0 <= j < i ==> rows[j].symbol != ticker)
        ensures i == i0
      {
        assert Passes(SymbolIs(ticker), rows[i]);
      }
    }
  }
}
