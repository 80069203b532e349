/** Calendar dates as the ratio code meets them: statement period ends and
    price-row dates, written and read with the "%Y-%m-%d" format. */
module Dates {
  import opened Py

  /** A proleptic Gregorian calendar date at midnight. */
  datatype Date = Date(year: int, month: int, day: int)

  predicate IsLeap(y: int) {
    y % 4 == 0 && (y % 100 != 0 || y % 400 == 0)
  }

  function DaysInMonth(y: int, m: int): int
    requires 1 <= m <= 12
  {
    if m == 2 then (if IsLeap(y) then 29 else 28)
    else if m == 4 || m == 6 || m == 9 || m == 11 then 30
    else 31
  }

  /** The dates Python's `datetime` accepts. */
  predicate Valid(d: Date) {
    1 <= d.year <= 9999 && 1 <= d.month <= 12 && 1 <= d.day <= DaysInMonth(d.year, d.month)
  }

  /** Chronological order of two dates. */
  predicate Before(a: Date, b: Date) {
    a.year < b.year
    || (a.year == b.year && a.month < b.month)
    || (a.year == b.year && a.month == b.month && a.day < b.day)
  }

  predicate OnOrBefore(a: Date, b: Date) {
    a == b || Before(a, b)
  }

  function DaysBeforeYear(y: int): int {
    var p := y - 1;
    365 * p + p / 4 - p / 100 + p / 400
  }

  function DaysBeforeMonth(y: int, m: int): int
    requires 1 <= m <= 12
  {
    if m == 1 then 0 else DaysBeforeMonth(y, m - 1) + DaysInMonth(y, m - 1)
  }

  /** `date.toordinal()`: day 1 is 0001-01-01; the difference of two
      ordinals is the number of days between the dates. */
  function Ordinal(d: Date): int
    requires Valid(d)
  {
    DaysBeforeYear(d.year) + DaysBeforeMonth(d.year, d.month) + d.day
  }

  /** `abs(a - b)` in days. */
  function Distance(a: Date, b: Date): nat
    requires Valid(a) && Valid(b)
  {
    if Ordinal(a) >= Ordinal(b) then Ordinal(a) - Ordinal(b) else Ordinal(b) - Ordinal(a)
  }

  // ---------------------------------------------------------------------
  // strftime("%Y-%m-%d") and strptime(s, "%Y-%m-%d")
  // ---------------------------------------------------------------------

  function TwoDigits(n: nat): string
    requires n < 100
  {
    [DigitChar(n / 10), DigitChar(n % 10)]
  }

  /** `d.strftime("%Y-%m-%d")`; the year is written without padding, as the
      C library on Linux does. */
  function Format(d: Date): string
    requires Valid(d)
  {
    NatToString(d.year) + "-" + TwoDigits(d.month) + "-" + TwoDigits(d.day)
  }

  /** A month or day field of strptime: one or two digits. */
  function Field(s: string): Option<nat> {
    if |s| == 1 || |s| == 2 then ParseDigits(s) else None
  }

  /** `datetime.strptime(s, "%Y-%m-%d")`, None where Python raises
      ValueError: four year digits, a month of one or two digits in 1..12,
      a day of one or two digits in 1..31, and a date that exists. */
  function Parse(s: string): Option<Date> {
    if |s| < 8 || s[4] != '-' || ParseDigits(s[..4]).None? then None
    else
      var rest := s[5..];
      var j := if rest[1] == '-' then 1 else 2;
      if rest[j] != '-' then None
      else
        match (Field(rest[..j]), Field(rest[j + 1..]))
        case (Some(m), Some(dd)) =>
          var d := Date(ParseDigits(s[..4]).value, m, dd);
          if Valid(d) then Some(d) else None
        case _ => None
  }

  lemma TwoDigitsField(n: nat)
    requires n < 100
    ensures Field(TwoDigits(n)) == Some(n)
  {
    var t := TwoDigits(n);
    assert t[..1] == [t[0]];
    assert DigitValue(t[0]) == n / 10;
    assert DigitValue(t[1]) == n % 10;
    assert ParseDigits(t[..1]) == Some(n / 10);
  }

  lemma FourDigitYear(y: int)
    requires 1000 <= y <= 9999
    ensures |NatToString(y)| == 4
    ensures ParseDigits(NatToString(y)) == Some(y)
  {
    NatToStringDigits(y);
    assert y / 10 / 10 / 10 < 10;
    assert |NatToString(y / 10 / 10 / 10)| == 1;
    assert |NatToString(y / 10 / 10)| == 2;
    assert |NatToString(y / 10)| == 3;
  }

  /** Parsing a formatted date gives the date back (years 1000 to 9999). */
  lemma ParseFormat(d: Date)
    requires Valid(d) && d.year >= 1000
    ensures Parse(Format(d)) == Some(d)
  {
    var s := Format(d);
    FourDigitYear(d.year);
    assert s[..4] == NatToString(d.year);
    var rest := s[5..];
    assert rest == TwoDigits(d.month) + "-" + TwoDigits(d.day);
    assert rest[..2] == TwoDigits(d.month);
    assert rest[3..] == TwoDigits(d.day);
    TwoDigitsField(d.month);
    TwoDigitsField(d.day);
  }

  /** Two different dates of years 1000 to 9999 never share a key. */
  lemma FormatInjective(a: Date, b: Date)
    requires Valid(a) && Valid(b) && a.year >= 1000 && b.year >= 1000
    requires Format(a) == Format(b)
    ensures a == b
  {
    ParseFormat(a);
    ParseFormat(b);
  }

  /** A ten-character key that parses, with no leading zero in the year, is
      exactly what formatting the parsed date writes. */
  lemma FormatParse(s: string)
    requires |s| == 10 && s[0] != '0' && Parse(s).Some?
    ensures Format(Parse(s).value) == s
  {
    var d := Parse(s).value;
    var rest := s[5..];
    assert rest[2] == '-';
    var m, dd := rest[..2], rest[3..];
    CanonicalDigitsRoundTrip(s[..4]);
    TwoDigitsRoundTrip(m);
    TwoDigitsRoundTrip(dd);
    assert s == s[..4] + "-" + m + "-" + dd;
  }

  lemma TwoDigitsRoundTrip(s: string)
    requires |s| == 2 && ParseDigits(s).Some?
    ensures ParseDigits(s).value < 100
    ensures TwoDigits(ParseDigits(s).value) == s
  {
    assert s[..1] == [s[0]];
    assert ParseDigits(s[..1]) == Some(DigitValue(s[0]));
    assert ParseDigits(s).value == DigitValue(s[0]) * 10 + DigitValue(s[1]);
  }
}
