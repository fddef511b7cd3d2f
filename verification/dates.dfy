/**
  The date parser of the voter import (_parse_date in voter_analytics/models.py).

  A value is stripped, a trailing "-00" day becomes "-01", and the strptime patterns
  "%Y-%m-%d", "%m/%d/%Y" and "%Y/%m/%d" are tried in that order; the first one that yields a
  calendar date wins, and when none does a ValueError names the normalised value.

  A strptime field accepts what its regular expression accepts: %Y exactly four digits,
  %m one or two digits with value 1..12, %d one or two digits with value 1..31 or a space
  followed by a digit 1..9; the whole value must be consumed, and the date must exist.
 */
module DateParsing {
  import opened Wrappers
  import opened Text

  datatype Date = Date(year: int, month: int, day: int)

  predicate IsLeapYear(y: int) {
    y % 4 == 0 && (y % 100 != 0 || y % 400 == 0)
  }

  function DaysInMonth(y: int, m: int): int
    requires 1 <= m <= 12
  {
    if m == 2 then (if IsLeapYear(y) then 29 else 28)
    else if m == 4 || m == 6 || m == 9 || m == 11 then 30
    else 31
  }

  /** A date Python's datetime.date accepts (years 1 to 9999 of the Gregorian calendar). */
  predicate IsValidDate(d: Date) {
    1 <= d.year <= 9999 && 1 <= d.month <= 12 && 1 <= d.day <= DaysInMonth(d.year, d.month)
  }

  /** The three patterns, in the order they are tried. */
  datatype Format =
    | DashedYearFirst   // "%Y-%m-%d"
    | SlashedMonthFirst // "%m/%d/%Y"
    | SlashedYearFirst  // "%Y/%m/%d"

  const Formats: seq<Format> := [DashedYearFirst, SlashedMonthFirst, SlashedYearFirst]

  function Separator(f: Format): char {
    if f == DashedYearFirst then '-' else '/'
  }

  /** s.split(sep). */
  function Split(s: string, sep: char): (parts: seq<string>)
    ensures |parts| >= 1
    ensures forall k :: 0 <= k < |parts| ==> sep !in parts[k]
  {
    if s == [] then [""]
    else
      var rest := Split(s[1..], sep);
      if s[0] == sep then [""] + rest else [[s[0]] + rest[0]] + rest[1..]
  }

  lemma {:induction false} SplitNoSeparator(a: string, sep: char)
    requires sep !in a
    ensures Split(a, sep) == [a]
  {
    if a != [] {
      SplitNoSeparator(a[1..], sep);
      assert a == [a[0]] + a[1..];
    }
  }

  lemma {:induction false} SplitAfterPart(a: string, sep: char, rest: string)
    requires sep !in a
    ensures Split(a + [sep] + rest, sep) == [a] + Split(rest, sep)
  {
    var s := a + [sep] + rest;
    if a == [] {
      assert s[0] == sep && s[1..] == rest;
    } else {
      assert s[0] == a[0] && s[1..] == a[1..] + [sep] + rest;
      SplitAfterPart(a[1..], sep, rest);
      assert a == [a[0]] + a[1..];
    }
  }

  ghost predicate AllDigits(s: string) {
    forall k :: 0 <= k < |s| ==> IsDigit(s[k])
  }

  /** What %Y matches: exactly four digits. */
  predicate YearToken(s: string) {
    |s| == 4 && forall k :: 0 <= k < |s| ==> IsDigit(s[k])
  }

  /** What %m matches: "1".."9", "01".."09", "10".."12". */
  predicate MonthToken(s: string) {
    1 <= |s| <= 2 && (forall k :: 0 <= k < |s| ==> IsDigit(s[k])) && 1 <= DigitsValue(s) <= 12
  }

  /** What %d matches: "1".."9", "01".."31", or a space followed by "1".."9". */
  predicate DayToken(s: string) {
    || (1 <= |s| <= 2 && (forall k :: 0 <= k < |s| ==> IsDigit(s[k])) && 1 <= DigitsValue(s) <= 31)
    || (|s| == 2 && s[0] == ' ' && IsDigit(s[1]) && s[1] != '0')
  }

  function DayValue(s: string): nat
    requires DayToken(s)
  {
    if s[0] == ' ' then DigitValue(s[1]) else DigitsValue(s)
  }

  /** datetime.strptime(s, f).date(), or None where it raises ValueError. */
  function ParseWithFormat(f: Format, s: string): (r: Option<Date>)
    ensures r.Some? ==> IsValidDate(r.value)
  {
    var parts := Split(s, Separator(f));
    if |parts| != 3 then None
    else
      var y := if f == SlashedMonthFirst then parts[2] else parts[0];
      var m := if f == SlashedMonthFirst then parts[0] else parts[1];
      var d := if f == SlashedMonthFirst then parts[1] else parts[2];
      if YearToken(y) && MonthToken(m) && DayToken(d) then
        var date := Date(DigitsValue(y), DigitsValue(m), DayValue(d));
        if IsValidDate(date) then Some(date) else None
      else None
  }

  /** A trailing "-00" (an unknown day) replaced by "-01". */
  function FixDayZero(t: string): (v: string)
    ensures |v| == |t|
  {
    if |t| >= 3 && t[|t| - 3..] == "-00" then t[..|t| - 2] + "01" else t
  }

  /** The value after stripping and after replacing a trailing "-00" by "-01". */
  function Normalise(value: string): string {
    FixDayZero(Strip(value))
  }

  /** The first pattern of fs that parses v, in order. */
  function FirstMatch(v: string, fs: seq<Format>): Option<Date> {
    if fs == [] then None
    else
      match ParseWithFormat(fs[0], v)
      case Some(d) => Some(d)
      case None => FirstMatch(v, fs[1..])
  }

  /**
    _parse_date: None for a missing or empty value, the parsed date, or the ValueError
    (carrying the normalised value) when no pattern matches.
   */
  function ParsedDate(value: Option<string>): Result<Option<Date>, string> {
    if value.None? || value.value == "" then Ok(None)
    else
      var v := Normalise(value.value);
      match FirstMatch(v, Formats)
      case Some(d) => Ok(Some(d))
      case None => Err(v)
  }

  /** _parse_date as the loop over the patterns that returns on the first success. */
  method ParseDate(value: Option<string>) returns (r: Result<Option<Date>, string>)
    ensures r == ParsedDate(value)
    ensures r.Ok? && r.value.Some? ==> IsValidDate(r.value.value)
  {
    if value.None? || value.value == "" {
      return Ok(None);
    }
    var v := Normalise(value.value);
    for k := 0 to |Formats|
      invariant FirstMatch(v, Formats) == FirstMatch(v, Formats[k..])
    {
      assert Formats[k..][1..] == Formats[k + 1..];
      var d := ParseWithFormat(Formats[k], v);
      if d.Some? {
        return Ok(Some(d.value));
      }
    }
    return Err(v);
  }

  lemma {:induction false} FirstMatchIsFirst(v: string, fs: seq<Format>, k: nat)
    requires k < |fs| && ParseWithFormat(fs[k], v).Some?
    requires forall j :: 0 <= j < k ==> ParseWithFormat(fs[j], v).None?
    ensures FirstMatch(v, fs) == ParseWithFormat(fs[k], v)
  {
    if k > 0 {
      FirstMatchIsFirst(v, fs[1..], k - 1);
    }
  }

  lemma {:induction false} FirstMatchNone(v: string, fs: seq<Format>)
    ensures FirstMatch(v, fs).None? <==> forall j :: 0 <= j < |fs| ==> ParseWithFormat(fs[j], v).None?
  {
    if fs != [] {
      FirstMatchNone(v, fs[1..]);
      assert forall j :: 1 <= j < |fs| ==> fs[j] == fs[1..][j - 1];
    }
  }

  /** A missing or empty value is no date, and no error. */
  lemma ParsedDateOfNothing(value: Option<string>)
    requires value.None? || value.value == ""
    ensures ParsedDate(value) == Ok(None)
  {
  }

  /** The patterns are tried in order and the first that parses the normalised value decides. */
  lemma ParsedDateFirstPatternWins(s: string, k: nat)
    requires s != "" && k < |Formats|
    requires ParseWithFormat(Formats[k], Normalise(s)).Some?
    requires forall j :: 0 <= j < k ==> ParseWithFormat(Formats[j], Normalise(s)).None?
    ensures ParsedDate(Some(s)) == Ok(ParseWithFormat(Formats[k], Normalise(s)))
  {
    FirstMatchIsFirst(Normalise(s), Formats, k);
  }

  /** A non-empty value raises exactly when no pattern parses it, and the error names the normalised value. */
  lemma ParsedDateError(s: string)
    requires s != ""
    ensures ParsedDate(Some(s)).Err? <==> forall j :: 0 <= j < |Formats| ==> ParseWithFormat(Formats[j], Normalise(s)).None?
    ensures ParsedDate(Some(s)).Err? ==> ParsedDate(Some(s)).error == Normalise(s)
  {
    FirstMatchNone(Normalise(s), Formats);
  }

  /** A value made only of whitespace is not empty, so it is stripped to "" and then rejected. */
  lemma ParsedDateBlank(s: string)
    requires s != "" && AllSpace(s)
    ensures ParsedDate(Some(s)) == Err("")
  {
    assert Split("", '-') == [""] && Split("", '/') == [""];
  }

  /** Two digits, zero-padded: the rendering of %m and %d. */
  function Pad2(n: nat): (r: string)
    requires n < 100
    ensures |r| == 2 && AllDigits(r) && DigitsValue(r) == n
  {
    var r := [DigitChar(n / 10), DigitChar(n % 10)];
    assert r[..1] == [r[0]] && r[..1][..0] == [];
    assert DigitsValue(r[..1]) == n / 10;
    r
  }

  /** Four digits, zero-padded: the rendering of %Y. */
  function Pad4(n: nat): (r: string)
    requires n < 10000
    ensures |r| == 4 && AllDigits(r) && DigitsValue(r) == n
  {
    var r := Pad2(n / 100) + Pad2(n % 100);
    assert r[..3] == r[..2] + [r[2]];
    assert r[..2] == Pad2(n / 100);
    assert r[..2][..1] == [r[0]];
    r
  }

  /** datetime.date.strftime(f): the date written in one of the three patterns. */
  function Render(f: Format, d: Date): (s: string)
    requires IsValidDate(d)
  {
    var sep := [Separator(f)];
    match f
    case DashedYearFirst => Pad4(d.year) + sep + Pad2(d.month) + sep + Pad2(d.day)
    case SlashedMonthFirst => Pad2(d.month) + sep + Pad2(d.day) + sep + Pad4(d.year)
    case SlashedYearFirst => Pad4(d.year) + sep + Pad2(d.month) + sep + Pad2(d.day)
  }

  lemma SplitThree(a: string, b: string, c: string, sep: char)
    requires sep !in a && sep !in b && sep !in c
    ensures Split(a + [sep] + b + [sep] + c, sep) == [a, b, c]
  {
    assert a + [sep] + b + [sep] + c == a + [sep] + (b + [sep] + c);
    SplitAfterPart(a, sep, b + [sep] + c);
    SplitAfterPart(b, sep, c);
    SplitNoSeparator(c, sep);
  }

  lemma DigitsHaveNoSeparator(s: string, sep: char)
    requires AllDigits(s) && !IsDigit(sep)
    ensures sep !in s
  {
  }

  /** Each pattern parses its own rendering of a date back to that date. */
  lemma {:induction false} ParseRender(f: Format, d: Date)
    requires IsValidDate(d)
    ensures ParseWithFormat(f, Render(f, d)) == Some(d)
  {
    var sep := Separator(f);
    var y, m, dd := Pad4(d.year), Pad2(d.month), Pad2(d.day);
    DigitsHaveNoSeparator(y, sep);
    DigitsHaveNoSeparator(m, sep);
    DigitsHaveNoSeparator(dd, sep);
    if f == SlashedMonthFirst {
      SplitThree(m, dd, y, sep);
    } else {
      SplitThree(y, m, dd, sep);
    }
    assert DayToken(dd) && DayValue(dd) == d.day;
  }

  /** Rendered dates are already normalised: no whitespace around them, and no day "00". */
  lemma RenderShape(f: Format, d: Date)
    requires IsValidDate(d)
    ensures var s := Render(f, d);
            && |s| == 10 && IsDigit(s[0]) && IsDigit(s[9])
            && (f == SlashedMonthFirst ==> IsDigit(s[7]))
            && (f != SlashedMonthFirst ==> s[8..] == Pad2(d.day))
  {
    var s := Render(f, d);
    var y, m, dd := Pad4(d.year), Pad2(d.month), Pad2(d.day);
    var sep := [Separator(f)];
    if f == SlashedMonthFirst {
      assert s == m + sep + dd + sep + y;
      assert s[7] == y[1];
    } else {
      assert s == y + sep + m + sep + dd;
    }
  }

  lemma NormaliseNoOp(s: string)
    requires s != [] && IsDigit(s[0]) && IsDigit(s[|s| - 1])
    requires |s| >= 3 ==> s[|s| - 3..] != "-00"
    ensures Normalise(s) == s
  {
    StripNoOp(s);
  }

  lemma NormaliseRender(f: Format, d: Date)
    requires IsValidDate(d)
    ensures Normalise(Render(f, d)) == Render(f, d)
  {
    var s := Render(f, d);
    RenderShape(f, d);
    if f != SlashedMonthFirst {
      var dd := Pad2(d.day);
      assert s[7..][1..] == dd;
    }
    assert s[7..] != "-00" by {
      assert s[7..][0] == s[7];
    }
    NormaliseNoOp(s);
  }

  /** Each rendering is read by its own pattern, and every pattern tried before it rejects it. */
  lemma {:induction false} FirstMatchOfRendering(f: Format, d: Date)
    requires IsValidDate(d)
    ensures FirstMatch(Render(f, d), Formats) == Some(d)
  {
    var s := Render(f, d);
    ParseRender(f, d);
    var y, m, dd := Pad4(d.year), Pad2(d.month), Pad2(d.day);
    if f == DashedYearFirst {
      FirstMatchIsFirst(s, Formats, 0);
    } else {
      DigitsHaveNoSeparator(m, '-');
      DigitsHaveNoSeparator(dd, '-');
      DigitsHaveNoSeparator(y, '-');
      assert '-' !in s;
      SplitNoSeparator(s, '-');
      if f == SlashedMonthFirst {
        FirstMatchIsFirst(s, Formats, 1);
      } else {
        DigitsHaveNoSeparator(y, '/');
        DigitsHaveNoSeparator(m, '/');
        DigitsHaveNoSeparator(dd, '/');
        SplitThree(y, m, dd, '/');
        assert !MonthToken(y);
        FirstMatchIsFirst(s, Formats, 2);
      }
    }
  }

  /** A non-empty value whose normalised form the patterns read as d is parsed to d. */
  lemma ParsedDateOfMatch(s: string, v: string, d: Date)
    requires s != "" && Normalise(s) == v && FirstMatch(v, Formats) == Some(d)
    ensures ParsedDate(Some(s)) == Ok(Some(d))
  {
  }

  /**
    Format invariance: a date written in any of the three patterns ("2001-03-05", "03/05/2001",
    "2001/03/05") parses to that same date.
   */
  lemma ParsedDateOfRendering(f: Format, d: Date)
    requires IsValidDate(d)
    ensures ParsedDate(Some(Render(f, d))) == Ok(Some(d))
  {
    NormaliseRender(f, d);
    FirstMatchOfRendering(f, d);
    ParsedDateOfMatch(Render(f, d), Render(f, d), d);
  }

  /** Day "00" stands for the first of the month: "1954-07-00" reads as 1954-07-01. */
  lemma {:induction false} ParsedDateDayZero(year: int, month: int)
    requires IsValidDate(Date(year, month, 1))
    ensures var s := Pad4(year) + "-" + Pad2(month) + "-00";
            ParsedDate(Some(s)) == Ok(Some(Date(year, month, 1)))
  {
    var d := Date(year, month, 1);
    var p := Pad4(year) + "-" + Pad2(month) + "-";
    var r := Render(DashedYearFirst, d);
    assert Pad2(1) == "01";
    assert r == p + "01";
    var s := Pad4(year) + "-" + Pad2(month) + "-00";
    assert s == p + "00";
    NormaliseDayZero(p);
    FirstMatchOfRendering(DashedYearFirst, d);
    ParsedDateOfMatch(s, r, d);
  }

  lemma NormaliseDayZero(p: string)
    requires |p| >= 1 && IsDigit(p[0]) && p[|p| - 1] == '-'
    ensures Normalise(p + "00") == p + "01"
  {
    var s := p + "00";
    assert IsDigit(s[0]) && IsDigit(s[|s| - 1]);
    StripNoOp(s);
    var t := Strip(s);
    assert t == s;
    assert t[|t| - 3..] == "-00" by {
      assert t[|t| - 3..] == [p[|p| - 1]] + "00";
    }
    assert t[..|t| - 2] == p;
  }

  /** The three spellings of 5 March 2001 read as the same date. */
  lemma ParsedDateExamples(iso: string, us: string, slashed: string)
    requires iso == "2001-03-05" && us == "03/05/2001" && slashed == "2001/03/05"
    ensures ParsedDate(Some(iso)) == ParsedDate(Some(us)) == ParsedDate(Some(slashed)) == Ok(Some(Date(2001, 3, 5)))
  {
    var d := Date(2001, 3, 5);
    assert Pad4(2001) == "2001" && Pad2(3) == "03" && Pad2(5) == "05";
    assert Render(DashedYearFirst, d) == iso;
    assert Render(SlashedMonthFirst, d) == us;
    assert Render(SlashedYearFirst, d) == slashed;
    ParsedDateOfRendering(DashedYearFirst, d);
    ParsedDateOfRendering(SlashedMonthFirst, d);
    ParsedDateOfRendering(SlashedYearFirst, d);
  }

  /** Whitespace around a value does not change how it parses. */
  lemma ParsedDateIgnoresSurroundingSpace(s: string)
    requires Strip(s) != ""
    ensures ParsedDate(Some(s)) == ParsedDate(Some(Strip(s)))
  {
    StripIdempotent(s);
  }
}
