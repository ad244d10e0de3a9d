/** `_parse_date_to_iso`: how the backend reads a date cell (a timestamp, or text in one of
    four formats) and writes it as ISO `YYYY-MM-DD` text. */
module DateParse {
  import opened Wrappers
  import opened Dates
  import opened Values

  /** The texts that stand for "no date" once stripped and lower-cased. */
  predicate NullWord(t: string) {
    t == "nan" || t == "none" || t == "null"
  }

  /** The stripped text of a cell that says there is no date: empty, or a null word in any case. */
  predicate NullText(s: string) {
    s == "" || NullWord(Lower(s))
  }

  /** Format i of `fs` reads s as d, and no earlier format reads s. */
  predicate FirstReads(s: string, fs: seq<Format>, i: int, d: Date) {
    0 <= i < |fs| && Strptime(s, fs[i]) == Some(d) && forall j :: 0 <= j < i ==> Strptime(s, fs[j]).None?
  }

  /** The date of the first format in `fs` that reads s. */
  function FirstMatch(s: string, fs: seq<Format>): Option<ValidDate> {
    if fs == [] then None
    else match Strptime(s, fs[0])
      case Some(d) => Some(d)
      case None => FirstMatch(s, fs[1..])
  }

  /** The formats are tried in order and the first that reads s decides; only when none
      reads it is there no date. */
  lemma {:induction false} FirstMatchFirst(s: string, fs: seq<Format>)
    ensures FirstMatch(s, fs).None? <==> forall i :: 0 <= i < |fs| ==> Strptime(s, fs[i]).None?
    ensures FirstMatch(s, fs).Some? ==> exists i :: FirstReads(s, fs, i, FirstMatch(s, fs).value)
  {
    if fs != [] {
      match Strptime(s, fs[0])
      case Some(d) =>
        assert FirstReads(s, fs, 0, d);
      case None =>
        FirstMatchFirst(s, fs[1..]);
        assert forall i :: 1 <= i < |fs| ==> fs[i] == fs[1..][i - 1];
        var r := FirstMatch(s, fs[1..]);
        if r.Some? {
          var i :| FirstReads(s, fs[1..], i, r.value);
          assert FirstReads(s, fs, i + 1, r.value);
        }
    }
  }

  /** The date `_parse_date_to_iso` writes out, or None. The best-effort `pd.to_datetime`
      fallback is not part of this model: where every format fails, this is None. */
  function ParseDate(v: Value): Option<ValidDate> {
    match v
    case Null => None
    case NaN => None
    case Stamp(d) => Some(d)
    case _ =>
      var s := Strip(Str(v));
      if NullText(s) then None else FirstMatch(s, Formats)
  }

  function IsoOf(d: Option<ValidDate>): Option<string> {
    match d
    case None => None
    case Some(x) => Some(Iso(x))
  }

  /** `_parse_date_to_iso`: the null checks, then the scan of the four formats with an early return. */
  method ParseDateToIso(v: Value) returns (r: Option<string>)
    ensures r == IsoOf(ParseDate(v))
  {
    if v.Null? || v.NaN? {
      return None;
    }
    if v.Stamp? {
      return Some(Iso(v.date));
    }
    var s := Strip(Str(v));
    if NullText(s) {
      return None;
    }
    var i := 0;
    while i < |Formats|
      invariant 0 <= i <= |Formats|
      invariant FirstMatch(s, Formats) == FirstMatch(s, Formats[i..])
    {
      var parsed := Strptime(s, Formats[i]);
      if parsed.Some? {
        return Some(Iso(parsed.value));
      }
      assert Formats[i..][1..] == Formats[i + 1..];
      i := i + 1;
    }
    return None;
  }

  /** None, NaN, blank text and the words nan/none/null in any letter case give no date. */
  lemma NullLikeIsNone(v: Value)
    requires v.Null? || v.NaN? || (v.Text? && NullText(Strip(v.s)))
    ensures ParseDate(v) == None
  {
  }

  /** Text that starts with a digit is not a null word. */
  lemma DigitFirstNotNull(s: string)
    requires s != [] && IsDigit(s[0])
    ensures !NullText(s)
  {
    LowerChars(s);
    assert Lower(s)[0] == LowerChar(s[0]);
  }

  /** ISO text has no blanks around it and is not a null word. */
  lemma IsoPlain(d: ValidDate)
    ensures Strip(Iso(d)) == Iso(d) && !NullText(Iso(d))
  {
    var s := Iso(d);
    assert IsDigit(s[0]) && IsDigit(s[|s| - 1]);
    DigitEnds(s);
  }

  /** ISO text is read back as the date it names: `%Y-%m-%d` is the first format tried. */
  lemma IsoTextRoundTrip(d: ValidDate)
    ensures ParseDate(Text(Iso(d))) == Some(d)
  {
    IsoPlain(d);
    IsoRoundTrip(d);
    assert FirstReads(Iso(d), Formats, 0, d);
    ParseTextFirst(Iso(d), 0, d);
  }

  /** Normalising a date cell twice gives what normalising it once gives. */
  lemma ParseIdempotent(v: Value)
    ensures ParseDate(v).Some? ==> ParseDate(Text(Iso(ParseDate(v).value))) == ParseDate(v)
  {
    if ParseDate(v).Some? {
      IsoTextRoundTrip(ParseDate(v).value);
    }
  }

  lemma {:induction false} FirstReadsMatch(s: string, fs: seq<Format>, i: int, d: Date)
    requires FirstReads(s, fs, i, d)
    ensures FirstMatch(s, fs) == Some(d)
  {
    if i > 0 {
      assert Strptime(s, fs[0]).None?;
      assert forall j :: 0 <= j < i - 1 ==> fs[1..][j] == fs[j + 1];
      FirstReadsMatch(s, fs[1..], i - 1, d);
    }
  }

  /** A cell whose text is already stripped and is not a null word gives the date of the
      first of the four formats that reads it. */
  lemma ParseTextFirst(s: string, i: int, d: Date)
    requires Strip(s) == s && !NullText(s) && FirstReads(s, Formats, i, d)
    ensures ParseDate(Text(s)) == Some(d)
  {
    FirstReadsMatch(s, Formats, i, d);
  }

  /** Text with a digit at both ends is stripped and not a null word. */
  lemma DigitEnds(s: string)
    requires s != [] && IsDigit(s[0]) && IsDigit(s[|s| - 1])
    ensures Strip(s) == s && !NullText(s)
  {
    StripUnchanged(s);
    DigitFirstNotNull(s);
  }

  lemma ThreeParts(a: string, b: string, c: string, sep: char)
    requires sep !in a && sep !in b && sep !in c
    ensures Split(a + [sep] + b + [sep] + c, sep) == [a, b, c]
  {
    SplitJoin(a, b + [sep] + c, sep);
    assert a + [sep] + b + [sep] + c == a + [sep] + (b + [sep] + c);
    SplitJoin(b, c, sep);
    SplitWhole(c, sep);
  }

  /** Day, month and year, zero-padded and joined by sep (`%d/%m/%Y`, `%d-%m-%Y`). */
  function DayMonthYearText(d: ValidDate, sep: char): string {
    Pad(d.day, 2) + [sep] + Pad(d.month, 2) + [sep] + Pad(d.year, 4)
  }

  /** Month, day and year, zero-padded and joined by slashes (`%m/%d/%Y`). */
  function MonthDayYearText(d: ValidDate): string {
    Pad(d.month, 2) + ['/'] + Pad(d.day, 2) + ['/'] + Pad(d.year, 4)
  }

  lemma PaddedParts(d: ValidDate)
    ensures '/' !in Pad(d.day, 2) && '/' !in Pad(d.month, 2) && '/' !in Pad(d.year, 4)
    ensures '-' !in Pad(d.day, 2) && '-' !in Pad(d.month, 2) && '-' !in Pad(d.year, 4)
  {
    assert IsDigit(Pad(d.day, 2)[0]) && IsDigit(Pad(d.day, 2)[1]);
    assert IsDigit(Pad(d.month, 2)[0]) && IsDigit(Pad(d.month, 2)[1]);
  }

  lemma DayMonthYearSplit(d: ValidDate, sep: char)
    requires sep == '/' || sep == '-'
    ensures Split(DayMonthYearText(d, sep), sep) == [Pad(d.day, 2), Pad(d.month, 2), Pad(d.year, 4)]
    ensures DigitEnded(DayMonthYearText(d, sep))
  {
    PaddedParts(d);
    ThreeParts(Pad(d.day, 2), Pad(d.month, 2), Pad(d.year, 4), sep);
  }

  /** The text has no character other than digits and sep. */
  lemma DayMonthYearOther(d: ValidDate, sep: char, other: char)
    requires (sep == '/' && other == '-') || (sep == '-' && other == '/')
    ensures Split(DayMonthYearText(d, sep), other) == [DayMonthYearText(d, sep)]
  {
    PaddedParts(d);
    var t := DayMonthYearText(d, sep);
    assert forall i :: 0 <= i < |t| ==> t[i] == sep || IsDigit(t[i]);
    SplitWhole(t, other);
  }

  predicate DigitEnded(s: string) {
    s != [] && IsDigit(s[0]) && IsDigit(s[|s| - 1])
  }

  /** A slash date that reads day first is read day first, even where month first would
      also give a date (`03/04/2026` is the 3rd of April). */
  lemma DayFirst(d: ValidDate)
    ensures ParseDate(Text(DayMonthYearText(d, '/'))) == Some(d)
  {
    var s := DayMonthYearText(d, '/');
    DayMonthYearSplit(d, '/');
    DayMonthYearOther(d, '/', '-');
    PadYear(d.year);
    PadMonth(d.month);
    PadDay(d.day);
    assert Strptime(s, YearMonthDayDash) == None;
    assert Strptime(s, DayMonthYearSlash) == Some(d);
    assert FirstReads(s, Formats, 1, d);
    DigitEnds(s);
    ParseTextFirst(s, 1, d);
  }

  /** A dash date with the year last is read day first (`27-04-2026`). */
  lemma DashDayFirst(d: ValidDate)
    ensures ParseDate(Text(DayMonthYearText(d, '-'))) == Some(d)
  {
    var s := DayMonthYearText(d, '-');
    DayMonthYearSplit(d, '-');
    DayMonthYearOther(d, '-', '/');
    PadYear(d.year);
    PadMonth(d.month);
    PadDay(d.day);
    assert YearToken(Pad(d.day, 2)) == None;
    assert Strptime(s, YearMonthDayDash) == None;
    assert Strptime(s, DayMonthYearSlash) == None;
    assert Strptime(s, DayMonthYearDash) == Some(d);
    assert FirstReads(s, Formats, 2, d);
    DigitEnds(s);
    ParseTextFirst(s, 2, d);
  }

  /** A slash date whose middle number cannot be a month falls through to month first
      (`04/13/2026` is the 13th of April). */
  lemma MonthFirstFallback(d: ValidDate)
    requires d.day > 12
    ensures ParseDate(Text(MonthDayYearText(d))) == Some(d)
  {
    var s := MonthDayYearText(d);
    MonthDayYearShape(d);
    MonthDayYearEarlier(d);
    MonthDayYearReads(d);
    assert FirstReads(s, Formats, 3, d);
    DigitEnds(s);
    ParseTextFirst(s, 3, d);
  }

  /** The month-first text is digits and slashes, in three parts. */
  lemma MonthDayYearShape(d: ValidDate)
    ensures var s := MonthDayYearText(d);
      (forall i :: 0 <= i < |s| ==> s[i] == '/' || IsDigit(s[i])) &&
      Split(s, '/') == [Pad(d.month, 2), Pad(d.day, 2), Pad(d.year, 4)] && Split(s, '-') == [s]
  {
    var s := MonthDayYearText(d);
    PaddedParts(d);
    ThreeParts(Pad(d.month, 2), Pad(d.day, 2), Pad(d.year, 4), '/');
    assert forall i :: 0 <= i < |s| ==> s[i] == '/' || IsDigit(s[i]);
    SplitWhole(s, '-');
  }

  /** A day past 12 is not a month, so the three earlier formats do not read the text. */
  lemma MonthDayYearEarlier(d: ValidDate)
    requires d.day > 12
    ensures var s := MonthDayYearText(d);
      Strptime(s, YearMonthDayDash) == None && Strptime(s, DayMonthYearSlash) == None &&
      Strptime(s, DayMonthYearDash) == None
  {
    MonthDayYearShape(d);
    Pad2Chars(d.day);
    assert MonthToken(Pad(d.day, 2)) == None;
  }

  /** The month-first format reads the date back. */
  lemma MonthDayYearReads(d: ValidDate)
    ensures Strptime(MonthDayYearText(d), MonthDayYearSlash) == Some(d)
  {
    MonthDayYearShape(d);
    PadYear(d.year);
    PadMonth(d.month);
    PadDay(d.day);
  }
}
