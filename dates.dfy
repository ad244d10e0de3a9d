/** The proleptic Gregorian calendar of Python's `datetime`, the ISO text form that
    `strftime("%Y-%m-%d")` writes, and the four `strptime` formats the importer tries. */
module Dates {
  import opened Wrappers

  datatype Date = Date(year: int, month: int, day: int)

  predicate IsLeap(y: int) {
    y % 4 == 0 && (y % 100 != 0 || y % 400 == 0)
  }

  function DaysInMonth(y: int, m: int): (r: int)
    requires 1 <= m <= 12
    ensures 28 <= r <= 31
  {
    if m == 2 then (if IsLeap(y) then 29 else 28)
    else if m == 4 || m == 6 || m == 9 || m == 11 then 30
    else 31
  }

  function DaysInYear(y: int): int {
    if IsLeap(y) then 366 else 365
  }

  /** A date `datetime` can represent: year 1 to 9999 and a day that exists in its month. */
  predicate Valid(d: Date) {
    1 <= d.year <= 9999 && 1 <= d.month <= 12 && 1 <= d.day <= DaysInMonth(d.year, d.month)
  }

  type ValidDate = d: Date | Valid(d) witness Date(1, 1, 1)

  const MinDate: Date := Date(1, 1, 1)
  const MaxDate: Date := Date(9999, 12, 31)
  /** `date.max.toordinal()` */
  const MaxOrdinal: int := 3652059

  /** Days of year y that lie before month m; m = 13 gives the whole year. */
  function DaysBeforeMonth(y: int, m: int): int
    requires 1 <= m <= 13
  {
    if m == 1 then 0 else DaysBeforeMonth(y, m - 1) + DaysInMonth(y, m - 1)
  }

  function DaysBeforeYear(y: int): int
    requires y >= 1
  {
    var p := y - 1;
    365 * p + p / 4 - p / 100 + p / 400
  }

  /** `date.toordinal()`: 0001-01-01 is day 1. */
  function Ordinal(d: Date): int
    requires Valid(d)
  {
    DaysBeforeYear(d.year) + DaysBeforeMonth(d.year, d.month) + d.day
  }

  /** Lexicographic order on (year, month, day): "a is an earlier date than b". */
  predicate Before(a: Date, b: Date) {
    a.year < b.year || (a.year == b.year && (a.month < b.month || (a.month == b.month && a.day < b.day)))
  }

  // ---------------------------------------------------------------- ordinal arithmetic

  lemma YearLength(y: int)
    ensures DaysBeforeMonth(y, 13) == DaysInYear(y)
  {
    var f := DaysInMonth(y, 2);
    assert DaysBeforeMonth(y, 2) == 31;
    assert DaysBeforeMonth(y, 3) == 31 + f;
    assert DaysBeforeMonth(y, 4) == 62 + f;
    assert DaysBeforeMonth(y, 5) == 92 + f;
    assert DaysBeforeMonth(y, 6) == 123 + f;
    assert DaysBeforeMonth(y, 7) == 153 + f;
    assert DaysBeforeMonth(y, 8) == 184 + f;
    assert DaysBeforeMonth(y, 9) == 215 + f;
    assert DaysBeforeMonth(y, 10) == 245 + f;
    assert DaysBeforeMonth(y, 11) == 276 + f;
    assert DaysBeforeMonth(y, 12) == 306 + f;
    assert DaysBeforeMonth(y, 13) == 337 + f;
  }

  lemma YearStep(y: int)
    requires y >= 1
    ensures DaysBeforeYear(y + 1) == DaysBeforeYear(y) + DaysInYear(y)
  {
    var p := y - 1;
    assert y / 4 == p / 4 + (if y % 4 == 0 then 1 else 0);
    assert y / 100 == p / 100 + (if y % 100 == 0 then 1 else 0);
    assert y / 400 == p / 400 + (if y % 400 == 0 then 1 else 0);
  }

  lemma MaxOrdinalIs()
    ensures Valid(MaxDate) && Ordinal(MaxDate) == MaxOrdinal
  {
    assert DaysBeforeMonth(9999, 12) == 334 by { YearLength(9999); }
  }

  lemma {:induction false} MonthsMonotone(y: int, m1: int, m2: int)
    requires 1 <= m1 <= m2 <= 13
    ensures DaysBeforeMonth(y, m1) <= DaysBeforeMonth(y, m2)
    decreases m2
  {
    if m1 < m2 {
      MonthsMonotone(y, m1, m2 - 1);
    }
  }

  lemma {:induction false} YearsMonotone(y1: int, y2: int)
    requires 1 <= y1 <= y2
    ensures DaysBeforeYear(y1) + (if y1 < y2 then DaysInYear(y1) else 0) <= DaysBeforeYear(y2)
    decreases y2 - y1
  {
    if y1 < y2 {
      YearStep(y1);
      if y1 + 1 < y2 {
        YearsMonotone(y1 + 1, y2);
      }
    }
  }

  /** The ordinal of a date stays inside its own year. */
  lemma DayOfYearBounds(d: Date)
    requires Valid(d)
    ensures DaysBeforeYear(d.year) < Ordinal(d) <= DaysBeforeYear(d.year) + DaysInYear(d.year)
  {
    assert DaysBeforeMonth(d.year, d.month + 1) == DaysBeforeMonth(d.year, d.month) + DaysInMonth(d.year, d.month);
    MonthsMonotone(d.year, 1, d.month);
    MonthsMonotone(d.year, d.month + 1, 13);
    YearLength(d.year);
  }

  /** An earlier date has a smaller ordinal. */
  lemma OrdinalIncreasing(a: Date, b: Date)
    requires Valid(a) && Valid(b) && Before(a, b)
    ensures Ordinal(a) < Ordinal(b)
  {
    if a.year < b.year {
      DayOfYearBounds(a);
      DayOfYearBounds(b);
      YearsMonotone(a.year, b.year);
    } else if a.month < b.month {
      MonthsMonotone(a.year, a.month + 1, b.month);
    }
  }

  /** Ordinals order dates exactly as the calendar does; in particular they are distinct. */
  lemma OrdinalOrder(a: Date, b: Date)
    requires Valid(a) && Valid(b)
    ensures Before(a, b) <==> Ordinal(a) < Ordinal(b)
    ensures a == b <==> Ordinal(a) == Ordinal(b)
  {
    if Before(a, b) {
      OrdinalIncreasing(a, b);
    } else if a != b {
      OrdinalIncreasing(b, a);
    }
  }

  /** The calendar day after d. */
  function NextDay(d: Date): (r: Date)
    requires Valid(d) && d != MaxDate
    ensures Valid(r) && Ordinal(r) == Ordinal(d) + 1
  {
    if d.day < DaysInMonth(d.year, d.month) then Date(d.year, d.month, d.day + 1)
    else if d.month < 12 then Date(d.year, d.month + 1, 1)
    else
      YearStep(d.year);
      YearLength(d.year);
      Date(d.year + 1, 1, 1)
  }

  /** The calendar day before d. */
  function PrevDay(d: Date): (r: Date)
    requires Valid(d) && d != MinDate
    ensures Valid(r) && Ordinal(r) == Ordinal(d) - 1
  {
    if d.day > 1 then Date(d.year, d.month, d.day - 1)
    else if d.month > 1 then Date(d.year, d.month - 1, DaysInMonth(d.year, d.month - 1))
    else
      YearStep(d.year - 1);
      YearLength(d.year - 1);
      Date(d.year - 1, 12, 31)
  }

  /** `d + timedelta(days=n)` when the sum stays inside the range of `date`. */
  function AddDays(d: Date, n: int): (r: Date)
    requires Valid(d) && 1 <= Ordinal(d) + n <= MaxOrdinal
    ensures Valid(r) && Ordinal(r) == Ordinal(d) + n
    decreases if n >= 0 then n else -n
  {
    if n == 0 then d
    else if n > 0 then
      MaxOrdinalIs();
      AddDays(NextDay(d), n - 1)
    else
      AddDays(PrevDay(d), n + 1)
  }

  // ---------------------------------------------------------------- ISO text

  predicate IsDigit(c: char) {
    '0' <= c <= '9'
  }

  predicate AllDigits(t: string) {
    forall i :: 0 <= i < |t| ==> IsDigit(t[i])
  }

  function DigitChar(n: int): (c: char)
    requires 0 <= n <= 9
    ensures IsDigit(c)
  {
    ('0' as int + n) as char
  }

  function Val(c: char): int
    requires IsDigit(c)
  {
    c as int - '0' as int
  }

  function Pow10(w: nat): nat {
    if w == 0 then 1 else 10 * Pow10(w - 1)
  }

  /** The last w decimal digits of n, zero-padded on the left (as `%04d`, `%02d`). */
  function Pad(n: nat, w: nat): (s: string)
    ensures |s| == w && AllDigits(s)
  {
    if w == 0 then [] else Pad(n / 10, w - 1) + [DigitChar(n % 10)]
  }

  /** The number a string of decimal digits spells. */
  function DigitsValue(t: string): nat
    requires AllDigits(t)
  {
    if t == [] then 0 else 10 * DigitsValue(t[..|t| - 1]) + Val(t[|t| - 1])
  }

  /** `strftime("%Y-%m-%d")` */
  function Iso(d: Date): (s: string)
    requires Valid(d)
  {
    Pad(d.year, 4) + ['-'] + Pad(d.month, 2) + ['-'] + Pad(d.day, 2)
  }

  lemma {:induction false} PadValue(n: nat, w: nat)
    requires n < Pow10(w)
    ensures DigitsValue(Pad(n, w)) == n
  {
    if w > 0 {
      var s := Pad(n, w);
      assert s[..|s| - 1] == Pad(n / 10, w - 1);
      PadValue(n / 10, w - 1);
    }
  }

  lemma Pad2Chars(n: nat)
    requires n < 100
    ensures Pad(n, 2) == [DigitChar(n / 10), DigitChar(n % 10)]
  {
    var q := n / 10;
    assert q < 10 && q / 10 == 0 && q % 10 == q;
    assert Pad(q, 1) == Pad(0, 0) + [DigitChar(q)];
  }

  /** Python's `str.__lt__`: code-point lexicographic order, a proper prefix first. */
  predicate LexLess(a: string, b: string) {
    if a == [] then b != []
    else if b == [] then false
    else if a[0] != b[0] then a[0] < b[0]
    else LexLess(a[1..], b[1..])
  }

  lemma {:induction false} LexConcat(x: string, y: string, x': string, y': string)
    requires |x| == |x'|
    ensures LexLess(x + y, x' + y') <==> LexLess(x, x') || (x == x' && LexLess(y, y'))
  {
    if x != [] {
      assert (x + y)[1..] == x[1..] + y;
      assert (x' + y')[1..] == x'[1..] + y';
      LexConcat(x[1..], y, x'[1..], y');
      if x[0] == x'[0] {
        assert x == x' <==> x[1..] == x'[1..] by {
          if x[1..] == x'[1..] {
            assert x == [x[0]] + x[1..];
            assert x' == [x'[0]] + x'[1..];
          }
        }
      }
    } else {
      assert x + y == y;
      assert x' + y' == y';
    }
  }

  /** Zero-padded numbers compare as text exactly as they compare as numbers. */
  lemma {:induction false} PadOrder(a: nat, b: nat, w: nat)
    requires a < Pow10(w) && b < Pow10(w)
    ensures LexLess(Pad(a, w), Pad(b, w)) <==> a < b
    ensures Pad(a, w) == Pad(b, w) <==> a == b
  {
    if w > 0 {
      PadOrder(a / 10, b / 10, w - 1);
      var ca, cb := [DigitChar(a % 10)], [DigitChar(b % 10)];
      LexConcat(Pad(a / 10, w - 1), ca, Pad(b / 10, w - 1), cb);
      assert LexLess(ca, cb) <==> a % 10 < b % 10;
      PadValue(a, w);
      PadValue(b, w);
    }
  }

  /** The ISO text of two dates compares as the dates do: this is what lets the source
      compare dates as strings. */
  lemma IsoOrder(a: Date, b: Date)
    requires Valid(a) && Valid(b)
    ensures LexLess(Iso(a), Iso(b)) <==> Before(a, b)
  {
    var ya, ma, da := Pad(a.year, 4), Pad(a.month, 2), Pad(a.day, 2);
    var yb, mb, db := Pad(b.year, 4), Pad(b.month, 2), Pad(b.day, 2);
    assert Iso(a) == ya + (['-'] + (ma + (['-'] + da)));
    assert Iso(b) == yb + (['-'] + (mb + (['-'] + db)));
    PadOrder(a.year, b.year, 4);
    PadOrder(a.month, b.month, 2);
    PadOrder(a.day, b.day, 2);
    LexConcat(ya, ['-'] + (ma + (['-'] + da)), yb, ['-'] + (mb + (['-'] + db)));
    LexConcat(['-'], ma + (['-'] + da), ['-'], mb + (['-'] + db));
    LexConcat(ma, ['-'] + da, mb, ['-'] + db);
    LexConcat(['-'], da, ['-'], db);
  }

  // ---------------------------------------------------------------- strptime

  /** `%Y`: exactly four digits. */
  function YearToken(t: string): Option<int> {
    if |t| == 4 && AllDigits(t) then Some(DigitsValue(t)) else None
  }

  /** `%m`: one of `1[0-2]`, `0[1-9]`, `[1-9]`. */
  function MonthToken(t: string): Option<int> {
    if |t| == 1 && '1' <= t[0] <= '9' then Some(Val(t[0]))
    else if |t| == 2 && ((t[0] == '0' && '1' <= t[1] <= '9') || (t[0] == '1' && '0' <= t[1] <= '2'))
    then Some(10 * Val(t[0]) + Val(t[1]))
    else None
  }

  /** `%d`: one of `3[01]`, `[12][0-9]`, `0[1-9]`, `[1-9]`, or a space and `[1-9]`. */
  function DayToken(t: string): Option<int> {
    if |t| == 1 && '1' <= t[0] <= '9' then Some(Val(t[0]))
    else if |t| == 2 && t[0] == ' ' && '1' <= t[1] <= '9' then Some(Val(t[1]))
    else if |t| == 2 && ((t[0] == '0' && '1' <= t[1] <= '9') || ('1' <= t[0] <= '2' && IsDigit(t[1]))
                         || (t[0] == '3' && '0' <= t[1] <= '1'))
    then Some(10 * Val(t[0]) + Val(t[1]))
    else None
  }

  /** The pieces of s between occurrences of sep (Python's `s.split(sep)`). */
  function Split(s: string, sep: char): (parts: seq<string>)
    ensures |parts| >= 1
  {
    if s == [] then [[]]
    else
      var rest := Split(s[1..], sep);
      if s[0] == sep then [[]] + rest else [[s[0]] + rest[0]] + rest[1..]
  }

  lemma {:induction false} SplitJoin(a: string, b: string, sep: char)
    requires sep !in a
    ensures Split(a + [sep] + b, sep) == [a] + Split(b, sep)
  {
    if a != [] {
      assert (a + [sep] + b)[1..] == a[1..] + [sep] + b;
      SplitJoin(a[1..], b, sep);
      assert [a[0]] + a[1..] == a;
    } else {
      assert (a + [sep] + b)[1..] == b;
    }
  }

  lemma {:induction false} SplitWhole(a: string, sep: char)
    requires sep !in a
    ensures Split(a, sep) == [a]
  {
    if a != [] {
      SplitWhole(a[1..], sep);
      assert [a[0]] + a[1..] == a;
    }
  }

  /** The formats `_parse_date_to_iso` tries, in its order. */
  datatype Format = YearMonthDayDash | DayMonthYearSlash | DayMonthYearDash | MonthDayYearSlash

  const Formats: seq<Format> := [YearMonthDayDash, DayMonthYearSlash, DayMonthYearDash, MonthDayYearSlash]

  function Separator(f: Format): char {
    if f == DayMonthYearSlash || f == MonthDayYearSlash then '/' else '-'
  }

  /** `datetime.strptime(s, f)`: the whole string must match the format, then the date must exist. */
  function Strptime(s: string, f: Format): (r: Option<Date>)
    ensures r.Some? ==> Valid(r.value)
  {
    var parts := Split(s, Separator(f));
    if |parts| != 3 then None
    else
      var (yt, mt, dt) :=
        match f
        case YearMonthDayDash => (parts[0], parts[1], parts[2])
        case DayMonthYearSlash => (parts[2], parts[1], parts[0])
        case DayMonthYearDash => (parts[2], parts[1], parts[0])
        case MonthDayYearSlash => (parts[2], parts[0], parts[1]);
      match (YearToken(yt), MonthToken(mt), DayToken(dt))
      case (Some(y), Some(m), Some(d)) => if Valid(Date(y, m, d)) then Some(Date(y, m, d)) else None
      case _ => None
  }

  lemma IsoSplit(d: Date)
    requires Valid(d)
    ensures Split(Iso(d), '-') == [Pad(d.year, 4), Pad(d.month, 2), Pad(d.day, 2)]
  {
    var y, m, dd := Pad(d.year, 4), Pad(d.month, 2), Pad(d.day, 2);
    assert '-' !in y && '-' !in m && '-' !in dd;
    SplitJoin(y, m + ['-'] + dd, '-');
    assert y + ['-'] + (m + ['-'] + dd) == Iso(d);
    SplitJoin(m, dd, '-');
    SplitWhole(dd, '-');
  }

  lemma PadYear(y: nat)
    requires y < 10000
    ensures YearToken(Pad(y, 4)) == Some(y)
  {
    PadValue(y, 4);
  }

  lemma PadMonth(m: nat)
    requires 1 <= m <= 12
    ensures MonthToken(Pad(m, 2)) == Some(m)
  {
    Pad2Chars(m);
  }

  lemma PadDay(d: nat)
    requires 1 <= d <= 31
    ensures DayToken(Pad(d, 2)) == Some(d)
  {
    Pad2Chars(d);
  }

  /** Writing a date as ISO text and reading it back with `%Y-%m-%d` gives the date again. */
  lemma IsoRoundTrip(d: Date)
    requires Valid(d)
    ensures Strptime(Iso(d), YearMonthDayDash) == Some(d)
  {
    IsoSplit(d);
    PadYear(d.year);
    PadMonth(d.month);
    PadDay(d.day);
  }
}
