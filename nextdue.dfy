/** `calculate_next_due_date`: the visit frequency read as a whole number of days
    (`int(float(v))`) and the due date that many days after the last visit. */
module NextDue {
  import opened Wrappers
  import opened Dates
  import opened Values
  import opened DateParse

  /** `int(x)` for a float: truncation toward zero. */
  function Trunc(x: real): (n: int)
    ensures x >= 0.0 ==> n as real <= x < n as real + 1.0
    ensures x < 0.0 ==> n as real - 1.0 < x <= n as real
  {
    if x >= 0.0 then x.Floor else -((-x).Floor)
  }

  /** Decimal text `[+-]digits[.digits]` (or `.digits`, `digits.`) with an optional exponent
      `e[+-]digits`, as `float()` reads it after stripping. */
  function DecimalText(t: string): Option<real> {
    var negative := t != [] && t[0] == '-';
    var body := if t != [] && (t[0] == '-' || t[0] == '+') then t[1..] else t;
    var parts := Split(Lower(body), 'e');
    if |parts| > 2 then None
    else
      match (Mantissa(parts[0]), if |parts| == 2 then Exponent(parts[1]) else Some(0))
      case (Some(m), Some(e)) =>
        var x := if e >= 0 then m * Pow10(e) as real else (Pow10Positive(-e); m / Pow10(-e) as real);
        Some(if negative then -x else x)
      case _ => None
  }

  lemma {:induction false} Pow10Positive(w: nat)
    ensures Pow10(w) >= 1
  {
    if w > 0 {
      Pow10Positive(w - 1);
    }
  }

  function Mantissa(t: string): Option<real> {
    var parts := Split(t, '.');
    if |parts| > 2 then None
    else
      var whole := parts[0];
      var frac := if |parts| == 2 then parts[1] else [];
      if whole == [] && frac == [] then None
      else if !AllDigits(whole) || !AllDigits(frac) then None
      else
        Pow10Positive(|frac|);
        Some(DigitsValue(whole) as real + DigitsValue(frac) as real / Pow10(|frac|) as real)
  }

  function Exponent(t: string): Option<int> {
    var negative := t != [] && t[0] == '-';
    var digits := if t != [] && (t[0] == '-' || t[0] == '+') then t[1..] else t;
    if digits == [] || !AllDigits(digits) then None
    else Some(if negative then -(DigitsValue(digits) as int) else DigitsValue(digits))
  }

  /** `int(float(v))`, or None where it raises. */
  function Frequency(v: Value): Option<int> {
    match v
    case Null => None
    case NaN => None
    case Stamp(_) => None
    case Flag(b) => Some(if b then 1 else 0)
    case Int(i) => Some(i)
    case Float(x, _) => Some(Trunc(x))
    case Text(t) =>
      match DecimalText(Strip(t))
      case None => None
      case Some(x) => Some(Trunc(x))
  }

  /** `timedelta(days=n)` exists for |n| <= 999999999. */
  const MaxDeltaDays := 999999999

  /** `calculate_next_due_date`: the ISO date `visit_frequency` days after the last visit, or
      None when the last visit is falsy or unreadable, the frequency is not a number, or the
      arithmetic leaves the range of `timedelta` or `date`. */
  function NextDueDate(lastVisit: Value, frequency: Value): Option<string> {
    if !Truthy(lastVisit) then None
    else match IsoOf(ParseDate(lastVisit))
      case None => None
      case Some(iso) =>
        match Strptime(iso, YearMonthDayDash)
        case None => None
        case Some(d) =>
          match Frequency(frequency)
          case None => None
          case Some(n) =>
            if n < -MaxDeltaDays || n > MaxDeltaDays then None
            else if Ordinal(d) + n < 1 || Ordinal(d) + n > MaxOrdinal then None
            else Some(Iso(AddDays(d, n)))
  }

  /** The next due date is there exactly when every step succeeds, and it reads back as the
      date `int(float(visit_frequency))` days after the last visit. */
  lemma NextDueIsDaysLater(lastVisit: Value, frequency: Value)
    ensures NextDueDate(lastVisit, frequency).Some? <==>
      && Truthy(lastVisit) && ParseDate(lastVisit).Some? && Frequency(frequency).Some?
      && -MaxDeltaDays <= Frequency(frequency).value <= MaxDeltaDays
      && 1 <= Ordinal(ParseDate(lastVisit).value) + Frequency(frequency).value <= MaxOrdinal
    ensures NextDueDate(lastVisit, frequency).Some? ==>
      && ParseDate(Text(NextDueDate(lastVisit, frequency).value)).Some?
      && Ordinal(ParseDate(Text(NextDueDate(lastVisit, frequency).value)).value)
         == Ordinal(ParseDate(lastVisit).value) + Frequency(frequency).value
  {
    if ParseDate(lastVisit).Some? {
      var d := ParseDate(lastVisit).value;
      IsoRoundTrip(d);
      if NextDueDate(lastVisit, frequency).Some? {
        var e := AddDays(d, Frequency(frequency).value);
        IsoTextRoundTrip(e);
      }
    }
  }

  lemma {:induction false} DigitsOfNat(n: nat)
    ensures DigitsValue(NatToString(n)) == n
  {
    if n >= 10 {
      DigitsOfNat(n / 10);
      var s := NatToString(n);
      assert s[..|s| - 1] == NatToString(n / 10);
    }
  }

  lemma LowerDigits(s: string)
    requires forall i :: 0 <= i < |s| ==> IsDigit(s[i]) || s[i] == '.'
    ensures Lower(s) == s
  {
    LowerKeeps(s);
  }

  lemma MantissaWhole(s: string)
    requires s != [] && AllDigits(s)
    ensures Mantissa(s) == Some(DigitsValue(s) as real)
  {
    assert '.' !in s;
    SplitWhole(s, '.');
  }

  lemma SplitPointZero(s: string)
    requires '.' !in s
    ensures Split(s + ".0", '.') == [s, "0"]
  {
    SplitJoin(s, "0", '.');
    SplitWhole("0", '.');
    assert s + ['.'] + "0" == s + ".0";
  }

  lemma MantissaPointZero(s: string)
    requires s != [] && AllDigits(s)
    ensures Mantissa(s + ".0") == Some(DigitsValue(s) as real)
  {
    assert '.' !in s;
    SplitPointZero(s);
    ZeroFraction("0");
    MantissaTwoParts(s + ".0", s, "0");
  }

  /** A fraction of zeros adds nothing. */
  lemma ZeroFraction(f: string)
    requires f == "0"
    ensures AllDigits(f) && DigitsValue(f) == 0
  {
    assert f[..0] == [];
  }

  /** A text of two digit groups around one point reads as whole part plus fraction. */
  lemma MantissaTwoParts(t: string, w: string, f: string)
    requires Split(t, '.') == [w, f] && w != [] && AllDigits(w) && AllDigits(f) && DigitsValue(f) == 0
    ensures Mantissa(t) == Some(DigitsValue(w) as real)
  {
    Pow10Positive(|f|);
    var p := Pow10(|f|) as real;
    assert p > 0.0;
    assert DigitsValue(f) as real / p == 0.0 / p == 0.0;
    assert Mantissa(t) == Some(DigitsValue(w) as real + 0.0 / p);
  }

  /** Unsigned text without an exponent is read by its mantissa alone. */
  lemma PlainDecimal(t: string)
    requires t != [] && IsDigit(t[0]) && Lower(t) == t && 'e' !in t
    ensures DecimalText(t) == Mantissa(t)
  {
    SplitWhole(t, 'e');
  }

  /** Stripped text that `float()` reads as x gives `int(x)` days. */
  lemma FrequencyOfDecimal(t: string, x: real)
    requires Strip(t) == t && DecimalText(t) == Some(x)
    ensures Frequency(Text(t)) == Some(Trunc(x))
  {
  }

  lemma WholeText(s: string)
    requires s != [] && AllDigits(s)
    ensures Frequency(Text(s)) == Some(DigitsValue(s))
  {
    assert IsDigit(s[0]) && IsDigit(s[|s| - 1]);
    StripUnchanged(s);
    LowerDigits(s);
    assert 'e' !in s;
    PlainDecimal(s);
    MantissaWhole(s);
    FrequencyOfDecimal(s, DigitsValue(s) as real);
  }

  lemma WholePointZeroText(s: string)
    requires s != [] && AllDigits(s)
    ensures Frequency(Text(s + ".0")) == Some(DigitsValue(s))
  {
    var t := s + ".0";
    assert IsDigit(t[0]) && t[|t| - 1] == '0';
    StripUnchanged(t);
    LowerDigits(t);
    assert 'e' !in t;
    PlainDecimal(t);
    MantissaPointZero(s);
    FrequencyOfDecimal(t, DigitsValue(s) as real);
  }

  /** A whole number of days written as text, with or without a trailing ".0", is read as that
      number (the "56.0" the source allows). */
  lemma FrequencyOfText(n: nat)
    ensures Frequency(Text(NatToString(n))) == Some(n)
    ensures Frequency(Text(NatToString(n) + ".0")) == Some(n)
  {
    DigitsOfNat(n);
    WholeText(NatToString(n));
    WholePointZeroText(NatToString(n));
  }
}
