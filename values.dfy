/** Cell values of a customer record as the backend sees them (pandas cells and JSON values),
    Python's `str()` and truth value on them, and the string helpers the backend calls. */
module Values {
  import opened Wrappers
  import opened Dates

  datatype Value =
    | Null                          // None
    | NaN                           // a float NaN that pandas put in an empty cell
    | Stamp(date: ValidDate)        // a datetime or pandas Timestamp (at midnight)
    | Flag(b: bool)
    | Int(i: int)
    | Float(x: real, repr: string)  // a finite float, with the text `str()` prints for it
    | Text(s: string)

  /** A customer record: `df.to_dict("records")` gives one map from column name to cell. */
  type Record = map<string, Value>

  /** `record.get(key, default)` */
  function Get(r: Record, key: string, default: Value): Value {
    if key in r then r[key] else default
  }

  function NatToString(n: nat): (s: string)
    ensures |s| >= 1 && AllDigits(s)
  {
    if n < 10 then [DigitChar(n)] else NatToString(n / 10) + [DigitChar(n % 10)]
  }

  function IntToString(i: int): string {
    if i < 0 then "-" + NatToString(-i) else NatToString(i)
  }

  /** `str(v)` */
  function Str(v: Value): string {
    match v
    case Null => "None"
    case NaN => "nan"
    case Stamp(d) => Iso(d) + " 00:00:00"
    case Flag(b) => if b then "True" else "False"
    case Int(i) => IntToString(i)
    case Float(_, r) => r
    case Text(s) => s
  }

  /** `bool(v)`: None, False, zero and the empty string are false; NaN is true. */
  predicate Truthy(v: Value) {
    match v
    case Null => false
    case NaN => true
    case Stamp(_) => true
    case Flag(b) => b
    case Int(i) => i != 0
    case Float(x, _) => x != 0.0
    case Text(s) => s != ""
  }

  /** `str.isspace` for one character. */
  predicate IsSpace(c: char) {
    c == ' ' || ('\t' <= c <= '\r') || ('\U{1c}' <= c <= '\U{1f}') || c == '\U{85}' || c == '\U{a0}'
    || c == '\U{1680}' || ('\U{2000}' <= c <= '\U{200a}') || c == '\U{2028}' || c == '\U{2029}'
    || c == '\U{202f}' || c == '\U{205f}' || c == '\U{3000}'
  }

  function StripLeft(s: string): string {
    if s != [] && IsSpace(s[0]) then StripLeft(s[1..]) else s
  }

  function StripRight(s: string): string {
    if s != [] && IsSpace(s[|s| - 1]) then StripRight(s[..|s| - 1]) else s
  }

  /** `str.strip()`: drop the white space at both ends. */
  function Strip(s: string): string {
    StripRight(StripLeft(s))
  }

  lemma StripUnchanged(s: string)
    requires s != [] && !IsSpace(s[0]) && !IsSpace(s[|s| - 1])
    ensures Strip(s) == s
  {
  }

  predicate AllSpace(s: string) {
    forall i :: 0 <= i < |s| ==> IsSpace(s[i])
  }

  /** Leading white space is dropped by `lstrip`. */
  lemma {:induction false} StripLeftSpaces(pre: string, s: string)
    requires AllSpace(pre)
    requires s != [] && !IsSpace(s[0])
    ensures StripLeft(pre + s) == s
  {
    if pre != [] {
      assert (pre + s)[0] == pre[0];
      assert (pre + s)[1..] == pre[1..] + s;
      StripLeftSpaces(pre[1..], s);
    }
  }

  /** Trailing white space is dropped by `rstrip`. */
  lemma {:induction false} StripRightSpaces(s: string, post: string)
    requires AllSpace(post)
    requires s != [] && !IsSpace(s[|s| - 1])
    ensures StripRight(s + post) == s
  {
    if post != [] {
      var init := post[..|post| - 1];
      assert (s + post)[|s + post| - 1] == post[|post| - 1];
      assert (s + post)[..|s + post| - 1] == s + init;
      StripRightSpaces(s, init);
    } else {
      assert s + post == s;
    }
  }

  /** `strip` gives back the text between the white space at its two ends. */
  lemma StripPadded(pre: string, w: string, post: string)
    requires AllSpace(pre) && AllSpace(post)
    requires w != [] && !IsSpace(w[0]) && !IsSpace(w[|w| - 1])
    ensures Strip(pre + w + post) == w
  {
    assert (w + post)[0] == w[0];
    assert pre + w + post == pre + (w + post);
    StripLeftSpaces(pre, w + post);
    StripRightSpaces(w, post);
  }

  function LowerChar(c: char): char {
    if 'A' <= c <= 'Z' then (c as int + 32) as char else c
  }

  /** `str.lower()` on the ASCII letters. */
  function Lower(s: string): string {
    if s == [] then [] else [LowerChar(s[0])] + Lower(s[1..])
  }

  /** Lower-casing works character by character. */
  lemma {:induction false} LowerChars(s: string)
    ensures |Lower(s)| == |s| && forall i :: 0 <= i < |s| ==> Lower(s)[i] == LowerChar(s[i])
  {
    if s != [] {
      LowerChars(s[1..]);
    }
  }

  /** Text without capital letters is its own lower case. */
  lemma LowerKeeps(s: string)
    requires forall i :: 0 <= i < |s| ==> !('A' <= s[i] <= 'Z')
    ensures Lower(s) == s
  {
    LowerChars(s);
  }
}
