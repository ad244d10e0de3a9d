/** The yes/no coercion `_normalize_import_df` applies to the `tagged_customers` and
    `multi_site` columns. */
module Flags {
  import opened Wrappers
  import opened Dates
  import opened Values

  predicate TrueWord(t: string) {
    t == "true" || t == "1" || t == "yes"
  }

  predicate FalseWord(t: string) {
    t == "false" || t == "0" || t == "no"
  }

  /** The answer a flag cell spells, if it spells one: `str(x).strip().lower()` in the yes-words
      or the no-words. */
  function FlagWord(v: Value): Option<bool> {
    var t := Lower(Strip(Str(v)));
    if TrueWord(t) then Some(true) else if FalseWord(t) then Some(false) else None
  }

  /** The `tagged_customers` / `multi_site` mapping: yes-words become True, no-words False,
      anything else is kept. */
  function CoerceFlag(v: Value): (r: Value)
    ensures r == v || r.Flag?
  {
    match FlagWord(v)
    case Some(b) => Flag(b)
    case None => v
  }

  lemma LowerTrue()
    ensures Lower("True") == "true"
  {
  }

  lemma LowerFalse()
    ensures Lower("False") == "false"
  {
  }

  lemma TrueText()
    ensures Lower(Strip("True")) == "true"
  {
    StripUnchanged("True");
    LowerTrue();
  }

  lemma FalseText()
    ensures Lower(Strip("False")) == "false"
  {
    StripUnchanged("False");
    LowerFalse();
  }

  /** A coerced flag spells its own answer. */
  lemma FlagWordOfFlag(b: bool)
    ensures FlagWord(Flag(b)) == Some(b)
  {
    if b {
      TrueText();
    } else {
      FalseText();
    }
  }

  /** The coercion is stable: applied to its own output it changes nothing, so the repeated
      normalisation on every load leaves flags as they are. */
  lemma CoerceFlagIdempotent(v: Value)
    ensures CoerceFlag(CoerceFlag(v)) == CoerceFlag(v)
  {
    match FlagWord(v)
    case Some(b) => FlagWordOfFlag(b);
    case None =>
  }

  /** The flag word of a cell is read off the text `str(x).strip().lower()`. */
  lemma SpelledAs(v: Value, u: string, t: string)
    requires Str(v) == u && Strip(u) == u && Lower(u) == t
    ensures FlagWord(v) == (if TrueWord(t) then Some(true) else if FalseWord(t) then Some(false) else None)
  {
  }

  lemma NotWords(t: string)
    requires t == "nan" || t == "none" || t == "1.0" || t == "0.0"
    ensures !TrueWord(t) && !FalseWord(t)
  {
    assert "nan"[0] != "yes"[0];
    assert "none"[1] != "true"[1];
  }

  /** Text of digits, dots and lower-case letters is kept by strip and lower. */
  lemma Plain(u: string)
    requires u == "1" || u == "0" || u == "1.0" || u == "0.0" || u == "nan"
    ensures Strip(u) == u && Lower(u) == u
  {
    assert u != [] && !IsSpace(u[0]) && !IsSpace(u[|u| - 1]);
    StripUnchanged(u);
    assert forall i :: 0 <= i < |u| ==> u[i] in "10.na";
    LowerKeeps(u);
  }

  lemma LowerNone()
    ensures Lower("None") == "none"
  {
  }

  lemma NonePlain(u: string)
    requires u == "None"
    ensures Strip(u) == u && Lower(u) == "none"
  {
    StripUnchanged(u);
    LowerNone();
  }

  /** Cells pandas left empty, and `None`, are not answers: they are kept for the later
      replacement of NaN by None. */
  lemma EmptyCellsKept(v: Value)
    requires v == NaN || v == Null
    ensures CoerceFlag(v) == v
  {
    if v == NaN {
      Plain("nan");
      NotWords("nan");
      SpelledAs(v, "nan", "nan");
    } else {
      NonePlain("None");
      NotWords("none");
      SpelledAs(v, "None", "none");
    }
  }

  lemma IntDigits(i: int)
    requires i == 0 || i == 1
    ensures Str(Int(i)) == [DigitChar(i)]
  {
  }

  /** A column pandas read as the integers 1 and 0 becomes True and False. */
  lemma IntegerFlags(i: int)
    requires i == 0 || i == 1
    ensures CoerceFlag(Int(i)) == Flag(i == 1)
  {
    IntDigits(i);
    var u := [DigitChar(i)];
    if i == 1 {
      assert u == "1";
      Plain("1");
    } else {
      assert u == "0";
      Plain("0");
    }
    SpelledAs(Int(i), u, u);
  }

  /** A column pandas read as floats (1.0 and 0.0, as when some cells are blank) is not
      coerced: `str(1.0)` is "1.0", which is not one of the words. */
  lemma FloatFlagsKept(v: Value)
    requires v == Float(1.0, "1.0") || v == Float(0.0, "0.0")
    ensures CoerceFlag(v) == v
  {
    var u := v.repr;
    NotWords(u);
    Plain(u);
    SpelledAs(v, u, u);
  }

  /** A text cell is read through its own text: `str` of a string is the string. */
  lemma TextCell(s: string)
    ensures CoerceFlag(Text(s)) ==
      if TrueWord(Lower(Strip(s))) then Flag(true)
      else if FalseWord(Lower(Strip(s))) then Flag(false)
      else Text(s)
  {
  }

  /** A yes-word, in any ASCII letter case and with any white space around it, becomes True;
      a no-word becomes False; any other word is kept as the text it was. */
  lemma PaddedTextFlag(pre: string, w: string, post: string)
    requires AllSpace(pre) && AllSpace(post)
    requires w != [] && !IsSpace(w[0]) && !IsSpace(w[|w| - 1])
    ensures TrueWord(Lower(w)) ==> CoerceFlag(Text(pre + w + post)) == Flag(true)
    ensures FalseWord(Lower(w)) ==> CoerceFlag(Text(pre + w + post)) == Flag(false)
    ensures !TrueWord(Lower(w)) && !FalseWord(Lower(w)) ==> CoerceFlag(Text(pre + w + post)) == Text(pre + w + post)
  {
    StripPadded(pre, w, post);
    TextCell(pre + w + post);
  }

  /** " Yes ", as a spreadsheet may spell it, becomes True. */
  lemma PaddedYes()
    ensures CoerceFlag(Text(" Yes ")) == Flag(true)
  {
    assert " Yes " == " " + "Yes" + " ";
    assert Lower("Yes") == "yes";
    PaddedTextFlag(" ", "Yes", " ");
  }

  /** "NO" followed by a tab becomes False. */
  lemma CapitalNo()
    ensures CoerceFlag(Text("NO\t")) == Flag(false)
  {
    assert "NO\t" == "" + "NO" + "\t";
    assert Lower("NO") == "no";
    PaddedTextFlag("", "NO", "\t");
  }

  /** "Y" is not one of the words, so it is kept. */
  lemma LetterYKept()
    ensures CoerceFlag(Text("Y")) == Text("Y")
  {
    assert "Y" == "" + "Y" + "";
    assert Lower("Y") == "y";
    PaddedTextFlag("", "Y", "");
  }
}
