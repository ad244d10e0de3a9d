/** The header normalisation at the start of `_normalize_import_df`: every column name is
    stripped and lower-cased, the names `CSV_COLUMN_MAP` knows are renamed to their targets,
    and then a soft pass matches names that differ only by spaces standing for underscores. */
module Headers {
  import opened Wrappers
  import opened Values

  /** `CSV_COLUMN_MAP.items()`, in the order of the dictionary display. */
  const ColumnMap: seq<(string, string)> := [
    ("company", "company"),
    ("account_number", "account_number"),
    ("country", "country"),
    ("postcode", "postcode"),
    ("status", "status"),
    ("current_year_spend", "current_spend"),
    ("current_spend", "current_spend"),
    ("tagged_customer", "tagged_customers"),
    ("tagged_customers", "tagged_customers"),
    ("date_of_last_visit", "date_of_last_visit"),
    ("visit_frequency_(days)", "visit_frequency"),
    ("visit_frequency", "visit_frequency"),
    ("next_due_date", "next_due_date"),
    ("area_code", "area_code"),
    ("multi_site?", "multi_site"),
    ("multi_site", "multi_site"),
    ("urgency", "urgency")]

  /** The names the map renames to. */
  const Targets: seq<string> := ["company", "account_number", "country", "postcode", "status",
    "current_spend", "tagged_customers", "date_of_last_visit", "visit_frequency", "next_due_date",
    "area_code", "multi_site", "urgency"]

  /** `items_dict.get(c)` for a dictionary given by its items. */
  function TargetIn(c: string, items: seq<(string, string)>): Option<string> {
    if items == [] then None
    else if items[0].0 == c then Some(items[0].1)
    else TargetIn(c, items[1..])
  }

  /** `CSV_COLUMN_MAP.get(c)` */
  function Target(c: string): Option<string> {
    TargetIn(c, ColumnMap)
  }

  /** `str.replace(' ', '_')` */
  function Underscored(s: string): string {
    if s == [] then [] else [if s[0] == ' ' then '_' else s[0]] + Underscored(s[1..])
  }

  /** Text without blanks has none to replace. */
  lemma {:induction false} UnderscoredKeeps(s: string)
    requires ' ' !in s
    ensures Underscored(s) == s
  {
    if s != [] {
      UnderscoredKeeps(s[1..]);
    }
  }

  /** `df.columns.str.strip().str.lower()` for one name. */
  function Clean(c: string): string {
    Lower(Strip(c))
  }

  /** `c.lower().strip().replace(' ', '_')`: the key of the soft match. */
  function SoftKey(c: string): string {
    Underscored(Strip(Lower(c)))
  }

  /** The exact pass: `df.rename(columns={c: CSV_COLUMN_MAP.get(c, c) for c in df.columns
      if c in CSV_COLUMN_MAP})`. */
  function Exact(cols: seq<string>): (r: seq<string>)
    ensures |r| == |cols|
    ensures forall i :: 0 <= i < |cols| ==> r[i] == (match Target(cols[i]) case Some(t) => t case None => cols[i])
  {
    if cols == [] then []
    else Exact(cols[..|cols| - 1]) + [match Target(cols[|cols| - 1]) case Some(t) => t case None => cols[|cols| - 1]]
  }

  /** `df.rename(columns={from: to})`: every column named `from` is renamed. */
  function Rename(cols: seq<string>, from: string, to: string): (r: seq<string>)
    ensures |r| == |cols|
    ensures forall i :: 0 <= i < |cols| ==> r[i] == (if cols[i] == from then to else cols[i])
  {
    if cols == [] then []
    else Rename(cols[..|cols| - 1], from, to) + [if cols[|cols| - 1] == from then to else cols[|cols| - 1]]
  }

  /** `lower_map = {c.lower().strip().replace(' ', '_'): c for c in df.columns}`: each soft key
      maps to a column that has it, the last such column in the table. */
  function SoftIndex(cols: seq<string>): map<string, string> {
    if cols == [] then map[]
    else SoftIndex(cols[..|cols| - 1])[SoftKey(cols[|cols| - 1]) := cols[|cols| - 1]]
  }

  lemma RenameOne(c: string, from: string, to: string)
    ensures Rename([c], from, to) == [if c == from then to else c]
  {
    assert [c][..0] == [];
  }

  lemma {:induction false} RenameAbsent(cols: seq<string>, from: string, to: string)
    requires from !in cols
    ensures Rename(cols, from, to) == cols
  {
    if cols != [] {
      RenameAbsent(cols[..|cols| - 1], from, to);
    }
  }

  /** One iteration of `for original, target in CSV_COLUMN_MAP.items()`. */
  function SoftStep(cols: seq<string>, lm: map<string, string>, item: (string, string)): seq<string> {
    var key := SoftKey(item.0);
    if key in lm && item.1 !in cols then Rename(cols, lm[key], item.1) else cols
  }

  /** The soft pass over the given items, in order, with `lower_map` fixed before the loop. */
  function SoftPass(cols: seq<string>, lm: map<string, string>, items: seq<(string, string)>): seq<string>
    decreases |items|
  {
    if items == [] then cols else SoftPass(SoftStep(cols, lm, items[0]), lm, items[1..])
  }

  /** The column names after cleaning and the exact pass, before the soft pass. */
  function ExactNames(cols: seq<string>): seq<string> {
    Exact(seq(|cols|, i requires 0 <= i < |cols| => Clean(cols[i])))
  }

  function Normalized(cols: seq<string>): seq<string> {
    var exact := ExactNames(cols);
    SoftPass(exact, SoftIndex(exact), ColumnMap)
  }

  /** The soft-match loop over the items of the map, renaming `df.columns` as it goes. */
  method SoftRename(cols: seq<string>, items: seq<(string, string)>) returns (r: seq<string>)
    ensures r == SoftPass(cols, SoftIndex(cols), items)
  {
    var lowerMap := SoftIndex(cols);
    r := cols;
    var i := 0;
    while i < |items|
      invariant 0 <= i <= |items|
      invariant SoftPass(r, lowerMap, items[i..]) == SoftPass(cols, lowerMap, items)
    {
      var (original, target) := items[i];
      var key := SoftKey(original);
      if key in lowerMap && target !in r {
        r := Rename(r, lowerMap[key], target);
      }
      assert items[i..][1..] == items[i + 1..];
      i := i + 1;
    }
  }

  /** Lines 127-139 of the import normalisation: clean, rename exactly, rename softly. */
  method NormalizeHeaders(cols: seq<string>) returns (r: seq<string>)
    ensures r == Normalized(cols)
  {
    var cleaned := seq(|cols|, i requires 0 <= i < |cols| => Clean(cols[i]));
    var renamed := Exact(cleaned);
    r := SoftRename(renamed, ColumnMap);
  }

  // ---------------------------------------------------------------- facts about the map

  lemma {:induction false} TargetInFound(c: string, items: seq<(string, string)>)
    ensures TargetIn(c, items).Some? ==> exists j :: 0 <= j < |items| && items[j] == (c, TargetIn(c, items).value)
    ensures TargetIn(c, items).None? ==> forall j :: 0 <= j < |items| ==> items[j].0 != c
  {
    if items != [] && items[0].0 != c {
      TargetInFound(c, items[1..]);
      assert forall j :: 1 <= j < |items| ==> items[j] == items[1..][j - 1];
      if TargetIn(c, items).Some? {
        var j :| 0 <= j < |items[1..]| && items[1..][j] == (c, TargetIn(c, items).value);
        assert items[j + 1] == (c, TargetIn(c, items).value);
      }
    }
  }

  /** The characters the names of the map are written with. */
  predicate NameChar(c: char) {
    'a' <= c <= 'z' || c == '_' || c == '(' || c == ')' || c == '?'
  }

  /** A name written in lower case without blanks is its own cleaned name and soft key. */
  lemma PlainName(s: string)
    requires s != [] && forall i :: 0 <= i < |s| ==> NameChar(s[i])
    ensures Clean(s) == s && SoftKey(s) == s
  {
    StripUnchanged(s);
    LowerKeeps(s);
    UnderscoredKeeps(s);
  }

  /** The names of the map, by position: non-empty, lower case, no blanks. */
  lemma KeysPlainA(j: int)
    requires 0 <= j < 5
    ensures ColumnMap[j].0 != [] && forall i :: 0 <= i < |ColumnMap[j].0| ==> NameChar(ColumnMap[j].0[i])
  {
  }

  lemma KeysPlainB(j: int)
    requires 5 <= j < 9
    ensures ColumnMap[j].0 != [] && forall i :: 0 <= i < |ColumnMap[j].0| ==> NameChar(ColumnMap[j].0[i])
  {
  }

  lemma KeysPlainC(j: int)
    requires 9 <= j < 13
    ensures ColumnMap[j].0 != [] && forall i :: 0 <= i < |ColumnMap[j].0| ==> NameChar(ColumnMap[j].0[i])
  {
  }

  lemma KeysPlainD(j: int)
    requires 13 <= j < 17
    ensures ColumnMap[j].0 != [] && forall i :: 0 <= i < |ColumnMap[j].0| ==> NameChar(ColumnMap[j].0[i])
  {
  }

  /** Every name of the map is its own soft key. */
  lemma KeyClean(j: int)
    requires 0 <= j < |ColumnMap|
    ensures SoftKey(ColumnMap[j].0) == ColumnMap[j].0
  {
    if j < 5 {
      KeysPlainA(j);
    } else if j < 9 {
      KeysPlainB(j);
    } else if j < 13 {
      KeysPlainC(j);
    } else {
      KeysPlainD(j);
    }
    PlainName(ColumnMap[j].0);
  }

  lemma TargetsOfA(j: int)
    requires 0 <= j < 9
    ensures ColumnMap[j].1 in Targets
  {
  }

  lemma TargetsOfB(j: int)
    requires 9 <= j < 17
    ensures ColumnMap[j].1 in Targets
  {
  }

  lemma RenamedKeys()
    ensures "current_year_spend" !in Targets && "tagged_customer" !in Targets
    ensures "visit_frequency_(days)" !in Targets && "multi_site?" !in Targets
  {
  }

  lemma SelfKeys(j: int)
    requires 0 <= j < |ColumnMap| && j != 5 && j != 7 && j != 10 && j != 14
    ensures ColumnMap[j].0 == ColumnMap[j].1
  {
  }

  /** Every item renames to a target, and an item whose name is a target keeps it. */
  lemma ItemTargets(j: int)
    requires 0 <= j < |ColumnMap|
    ensures ColumnMap[j].1 in Targets
    ensures ColumnMap[j].0 in Targets ==> ColumnMap[j].1 == ColumnMap[j].0
  {
    if j < 9 {
      TargetsOfA(j);
    } else {
      TargetsOfB(j);
    }
    if j == 5 || j == 7 || j == 10 || j == 14 {
      RenamedKeys();
      assert ColumnMap[5].0 == "current_year_spend" && ColumnMap[7].0 == "tagged_customer";
      assert ColumnMap[10].0 == "visit_frequency_(days)" && ColumnMap[14].0 == "multi_site?";
    } else {
      SelfKeys(j);
    }
  }

  /** Every target is a name of the map, and the map sends it to itself. */
  lemma TargetsSelfMapped(t: string)
    requires t in Targets
    ensures Target(t) == Some(t)
  {
    var k :| 0 <= k < |Targets| && Targets[k] == t;
    var j := [0, 1, 2, 3, 4, 6, 8, 9, 11, 12, 13, 15, 16][k];
    assert ColumnMap[j].0 == t;
    TargetInFound(t, ColumnMap);
    var j' :| 0 <= j' < |ColumnMap| && ColumnMap[j'] == (t, Target(t).value);
    ItemTargets(j');
  }

  /** What the map sends a name to is a target. */
  lemma TargetIsTarget(c: string)
    ensures Target(c).Some? ==> Target(c).value in Targets
  {
    TargetInFound(c, ColumnMap);
    if Target(c).Some? {
      var j :| 0 <= j < |ColumnMap| && ColumnMap[j] == (c, Target(c).value);
      ItemTargets(j);
    }
  }

  /** A target is its own soft key. */
  lemma TargetSoftKey(t: string)
    requires t in Targets
    ensures SoftKey(t) == t
  {
    TargetsSelfMapped(t);
    TargetInFound(t, ColumnMap);
    var j :| 0 <= j < |ColumnMap| && ColumnMap[j] == (t, t);
    KeyClean(j);
  }

  // ---------------------------------------------------------------- the passes

  /** Renaming exactly twice renames nothing more: targets are names the map sends to
      themselves, so the normalisation repeated on every load is stable. */
  lemma ExactIdempotent(cols: seq<string>)
    ensures Exact(Exact(cols)) == Exact(cols)
  {
    var e := Exact(cols);
    forall i | 0 <= i < |cols|
      ensures Exact(e)[i] == e[i]
    {
      TargetIsTarget(cols[i]);
      if Target(cols[i]).Some? {
        TargetsSelfMapped(e[i]);
      }
    }
  }

  /** `lower_map` sends each soft key to a column that has it. */
  lemma {:induction false} SoftIndexSound(cols: seq<string>)
    ensures forall k :: k in SoftIndex(cols) ==> SoftKey(SoftIndex(cols)[k]) == k && SoftIndex(cols)[k] in cols
  {
    if cols != [] {
      var init := cols[..|cols| - 1];
      SoftIndexSound(init);
      assert cols == init + [cols[|cols| - 1]];
    }
  }

  /** Every column's soft key is in `lower_map`, and it names the last column that has it. */
  lemma {:induction false} SoftIndexLastWins(cols: seq<string>, i: int)
    requires 0 <= i < |cols| && forall m :: i < m < |cols| ==> SoftKey(cols[m]) != SoftKey(cols[i])
    ensures SoftKey(cols[i]) in SoftIndex(cols) && SoftIndex(cols)[SoftKey(cols[i])] == cols[i]
  {
    if i < |cols| - 1 {
      var init := cols[..|cols| - 1];
      SoftIndexLastWins(init, i);
    }
  }

  predicate SoundIndex(lm: map<string, string>) {
    forall k :: k in lm ==> SoftKey(lm[k]) == k
  }

  /** The items of a well-formed map: every name is its own soft key, and an item whose
      name is a target keeps it. */
  predicate WellFormed(items: seq<(string, string)>) {
    forall j :: 0 <= j < |items| ==>
      SoftKey(items[j].0) == items[j].0 && (items[j].0 in Targets ==> items[j].1 == items[j].0)
  }

  lemma ColumnMapWellFormed()
    ensures WellFormed(ColumnMap)
  {
    forall j | 0 <= j < |ColumnMap|
      ensures SoftKey(ColumnMap[j].0) == ColumnMap[j].0
      ensures ColumnMap[j].0 in Targets ==> ColumnMap[j].1 == ColumnMap[j].0
    {
      KeyClean(j);
      ItemTargets(j);
    }
  }

  lemma {:induction false} SoftPassLength(cols: seq<string>, lm: map<string, string>, items: seq<(string, string)>)
    ensures |SoftPass(cols, lm, items)| == |cols|
    decreases |items|
  {
    if items != [] {
      SoftPassLength(SoftStep(cols, lm, items[0]), lm, items[1..]);
    }
  }

  /** The soft pass never renames a column that already carries a target. */
  lemma {:induction false} SoftPassKeepsTargets(cols: seq<string>, lm: map<string, string>,
                                                items: seq<(string, string)>, i: int)
    requires SoundIndex(lm) && WellFormed(items) && 0 <= i < |cols| && cols[i] in Targets
    ensures |SoftPass(cols, lm, items)| == |cols| && SoftPass(cols, lm, items)[i] == cols[i]
    decreases |items|
  {
    SoftPassLength(cols, lm, items);
    if items != [] {
      var next := SoftStep(cols, lm, items[0]);
      var key := SoftKey(items[0].0);
      if key in lm && items[0].1 !in cols && cols[i] == lm[key] {
        TargetSoftKey(cols[i]);
        assert false;
      }
      assert next[i] == cols[i];
      assert WellFormed(items[1..]) by {
        assert forall j :: 0 <= j < |items[1..]| ==> items[1..][j] == items[j + 1];
      }
      SoftPassKeepsTargets(next, lm, items[1..], i);
    }
  }

  /** The soft pass never renames a column whose soft key is no name of the items. */
  lemma {:induction false} SoftPassKeepsUnknown(cols: seq<string>, lm: map<string, string>,
                                                items: seq<(string, string)>, i: int)
    requires SoundIndex(lm) && 0 <= i < |cols|
    requires forall j :: 0 <= j < |items| ==> SoftKey(items[j].0) != SoftKey(cols[i])
    ensures |SoftPass(cols, lm, items)| == |cols| && SoftPass(cols, lm, items)[i] == cols[i]
    decreases |items|
  {
    SoftPassLength(cols, lm, items);
    if items != [] {
      var next := SoftStep(cols, lm, items[0]);
      assert SoftKey(items[0].0) != SoftKey(cols[i]);
      assert next[i] == cols[i];
      assert forall j :: 0 <= j < |items[1..]| ==> items[1..][j] == items[j + 1];
      SoftPassKeepsUnknown(next, lm, items[1..], i);
    }
  }

  /** A column whose cleaned name the map knows ends up with its target, whatever the other
      columns are. */
  lemma NormalizeRecognised(cols: seq<string>, i: int)
    requires 0 <= i < |cols| && Target(Clean(cols[i])).Some?
    ensures |Normalized(cols)| == |cols| && Normalized(cols)[i] == Target(Clean(cols[i])).value
  {
    var cleaned := seq(|cols|, i requires 0 <= i < |cols| => Clean(cols[i]));
    var exact := Exact(cleaned);
    TargetIsTarget(cleaned[i]);
    SoftIndexSound(exact);
    ColumnMapWellFormed();
    SoftPassKeepsTargets(exact, SoftIndex(exact), ColumnMap, i);
  }

  /** A column that matches the map neither exactly nor softly keeps its cleaned name. */
  lemma NormalizeUnknown(cols: seq<string>, i: int)
    requires 0 <= i < |cols| && Target(Clean(cols[i])).None? && Target(SoftKey(Clean(cols[i]))).None?
    ensures |Normalized(cols)| == |cols| && Normalized(cols)[i] == Clean(cols[i])
  {
    var cleaned := seq(|cols|, i requires 0 <= i < |cols| => Clean(cols[i]));
    var exact := Exact(cleaned);
    SoftIndexSound(exact);
    TargetInFound(SoftKey(Clean(cols[i])), ColumnMap);
    forall j | 0 <= j < |ColumnMap|
      ensures SoftKey(ColumnMap[j].0) != SoftKey(exact[i])
    {
      KeyClean(j);
    }
    SoftPassKeepsUnknown(exact, SoftIndex(exact), ColumnMap, i);
  }

  /** Once the only column has been renamed away from c, no later item changes it. */
  lemma {:induction false} SoftPassSettled(t: string, c: string, items: seq<(string, string)>)
    requires t != c
    ensures SoftPass([t], map[SoftKey(c) := c], items) == [t]
    decreases |items|
  {
    if items != [] {
      var lm := map[SoftKey(c) := c];
      var key := SoftKey(items[0].0);
      if key in lm {
        assert lm[key] == c;
        RenameAbsent([t], c, items[0].1);
      }
      assert SoftStep([t], lm, items[0]) == [t];
      SoftPassSettled(t, c, items[1..]);
    }
  }

  /** Every name of the items is its own soft key. */
  predicate SoftNames(items: seq<(string, string)>) {
    forall j :: 0 <= j < |items| ==> SoftKey(items[j].0) == items[j].0
  }

  /** A table of one column c: the first item whose name is c's soft key renames it. */
  lemma {:induction false} SoftPassSingle(c: string, items: seq<(string, string)>)
    requires SoftNames(items)
    requires TargetIn(SoftKey(c), items).Some? ==> TargetIn(SoftKey(c), items).value != c
    ensures SoftPass([c], map[SoftKey(c) := c], items) ==
      (match TargetIn(SoftKey(c), items) case Some(t) => [t] case None => [c])
    decreases |items|
  {
    if items != [] {
      var lm := map[SoftKey(c) := c];
      var key := SoftKey(items[0].0);
      assert key == items[0].0;
      if key == SoftKey(c) {
        RenameOne(c, c, items[0].1);
        assert SoftStep([c], lm, items[0]) == [items[0].1];
        SoftPassSettled(items[0].1, c, items[1..]);
      } else {
        assert SoftStep([c], lm, items[0]) == [c];
        assert SoftNames(items[1..]) by {
          assert forall j :: 0 <= j < |items[1..]| ==> items[1..][j] == items[j + 1];
        }
        SoftPassSingle(c, items[1..]);
      }
    }
  }

  lemma ExactSingle(c: string)
    requires Target(c).None?
    ensures Exact([c]) == [c]
  {
    assert [c][..0] == [];
  }

  lemma SoftIndexSingle(c: string)
    ensures SoftIndex([c]) == map[SoftKey(c) := c]
  {
    assert [c][..0] == [];
  }

  lemma NormalizedSingle(h: string)
    requires Target(Clean(h)).None?
    ensures Normalized([h]) == SoftPass([Clean(h)], map[SoftKey(Clean(h)) := Clean(h)], ColumnMap)
  {
    var c := Clean(h);
    var cleaned := seq(1, i requires 0 <= i < 1 => Clean([h][i]));
    assert cleaned == [c];
    ExactSingle(c);
    SoftIndexSingle(c);
  }

  /** A name the map does not know is not the target of any name. */
  lemma UnknownNotTarget(c: string, k: string)
    requires Target(c).None? && Target(k).Some?
    ensures Target(k).value != c
  {
    var t := Target(k).value;
    TargetIsTarget(k);
    TargetsSelfMapped(t);
  }

  /** The soft match: a lone header like "Account Number" that no name of the map equals once
      cleaned is renamed to the target of its soft key. */
  lemma SoftMatch(h: string)
    requires Target(Clean(h)).None? && Target(SoftKey(Clean(h))).Some?
    ensures Normalized([h]) == [Target(SoftKey(Clean(h))).value]
  {
    var c := Clean(h);
    NormalizedSingle(h);
    UnknownNotTarget(c, SoftKey(c));
    ColumnMapWellFormed();
    assert SoftNames(ColumnMap);
    SoftPassSingle(c, ColumnMap);
  }

  /** The soft pass of a column c that `lower_map` resolves to itself: the first item named with
      c's soft key renames it to that item's target t, provided no earlier step brings t into the
      table; later items leave the target alone. */
  lemma {:induction false} SoftPassRenames(cols: seq<string>, lm: map<string, string>,
                                           items: seq<(string, string)>, i: int, t: string)
    requires SoundIndex(lm) && WellFormed(items)
    requires 0 <= i < |cols| && SoftKey(cols[i]) in lm && lm[SoftKey(cols[i])] == cols[i]
    requires TargetIn(SoftKey(cols[i]), items) == Some(t) && t in Targets
    requires forall m :: 0 <= m < |cols| ==> cols[m] != t
    requires forall j :: 0 <= j < |items| && items[j].1 == t && items[j].0 != SoftKey(cols[i]) ==> items[j].0 !in lm
    ensures |SoftPass(cols, lm, items)| == |cols| && SoftPass(cols, lm, items)[i] == t
    decreases |items|
  {
    var c, k := cols[i], SoftKey(cols[i]);
    var key := SoftKey(items[0].0);
    assert key == items[0].0;
    var next := SoftStep(cols, lm, items[0]);
    assert WellFormed(items[1..]) by {
      assert forall j :: 0 <= j < |items[1..]| ==> items[1..][j] == items[j + 1];
    }
    if key == k {
      assert next == Rename(cols, c, t);
      assert next[i] == t;
      SoftPassKeepsTargets(next, lm, items[1..], i);
    } else {
      if key in lm && items[0].1 !in cols {
        assert SoftKey(lm[key]) == key;
        assert items[0].1 != t;
      }
      assert next[i] == c;
      assert forall m :: 0 <= m < |next| ==> next[m] != t;
      assert forall j :: 0 <= j < |items[1..]| ==> items[1..][j] == items[j + 1];
      SoftPassRenames(next, lm, items[1..], i, t);
      SoftPassLength(cols, lm, items);
    }
  }

  /** No column other than i has a soft key that is the name of an item renaming to t, so
      `lower_map` holds none of those names except i's own soft key. */
  lemma OthersNotIndexed(e: seq<string>, i: int, t: string, items: seq<(string, string)>)
    requires 0 <= i < |e|
    requires forall m, j :: 0 <= m < |e| && m != i && 0 <= j < |items| && items[j].1 == t ==>
      SoftKey(e[m]) != items[j].0
    ensures forall j :: 0 <= j < |items| && items[j].1 == t && items[j].0 != SoftKey(e[i]) ==>
      items[j].0 !in SoftIndex(e)
  {
    SoftIndexSound(e);
  }

  /** The soft pass over the names the exact pass left: a column whose soft key the map knows is
      renamed to that key's target t, under the conditions of `SoftMatchIn`. */
  lemma SoftPassMatch(e: seq<string>, i: int, t: string)
    requires 0 <= i < |e| && Target(SoftKey(e[i])) == Some(t)
    requires forall m :: i < m < |e| ==> SoftKey(e[m]) != SoftKey(e[i])
    requires forall m :: 0 <= m < |e| ==> e[m] != t
    requires forall m, j :: 0 <= m < |e| && m != i && 0 <= j < |ColumnMap| && ColumnMap[j].1 == t ==>
      SoftKey(e[m]) != ColumnMap[j].0
    ensures |SoftPass(e, SoftIndex(e), ColumnMap)| == |e| && SoftPass(e, SoftIndex(e), ColumnMap)[i] == t
  {
    SoftIndexLastWins(e, i);
    SoftIndexSound(e);
    TargetIsTarget(SoftKey(e[i]));
    ColumnMapWellFormed();
    OthersNotIndexed(e, i, t, ColumnMap);
    SoftPassRenames(e, SoftIndex(e), ColumnMap, i, t);
  }

  /** The soft match in a table of any width: a column like "Account Number" that no name of the
      map equals once cleaned is renamed to the target t of its soft key. This holds when it is
      the last column with that soft key (so `lower_map` names it), when no column already
      carries t, and when no other column's soft key is a name the map sends to t (so no
      earlier item of the map brings t into the table first). */
  lemma SoftMatchIn(cols: seq<string>, i: int, t: string)
    requires 0 <= i < |cols|
    requires Target(Clean(cols[i])).None? && Target(SoftKey(Clean(cols[i]))) == Some(t)
    requires forall m :: i < m < |cols| ==> SoftKey(ExactNames(cols)[m]) != SoftKey(Clean(cols[i]))
    requires forall m :: 0 <= m < |cols| ==> ExactNames(cols)[m] != t
    requires forall m, j :: 0 <= m < |cols| && m != i && 0 <= j < |ColumnMap| && ColumnMap[j].1 == t ==>
      SoftKey(ExactNames(cols)[m]) != ColumnMap[j].0
    ensures |Normalized(cols)| == |cols| && Normalized(cols)[i] == t
  {
    var e := ExactNames(cols);
    assert e[i] == Clean(cols[i]);
    SoftPassMatch(e, i, t);
  }
}
