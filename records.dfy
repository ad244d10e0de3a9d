/** The table operations of the backend on customer rows: the overdue filter, the fill-in of
    missing due dates when customers are listed, and the in-place customer update. */
module Records {
  import opened Wrappers
  import opened Dates
  import opened Values
  import opened DateParse
  import opened NextDue

  // ---------------------------------------------------------------- overdue filter

  /** The loop test of `get_overdue_customers`: a readable next due date whose ISO text sorts
      before today's. */
  predicate IsOverdue(r: Record, today: ValidDate) {
    var nd := ParseDate(Get(r, "next_due_date", Null));
    nd.Some? && LexLess(Iso(nd.value), Iso(today))
  }

  /** The overdue rows, in table order. */
  function OverdueRows(rows: seq<Record>, today: ValidDate): seq<Record> {
    if rows == [] then []
    else OverdueRows(rows[..|rows| - 1], today) + (if IsOverdue(rows[|rows| - 1], today) then [rows[|rows| - 1]] else [])
  }

  /** `get_overdue_customers`, with today's date passed in instead of read from the clock. */
  method GetOverdue(rows: seq<Record>, today: ValidDate) returns (overdue: seq<Record>)
    ensures overdue == OverdueRows(rows, today)
  {
    overdue := [];
    var i := 0;
    while i < |rows|
      invariant 0 <= i <= |rows|
      invariant overdue == OverdueRows(rows[..i], today)
    {
      assert rows[..i + 1][..i] == rows[..i] && rows[..i + 1][i] == rows[i];
      if IsOverdue(rows[i], today) {
        overdue := overdue + [rows[i]];
      }
      i := i + 1;
    }
    assert rows[..i] == rows;
  }

  /** Comparing ISO texts is comparing the dates: a row is overdue exactly when its next due
      date is a calendar day before today. */
  lemma OverdueMeansEarlier(r: Record, today: ValidDate)
    ensures IsOverdue(r, today) <==>
      ParseDate(Get(r, "next_due_date", Null)).Some? &&
      Ordinal(ParseDate(Get(r, "next_due_date", Null)).value) < Ordinal(today)
  {
    var nd := ParseDate(Get(r, "next_due_date", Null));
    if nd.Some? {
      IsoOrder(nd.value, today);
      OrdinalOrder(nd.value, today);
    }
  }

  /** The result holds the overdue rows of the table, and only those. */
  lemma {:induction false} OverdueRowsExact(rows: seq<Record>, today: ValidDate)
    ensures forall r :: r in OverdueRows(rows, today) <==> r in rows && IsOverdue(r, today)
  {
    if rows != [] {
      var init := rows[..|rows| - 1];
      OverdueRowsExact(init, today);
      assert rows == init + [rows[|rows| - 1]];
    }
  }

  // ---------------------------------------------------------------- listing customers

  const ExpectedColumns: seq<string> := ["company", "account_number", "country", "postcode", "status",
    "current_spend", "tagged_customers", "date_of_last_visit", "visit_frequency", "next_due_date"]

  /** `df[col] = None` for each expected column the table lacks. */
  function EnsureColumns(r: Record): (r': Record)
    ensures forall c :: c in ExpectedColumns ==> c in r'
    ensures forall k :: k in r ==> k in r' && r'[k] == r[k]
    ensures forall k :: k in r' ==> k in r || k in ExpectedColumns
    ensures forall k :: k in r' && k !in r ==> r'[k] == Null
    ensures "next_due_date" in r' && "date_of_last_visit" in r' && "visit_frequency" in r'
  {
    assert ExpectedColumns[7] == "date_of_last_visit" && ExpectedColumns[8] == "visit_frequency";
    assert ExpectedColumns[9] == "next_due_date";
    r + map c | c in ExpectedColumns && c !in r :: Null
  }

  /** The row after the fill-in step of `_get_customers_payload`. */
  function FillRow(r: Record): Record
    requires "next_due_date" in r && "date_of_last_visit" in r && "visit_frequency" in r
  {
    var nd, lv, vf := r["next_due_date"], r["date_of_last_visit"], r["visit_frequency"];
    if !Truthy(nd) && Truthy(lv) && Truthy(vf) then
      r["next_due_date" := match NextDueDate(lv, vf) case Some(iso) => Text(iso) case None => Null]
    else r
  }

  /** Every row has the three cells the fill-in reads. */
  predicate HasFillColumns(rows: seq<Record>) {
    forall i :: 0 <= i < |rows| ==>
      "next_due_date" in rows[i] && "date_of_last_visit" in rows[i] && "visit_frequency" in rows[i]
  }

  /** The `for idx in range(len(df))` loop that writes missing next due dates in place. */
  method FillNextDue(df: array<Record>)
    requires HasFillColumns(df[..])
    modifies df
    ensures forall i :: 0 <= i < df.Length ==> df[i] == FillRow(old(df[i]))
  {
    ghost var rows := df[..];
    var idx := 0;
    while idx < df.Length
      invariant 0 <= idx <= df.Length
      invariant forall i :: 0 <= i < idx ==> df[i] == FillRow(rows[i])
      invariant forall i :: idx <= i < df.Length ==> df[i] == rows[i]
    {
      var row := df[idx];
      assert row == rows[idx];
      var nd := row["next_due_date"];
      if !Truthy(nd) {
        var lv := row["date_of_last_visit"];
        var vf := row["visit_frequency"];
        if Truthy(lv) && Truthy(vf) {
          var due := NextDueDate(lv, vf);
          df[idx] := row["next_due_date" := match due case Some(iso) => Text(iso) case None => Null];
        }
      }
      assert df[idx] == FillRow(rows[idx]);
      idx := idx + 1;
    }
  }

  /** `_get_customers_payload` on the loaded table: the missing expected columns are added
      (as None), then the missing due dates are filled in, row by row. */
  method CustomersPayload(df: array<Record>)
    modifies df
    ensures forall i :: 0 <= i < df.Length ==> df[i] == FillRow(EnsureColumns(old(df[i])))
  {
    forall i | 0 <= i < df.Length {
      df[i] := EnsureColumns(df[i]);
    }
    FillNextDue(df);
  }

  /** What the fill-in does to one row: a present due date is kept, a missing one is computed
      when the last visit and the frequency are both there (it is then the ISO text that
      `calculate_next_due_date` returns, or None), a missing visit or frequency changes nothing,
      and every other cell is kept. */
  lemma FillRowEffect(r: Record)
    requires "next_due_date" in r && "date_of_last_visit" in r && "visit_frequency" in r
    ensures FillRow(r).Keys == r.Keys
    ensures forall k :: k in r && k != "next_due_date" ==> FillRow(r)[k] == r[k]
    ensures Truthy(r["next_due_date"]) ==> FillRow(r) == r
    ensures !Truthy(r["next_due_date"]) && Truthy(r["date_of_last_visit"]) && Truthy(r["visit_frequency"]) ==>
      (FillRow(r)["next_due_date"] == Null <==> NextDueDate(r["date_of_last_visit"], r["visit_frequency"]).None?)
    ensures FillRow(r)["next_due_date"].Text? ==>
      ParseDate(FillRow(r)["next_due_date"]).Some? || FillRow(r)["next_due_date"] == r["next_due_date"]
    ensures (!Truthy(r["next_due_date"]) && Truthy(r["date_of_last_visit"]) && Truthy(r["visit_frequency"]) &&
             NextDueDate(r["date_of_last_visit"], r["visit_frequency"]).Some?) ==>
      FillRow(r)["next_due_date"] == Text(NextDueDate(r["date_of_last_visit"], r["visit_frequency"]).value)
    ensures !(Truthy(r["date_of_last_visit"]) && Truthy(r["visit_frequency"])) ==> FillRow(r) == r
  {
    var nd, lv, vf := r["next_due_date"], r["date_of_last_visit"], r["visit_frequency"];
    if !Truthy(nd) && Truthy(lv) && Truthy(vf) {
      NextDueIsDaysLater(lv, vf);
    }
  }

  /** Filling twice fills nothing more. */
  lemma FillRowIdempotent(r: Record)
    requires "next_due_date" in r && "date_of_last_visit" in r && "visit_frequency" in r
    ensures FillRow(FillRow(r)) == FillRow(r)
  {
  }

  // ---------------------------------------------------------------- update_customer

  /** The row index a PUT may address: `0 <= customer_id < len(df)`. */
  predicate RowExists(id: int, n: int) {
    0 <= id < n
  }

  /** A key new to the table becomes a column; rows that did not receive it hold NaN there. */
  function Widen(r: Record, keys: set<string>): (r': Record)
    ensures r'.Keys == r.Keys + keys
    ensures forall k :: k in r ==> r'[k] == r[k]
  {
    r + map k | k in keys && k !in r :: NaN
  }

  /** `update_customer`: with an id inside the table, every key of `data` is written into that
      row (`df.at[customer_id, key] = value`), and the other rows gain the new columns; with any
      other id nothing changes and the answer is "not found". */
  method UpdateCustomer(df: array<Record>, id: int, data: map<string, Value>) returns (found: bool)
    modifies df
    ensures found <==> RowExists(id, df.Length)
    ensures found ==> df[id] == old(df[id]) + data
    ensures found ==> forall j :: 0 <= j < df.Length && j != id ==> df[j] == Widen(old(df[j]), data.Keys)
    ensures !found ==> forall j :: 0 <= j < df.Length ==> df[j] == old(df[j])
  {
    if 0 <= id < df.Length {
      forall j | 0 <= j < df.Length
      {
        df[j] := if j == id then df[j] + data else Widen(df[j], data.Keys);
      }
      return true;
    }
    return false;
  }
}
