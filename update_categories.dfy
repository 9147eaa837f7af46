/** update_categories.py: variable products get "Grafiki i Plakaty, " put in front of their
    categories. */
module Categories {
  import opened Common
  import opened Text

  const Prefix: string := "Grafiki i Plakaty, "

  /** The row after the update; None when the row is left as it is. */
  function UpdatedRow(row: Row): (r: Option<Row>)
    ensures r.Some? ==> "Categories" in r.value && r.value == row["Categories" := r.value["Categories"]]
  {
    if "Type" in row && row["Type"] == "variable" then
      var current := Get(row, "Categories", "");
      if |current| > 0 && !StartsWith(current, Prefix) then Some(row["Categories" := Prefix + current])
      else if |current| == 0 then Some(row["Categories" := Prefix])
      else None
    else None
  }

  /** What the loop leaves in a row. */
  function ProcessRow(row: Row): Row
  {
    match UpdatedRow(row)
    case Some(r) => r
    case None => row
  }

  /** How many of the rows the update changes. */
  function CountUpdated(rows: seq<Row>): (n: nat)
    ensures n <= |rows|
  {
    if |rows| == 0 then 0
    else CountUpdated(rows[..|rows| - 1]) + (if UpdatedRow(rows[|rows| - 1]).Some? then 1 else 0)
  }

  /** update_csv_categories on the rows read from the file: updates them in place and
      returns how many it changed. */
  method UpdateCsvCategories(rows: array<Row>) returns (modifiedCount: nat)
    modifies rows
    ensures forall i :: 0 <= i < rows.Length ==> rows[i] == ProcessRow(old(rows[i]))
    ensures modifiedCount == CountUpdated(old(rows[..]))
  {
    ghost var original := rows[..];
    modifiedCount := 0;
    for i := 0 to rows.Length
      invariant forall j :: 0 <= j < i ==> rows[j] == ProcessRow(original[j])
      invariant forall j :: i <= j < rows.Length ==> rows[j] == original[j]
      invariant modifiedCount == CountUpdated(original[..i])
    {
      assert original[..i + 1][..i] == original[..i];
      var updated := UpdatedRow(rows[i]);
      if updated.Some? {
        rows[i] := updated.value;
        modifiedCount := modifiedCount + 1;
      }
      forall j | 0 <= j <= i
        ensures rows[j] == ProcessRow(original[j])
      {
      }
    }
    assert original[..rows.Length] == original;
  }

  /** The two branches are one rule: a variable product whose categories do not yet start
      with the prefix gets the prefix in front of them; nothing else changes. */
  lemma PrependRule(row: Row)
    ensures UpdatedRow(row).Some? <==>
      "Type" in row && row["Type"] == "variable" && !StartsWith(Get(row, "Categories", ""), Prefix)
    ensures UpdatedRow(row).Some? ==>
      UpdatedRow(row).value == row["Categories" := Prefix + Get(row, "Categories", "")]
  {
    assert Prefix + "" == Prefix;
  }

  /** After the update the categories start with the prefix and end with the old text. */
  lemma UpdatedCategories(row: Row)
    requires UpdatedRow(row).Some?
    ensures var c := UpdatedRow(row).value["Categories"];
      StartsWith(c, Prefix) && c[|Prefix|..] == Get(row, "Categories", "")
  {
    PrependRule(row);
    var c := Prefix + Get(row, "Categories", "");
    assert c[..|Prefix|] == Prefix;
  }

  /** Running the script again changes nothing. */
  lemma Idempotent(row: Row)
    ensures UpdatedRow(ProcessRow(row)).None?
  {
    PrependRule(row);
    if UpdatedRow(row).Some? {
      UpdatedCategories(row);
      PrependRule(ProcessRow(row));
    }
  }

  /** Over a whole file: a second run reports zero modified rows. */
  lemma {:induction false} SecondRunCountsZero(rows: seq<Row>)
    ensures CountUpdated(seq(|rows|, i requires 0 <= i < |rows| => ProcessRow(rows[i]))) == 0
  {
    if |rows| > 0 {
      var before := rows[..|rows| - 1];
      SecondRunCountsZero(before);
      var after := seq(|rows|, i requires 0 <= i < |rows| => ProcessRow(rows[i]));
      assert after[..|rows| - 1] == seq(|before|, i requires 0 <= i < |before| => ProcessRow(before[i]));
      Idempotent(rows[|rows| - 1]);
    }
  }
}
