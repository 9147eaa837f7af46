/** update_zestawy_plakatow.py: poster-set codes written with underscores in the SKU and
    Parent columns are rewritten with plus signs. */
module PosterSets {
  import opened Common
  import opened Text

  /** The replacement table, in the dictionary's order. */
  const Replacements: seq<(string, string)> :=
    [("172_173", "172+173"), ("98_99_100", "98+99+100"), ("54_55", "54+55")]

  const Sku: string := "SKU"
  const Parent: string := "Parent"

  /** The table's entries applied in order to a field: an entry whose key occurs replaces
      every occurrence of it. */
  function Apply(field: string, table: seq<(string, string)>): string
  {
    if |table| == 0 then field
    else
      var f := Apply(field, table[..|table| - 1]);
      var (key, value) := table[|table| - 1];
      if Contains(f, key) then ReplaceAll(f, key, value) else f
  }

  /** Entry j's key is found in the field once the entries before it have been applied. */
  predicate Hit(field: string, table: seq<(string, string)>, j: nat)
    requires j < |table|
  {
    Contains(Apply(field, table[..j]), table[j].0)
  }

  /** A column's value after the update: a non-empty value goes through the table. */
  function UpdateColumn(row: Row, column: string): (r: Row)
    ensures r.Keys == row.Keys
    ensures forall k :: k in row && k != column ==> r[k] == row[k]
    ensures column !in row || row[column] == "" ==> r == row
  {
    if column in row && |row[column]| > 0 then row[column := Apply(row[column], Replacements)] else row
  }

  /** A row after the loop body: SKU first, then Parent. */
  function ProcessRow(row: Row): (r: Row)
    ensures r.Keys == row.Keys
    ensures forall k :: k in row && k != Sku && k != Parent ==> r[k] == row[k]
  {
    UpdateColumn(UpdateColumn(row, Sku), Parent)
  }

  /** Whether a column of a row adds one to entry j's counter. */
  predicate Counted(row: Row, column: string, j: nat)
    requires j < |Replacements|
  {
    column in row && |row[column]| > 0 && Hit(row[column], Replacements, j)
  }

  /** changes_by_column[column][key j] after the given rows: the number of rows in which the
      key was found, not the number of occurrences replaced. */
  function ColumnHits(rows: seq<Row>, column: string, j: nat): (n: nat)
    requires j < |Replacements|
    ensures n <= |rows|
  {
    if |rows| == 0 then 0
    else ColumnHits(rows[..|rows| - 1], column, j) + (if Counted(rows[|rows| - 1], column, j) then 1 else 0)
  }

  /** The inner loop over the table for one column of one row. */
  method UpdateField(field: string) returns (updated: string, hits: seq<bool>)
    ensures updated == Apply(field, Replacements)
    ensures |hits| == |Replacements| && forall j :: 0 <= j < |hits| ==> hits[j] == Hit(field, Replacements, j)
  {
    updated := field;
    hits := [];
    for j := 0 to |Replacements|
      invariant updated == Apply(field, Replacements[..j])
      invariant |hits| == j && forall k :: 0 <= k < j ==> hits[k] == Hit(field, Replacements, k)
    {
      assert Replacements[..j + 1][..j] == Replacements[..j];
      var (oldValue, newValue) := Replacements[j];
      var found := Contains(updated, oldValue);
      if found {
        updated := ReplaceAll(updated, oldValue, newValue);
      }
      hits := hits + [found];
    }
    assert Replacements[..|Replacements|] == Replacements;
  }

  /** Adds a row's hits to a column's counters. */
  function AddHits(counts: seq<nat>, hits: seq<bool>): (r: seq<nat>)
    requires |counts| == |hits|
    ensures |r| == |counts|
    ensures forall j :: 0 <= j < |r| ==> r[j] == counts[j] + (if hits[j] then 1 else 0)
  {
    seq(|counts|, j requires 0 <= j < |counts| => counts[j] + (if hits[j] then 1 else 0))
  }

  /** The loop body for one row: SKU, then Parent, each updated when present and non-empty,
      with the hits to add to the column's counters. */
  method UpdateRow(row: Row) returns (r: Row, skuHits: seq<bool>, parentHits: seq<bool>)
    ensures r == ProcessRow(row)
    ensures |skuHits| == |Replacements| && |parentHits| == |Replacements|
    ensures forall j :: 0 <= j < |Replacements| ==> skuHits[j] == Counted(row, Sku, j)
    ensures forall j :: 0 <= j < |Replacements| ==> parentHits[j] == Counted(UpdateColumn(row, Sku), Parent, j)
  {
    r := row;
    skuHits := [false, false, false];
    parentHits := [false, false, false];
    if Sku in r && |r[Sku]| > 0 {
      var updated;
      updated, skuHits := UpdateField(r[Sku]);
      r := r[Sku := updated];
    }
    assert r == UpdateColumn(row, Sku);
    if Parent in r && |r[Parent]| > 0 {
      var updated;
      updated, parentHits := UpdateField(r[Parent]);
      r := r[Parent := updated];
    }
  }

  /** The loop over the rows: updates SKU and Parent in place and counts, per column and per
      key, the rows in which the key was found. */
  method UpdateRows(rows: array<Row>) returns (skuCounts: seq<nat>, parentCounts: seq<nat>)
    modifies rows
    ensures forall i :: 0 <= i < rows.Length ==> rows[i] == ProcessRow(old(rows[i]))
    ensures |skuCounts| == |Replacements| && |parentCounts| == |Replacements|
    ensures forall j :: 0 <= j < |Replacements| ==> skuCounts[j] == ColumnHits(old(rows[..]), Sku, j)
    ensures forall j :: 0 <= j < |Replacements| ==>
      parentCounts[j] == ColumnHits(AfterSku(old(rows[..])), Parent, j)
    ensures forall j :: 0 <= j < |Replacements| ==> parentCounts[j] == ColumnHits(old(rows[..]), Parent, j)
  {
    ghost var original := rows[..];
    ghost var after := AfterSku(original);
    skuCounts := [0, 0, 0];
    parentCounts := [0, 0, 0];
    for i := 0 to rows.Length
      invariant forall k :: 0 <= k < i ==> rows[k] == ProcessRow(original[k])
      invariant forall k :: i <= k < rows.Length ==> rows[k] == original[k]
      invariant |skuCounts| == |Replacements| && |parentCounts| == |Replacements|
      invariant forall j :: 0 <= j < |Replacements| ==> skuCounts[j] == ColumnHits(original[..i], Sku, j)
      invariant forall j :: 0 <= j < |Replacements| ==> parentCounts[j] == ColumnHits(after[..i], Parent, j)
    {
      var skuHits, parentHits := UpdateAt(rows, i);
      CountsStep(original, i, Sku, skuCounts, skuHits);
      CountsStep(after, i, Parent, parentCounts, parentHits);
      skuCounts := AddHits(skuCounts, skuHits);
      parentCounts := AddHits(parentCounts, parentHits);
    }
    assert original[..rows.Length] == original;
    assert after[..rows.Length] == after;
    forall j | 0 <= j < |Replacements|
      ensures ColumnHits(after, Parent, j) == ColumnHits(original, Parent, j)
    {
      ParentHitsUnaffected(original, j);
    }
  }

  /** One pass of the loop: the row at i is updated in place, the others are left alone. */
  method UpdateAt(rows: array<Row>, i: int) returns (skuHits: seq<bool>, parentHits: seq<bool>)
    requires 0 <= i < rows.Length
    modifies rows
    ensures rows[i] == ProcessRow(old(rows[i]))
    ensures |skuHits| == |Replacements| && |parentHits| == |Replacements|
    ensures forall j :: 0 <= j < |Replacements| ==> skuHits[j] == Counted(old(rows[i]), Sku, j)
    ensures forall j :: 0 <= j < |Replacements| ==> parentHits[j] == Counted(UpdateColumn(old(rows[i]), Sku), Parent, j)
    ensures forall k :: 0 <= k < rows.Length && k != i ==> rows[k] == old(rows[k])
  {
    var r;
    r, skuHits, parentHits := UpdateRow(rows[i]);
    rows[i] := r;
  }

  /** Adding one row's hits to the counters of the rows before it counts that row too. */
  lemma CountsStep(rows: seq<Row>, i: int, column: string, counts: seq<nat>, hits: seq<bool>)
    requires 0 <= i < |rows| && |counts| == |Replacements| && |hits| == |Replacements|
    requires forall j :: 0 <= j < |Replacements| ==> counts[j] == ColumnHits(rows[..i], column, j)
    requires forall j :: 0 <= j < |Replacements| ==> hits[j] == Counted(rows[i], column, j)
    ensures forall j :: 0 <= j < |Replacements| ==> AddHits(counts, hits)[j] == ColumnHits(rows[..i + 1], column, j)
  {
    assert rows[..i + 1][..i] == rows[..i];
  }

  /** The rows as the Parent update sees them: with SKU already updated. */
  function AfterSku(rows: seq<Row>): (r: seq<Row>)
    ensures |r| == |rows| && forall i :: 0 <= i < |rows| ==> r[i] == UpdateColumn(rows[i], Sku)
  {
    seq(|rows|, i requires 0 <= i < |rows| => UpdateColumn(rows[i], Sku))
  }

  /** Updating SKU first never changes what the Parent counters see: the Parent hits of the
      SKU-updated rows are those of the input rows. */
  lemma {:induction false} ParentHitsUnaffected(rows: seq<Row>, j: nat)
    requires j < |Replacements|
    ensures ColumnHits(AfterSku(rows), Parent, j) == ColumnHits(rows, Parent, j)
    decreases |rows|
  {
    if |rows| > 0 {
      var n := |rows| - 1;
      assert AfterSku(rows)[..n] == AfterSku(rows[..n]);
      ParentHitsUnaffected(rows[..n], j);
      assert AfterSku(rows)[n] == UpdateColumn(rows[n], Sku);
      assert Sku != Parent;
    }
  }

  function Sum(counts: seq<nat>): nat
  {
    if |counts| == 0 then 0 else Sum(counts[..|counts| - 1]) + counts[|counts| - 1]
  }

  /** total_changes: the counters of both columns added up (a zero counter adds nothing). */
  method TotalChanges(skuCounts: seq<nat>, parentCounts: seq<nat>) returns (total: nat)
    ensures total == Sum(skuCounts) + Sum(parentCounts)
  {
    total := 0;
    for j := 0 to |skuCounts|
      invariant total == Sum(skuCounts[..j])
    {
      assert skuCounts[..j + 1][..j] == skuCounts[..j];
      if skuCounts[j] > 0 {
        total := total + skuCounts[j];
      }
    }
    assert skuCounts[..|skuCounts|] == skuCounts;
    for j := 0 to |parentCounts|
      invariant total == Sum(skuCounts) + Sum(parentCounts[..j])
    {
      assert parentCounts[..j + 1][..j] == parentCounts[..j];
      if parentCounts[j] > 0 {
        total := total + parentCounts[j];
      }
    }
    assert parentCounts[..|parentCounts|] == parentCounts;
  }

  // ---------------------------------------------------------------- what the update does to text

  /** t is s with some underscores turned into plus signs, and nothing else changed. */
  predicate PlusFor(s: string, t: string)
  {
    |s| == |t| && forall i :: 0 <= i < |s| ==> t[i] == s[i] || (s[i] == '_' && t[i] == '+')
  }

  lemma PlusForConcat(a: string, b: string, c: string, d: string)
    requires PlusFor(a, c) && PlusFor(b, d)
    ensures PlusFor(a + b, c + d)
  {
  }

  lemma PlusForTransitive(s: string, t: string, u: string)
    requires PlusFor(s, t) && PlusFor(t, u)
    ensures PlusFor(s, u)
  {
  }

  /** Replacing a key by a value that only turns its underscores into plus signs does the
      same to the whole text. */
  lemma {:induction false} ReplaceUnderscores(s: string, key: string, value: string)
    requires |key| > 0 && PlusFor(key, value)
    ensures PlusFor(s, ReplaceAll(s, key, value))
    decreases |s|
  {
    if |s| < |key| {
    } else if StartsWith(s, key) {
      ReplaceUnderscores(s[|key|..], key, value);
      assert s == key + s[|key|..];
      PlusForConcat(key, s[|key|..], value, ReplaceAll(s[|key|..], key, value));
    } else {
      ReplaceUnderscores(s[1..], key, value);
      assert s == [s[0]] + s[1..];
      PlusForConcat([s[0]], s[1..], [s[0]], ReplaceAll(s[1..], key, value));
    }
  }

  /** Every entry of the table only turns underscores into plus signs. */
  lemma TableUnderscores()
    ensures forall j :: 0 <= j < |Replacements| ==>
      |Replacements[j].0| > 0 && PlusFor(Replacements[j].0, Replacements[j].1)
  {
    assert PlusFor("172_173", "172+173");
    assert PlusFor("98_99_100", "98+99+100");
    assert PlusFor("54_55", "54+55");
  }

  /** The update keeps a field's length and changes only underscores, into plus signs. */
  lemma {:induction false} ApplyUnderscores(field: string, table: seq<(string, string)>)
    requires forall j :: 0 <= j < |table| ==> |table[j].0| > 0 && PlusFor(table[j].0, table[j].1)
    ensures PlusFor(field, Apply(field, table))
  {
    if |table| > 0 {
      var before := table[..|table| - 1];
      ApplyUnderscores(field, before);
      var f := Apply(field, before);
      var (key, value) := table[|table| - 1];
      if Contains(f, key) {
        ReplaceUnderscores(f, key, value);
        PlusForTransitive(field, f, ReplaceAll(f, key, value));
      }
    }
  }

  /** The table's update of a field only turns some underscores into plus signs. */
  lemma FieldUnderscores(field: string)
    ensures PlusFor(field, Apply(field, Replacements))
  {
    TableUnderscores();
    ApplyUnderscores(field, Replacements);
  }

  /** A field without an underscore contains no key: it is left as it was and counts nowhere. */
  lemma NoUnderscoreUntouched(field: string)
    requires '_' !in field
    ensures Apply(field, Replacements) == field
    ensures forall j :: 0 <= j < |Replacements| ==> !Hit(field, Replacements, j)
  {
    forall j | 0 <= j < |Replacements|
      ensures Apply(field, Replacements[..j]) == field && !Hit(field, Replacements, j)
    {
      NoUnderscorePrefix(field, j);
    }
    NoUnderscorePrefix(field, |Replacements|);
    assert Replacements[..|Replacements|] == Replacements;
  }

  lemma {:induction false} NoUnderscorePrefix(field: string, j: nat)
    requires '_' !in field && j <= |Replacements|
    ensures Apply(field, Replacements[..j]) == field
    ensures j < |Replacements| ==> !Hit(field, Replacements, j)
  {
    if j > 0 {
      NoUnderscorePrefix(field, j - 1);
      assert Replacements[..j][..j - 1] == Replacements[..j - 1];
    }
    if j < |Replacements| {
      var key := Replacements[j].0;
      var u := if j == 0 then 3 else 2;
      assert key[u] == '_';
    }
  }
}
