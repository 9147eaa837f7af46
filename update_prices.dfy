/** update_prices.py: every row with a sale price gets a regular price of that sale price
    plus 4.06504065 and an empty sale price. */
module Prices {
  import opened Common
  import opened Text
  import opened Numbers
  import opened Decimals

  const SalePrice: string := "Sale price"
  const RegularPrice: string := "Regular price"

  /** Decimal('4.06504065') */
  const Addition: Decimal := Decimal(406504065, -8)

  /** The constant is the number the script writes as text. */
  lemma AdditionText()
    ensures Parse("4.06504065") == Some(Addition)
  {
    var s := "4.06504065";
    AdditionMantissa();
    AdditionUnmarked();
    CombineSome(406504065, 8, 0);
    assert ParseUnsigned(s) == Some(Addition);
  }

  lemma AdditionUnmarked()
    ensures FirstMark("4.06504065") == -1
  {
    var s := "4.06504065";
    assert forall k :: 0 <= k < |s| ==> !IsExponentMark(s[k]);
  }

  lemma AdditionMantissa()
    ensures ParseMantissa("4.06504065") == Some((406504065, 8))
  {
    var s := "4.06504065";
    assert IndexOf(s, '.') == 1;
    assert s[..1] + s[2..] == "406504065";
    AdditionDigits();
  }

  lemma AdditionDigits()
    ensures DigitsValue("406504065") == 406504065
  {
    assert DigitsValue("4") == 4;
    assert "40"[..1] == "4";
    assert DigitsValue("40") == 40;
    assert "406"[..2] == "40";
    assert DigitsValue("406") == 406;
    assert "4065"[..3] == "406";
    assert DigitsValue("4065") == 4065;
    assert "40650"[..4] == "4065";
    assert DigitsValue("40650") == 40650;
    assert "406504"[..5] == "40650";
    assert DigitsValue("406504") == 406504;
    assert "4065040"[..6] == "406504";
    assert DigitsValue("4065040") == 4065040;
    assert "40650406"[..7] == "4065040";
    assert DigitsValue("40650406") == 40650406;
    assert "406504065"[..8] == "40650406";
    assert DigitsValue("406504065") == 406504065;
  }

  /** The stripped Sale price of a row; a row without the column reads as empty. */
  function SaleText(row: Row): (t: string)
    ensures t == [] || (!IsSpace(t[0]) && !IsSpace(t[|t| - 1]))
  {
    Strip(Get(row, SalePrice, ""))
  }

  /** The row after the update; None when the row is left as it is, because its sale price
      is blank or is not a number (the script then prints a warning). */
  function UpdatedRow(row: Row): (r: Option<Row>)
    ensures r.Some? <==> |SaleText(row)| > 0 && Parse(SaleText(row)).Some?
  {
    var sale := SaleText(row);
    if |sale| == 0 then None
    else
      match Parse(sale)
      case None => None
      case Some(d) => Some(Repriced(row, Format(Add(d, Addition))))
  }

  /** The row with the given regular price and an empty sale price. */
  function Repriced(row: Row, price: string): Row
  {
    row[RegularPrice := price][SalePrice := ""]
  }

  /** An updated row keeps every column; the sale price becomes empty, the regular price is
      set, and every other column keeps its value. */
  lemma UpdatedRowShape(row: Row)
    requires UpdatedRow(row).Some?
    ensures var r := UpdatedRow(row).value;
      && r.Keys == row.Keys + {SalePrice, RegularPrice}
      && r[SalePrice] == ""
      && (forall k :: k in row && k != SalePrice && k != RegularPrice ==> r[k] == row[k])
  {
    var d := Parse(SaleText(row)).value;
    RepricedShape(row, Format(Add(d, Addition)));
  }

  lemma RepricedShape(row: Row, price: string)
    ensures var r := Repriced(row, price);
      && r.Keys == row.Keys + {SalePrice, RegularPrice}
      && r[SalePrice] == "" && r[RegularPrice] == price
      && (forall k :: k in row && k != SalePrice && k != RegularPrice ==> r[k] == row[k])
  {
    assert SalePrice != RegularPrice;
  }

  /** What the loop leaves in a row. */
  function ProcessRow(row: Row): Row
  {
    match UpdatedRow(row)
    case Some(r) => r
    case None => row
  }

  /** How many of the rows the update changes. */
  function CountUpdated(rows: seq<Row>): (n: nat)
    ensures n <= |rows|
  {
    if |rows| == 0 then 0
    else CountUpdated(rows[..|rows| - 1]) + (if UpdatedRow(rows[|rows| - 1]).Some? then 1 else 0)
  }

  /** process_csv_file on the rows read from the file: updates them in place and returns how
      many it changed. */
  method ProcessCsvFile(rows: array<Row>) returns (modifiedCount: nat)
    modifies rows
    ensures forall i :: 0 <= i < rows.Length ==> rows[i] == ProcessRow(old(rows[i]))
    ensures modifiedCount == CountUpdated(old(rows[..]))
  {
    ghost var original := rows[..];
    modifiedCount := 0;
    for i := 0 to rows.Length
      invariant forall j :: 0 <= j < i ==> rows[j] == ProcessRow(original[j])
      invariant forall j :: i <= j < rows.Length ==> rows[j] == original[j]
      invariant modifiedCount == CountUpdated(original[..i])
    {
      CountStep(original, i);
      var changed := ProcessAt(rows, i);
      if changed {
        modifiedCount := modifiedCount + 1;
      }
    }
    assert original[..rows.Length] == original;
  }

  /** One pass of the loop: the row at i is updated when it has a sale price. */
  method ProcessAt(rows: array<Row>, i: int) returns (changed: bool)
    requires 0 <= i < rows.Length
    modifies rows
    ensures rows[i] == ProcessRow(old(rows[i]))
    ensures changed == UpdatedRow(old(rows[i])).Some?
    ensures forall j :: 0 <= j < rows.Length && j != i ==> rows[j] == old(rows[j])
  {
    var updated := UpdatedRow(rows[i]);
    changed := updated.Some?;
    if changed {
      rows[i] := updated.value;
    }
  }

  lemma CountStep(rows: seq<Row>, i: int)
    requires 0 <= i < |rows|
    ensures CountUpdated(rows[..i + 1]) == CountUpdated(rows[..i]) + (if UpdatedRow(rows[i]).Some? then 1 else 0)
  {
    assert rows[..i + 1][..i] == rows[..i];
  }

  /** The new regular price reads back as the sale price plus the addition; whenever that
      sum fits in 28 digits, it is exact. */
  lemma RegularPriceIsSum(row: Row)
    requires UpdatedRow(row).Some?
    ensures var sale := Parse(SaleText(row)).value;
      && Parse(UpdatedRow(row).value[RegularPrice]) == Some(Add(sale, Addition))
      && (NumDigits(Abs(ExactSum(sale, Addition).coefficient)) <= Precision ==>
            Value(Add(sale, Addition)) == Value(sale) + Value(Addition))
  {
    var sale := Parse(SaleText(row)).value;
    ParseFormat(Add(sale, Addition));
    if NumDigits(Abs(ExactSum(sale, Addition).coefficient)) <= Precision {
      AddExact(sale, Addition);
    }
  }

  /** Running the script again changes nothing: an updated row has an empty sale price. */
  lemma SecondRunChangesNothing(row: Row)
    ensures UpdatedRow(ProcessRow(row)).None?
  {
    if UpdatedRow(row).Some? {
      var r := UpdatedRow(row).value;
      assert Get(r, SalePrice, "") == "";
      assert Strip("") == "";
    }
  }

  /** Over a whole file: a second run reports zero modified rows. */
  lemma {:induction false} SecondRunCountsZero(rows: seq<Row>)
    ensures CountUpdated(seq(|rows|, i requires 0 <= i < |rows| => ProcessRow(rows[i]))) == 0
  {
    if |rows| > 0 {
      var before := rows[..|rows| - 1];
      SecondRunCountsZero(before);
      var after := seq(|rows|, i requires 0 <= i < |rows| => ProcessRow(rows[i]));
      assert after[..|rows| - 1] == seq(|before|, i requires 0 <= i < |before| => ProcessRow(before[i]));
      SecondRunChangesNothing(rows[|rows| - 1]);
    }
  }

  /** The old regular price is overwritten, never read. */
  lemma OldRegularPriceIgnored(row: Row, previous: string)
    ensures UpdatedRow(row[RegularPrice := previous]) == UpdatedRow(row)
  {
    var row' := row[RegularPrice := previous];
    SaleUnchanged(row, previous);
    if UpdatedRow(row).Some? {
      var p := Format(Add(Parse(SaleText(row)).value, Addition));
      RepricedOverwrites(row, previous, p);
    }
  }

  lemma SaleUnchanged(row: Row, previous: string)
    ensures SaleText(row[RegularPrice := previous]) == SaleText(row)
  {
    assert SalePrice != RegularPrice;
    assert Get(row[RegularPrice := previous], SalePrice, "") == Get(row, SalePrice, "");
  }

  lemma RepricedOverwrites(row: Row, previous: string, price: string)
    ensures Repriced(row[RegularPrice := previous], price) == Repriced(row, price)
  {
    assert row[RegularPrice := previous][RegularPrice := price] == row[RegularPrice := price];
  }
}
