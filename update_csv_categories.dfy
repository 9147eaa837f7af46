/** update_csv_categories.py: category and tag names are renamed throughout the text of
    three CSV files. */
module CategoryText {
  import opened Text
  import Categories

  /** The renaming table, in the dictionary's order. */
  const Renames: seq<(string, string)> := [
    ("Grafiki i Plakaty", "Obrazy i plakaty chrześcijańskie"),
    ("Najchętniej kupowane grafiki", "Najchętniej kupowane obrazy i plakaty")
  ]

  /** The files the script visits, in order. */
  const FilesToUpdate: seq<string> := [
    "/Users/damianaugustyn/Documents/projects/Smart PS replacer/extract/extract_art/GRAFIKI BLESSYOU MIGRACJA_updated.csv",
    "/Users/damianaugustyn/Documents/projects/Smart PS replacer/extract/extract_art/GRAFIKI BLESSYOU MIGRACJA.csv",
    "/Users/damianaugustyn/Documents/projects/Smart PS replacer/extract/extract_art/ZESTAWY PLAKATÓW.csv"
  ]

  /** Every entry of the table replaced everywhere, in order (the reference definition,
      without the script's count guard). */
  function RenameAll(content: string, table: seq<(string, string)>): string
  {
    if |table| == 0 then content
    else
      var c := RenameAll(content, table[..|table| - 1]);
      ReplaceAll(c, table[|table| - 1].0, table[|table| - 1].1)
  }

  /** The loop over the table for one file's content: an entry is applied only when
      content.count finds its old text; the counts are the ones the script reports. */
  method RenameContent(content: string) returns (renamed: string, counts: seq<nat>)
    ensures renamed == RenameAll(content, Renames)
    ensures |counts| == |Renames|
    ensures forall j :: 0 <= j < |Renames| ==> counts[j] == Count(RenameAll(content, Renames[..j]), Renames[j].0)
  {
    renamed := content;
    counts := [];
    for j := 0 to |Renames|
      invariant renamed == RenameAll(content, Renames[..j])
      invariant |counts| == j
      invariant forall k :: 0 <= k < j ==> counts[k] == Count(RenameAll(content, Renames[..k]), Renames[k].0)
    {
      assert Renames[..j + 1][..j] == Renames[..j];
      var (oldText, newText) := Renames[j];
      var count := Count(renamed, oldText);
      if count > 0 {
        renamed := ReplaceAll(renamed, oldText, newText);
      } else {
        CountZeroIffAbsent(renamed, oldText);
        ReplaceAbsent(renamed, oldText, newText);
      }
      counts := counts + [count];
    }
    assert Renames[..|Renames|] == Renames;
  }

  /** The main loop over the file list: a file that exists is read, renamed, and written
      back only when its content changed. */
  method UpdateFiles(files: map<string, string>) returns (result: map<string, string>, written: seq<string>)
    ensures result.Keys == files.Keys
    ensures forall p :: p in files ==>
      result[p] == if p in FilesToUpdate then RenameAll(files[p], Renames) else files[p]
    ensures forall p :: p in written <==> p in FilesToUpdate && p in files && RenameAll(files[p], Renames) != files[p]
  {
    assert FilesToUpdate[0][|FilesToUpdate[0]| - 5] == 'd';
    assert FilesToUpdate[1][|FilesToUpdate[1]| - 5] == 'A';
    assert |FilesToUpdate[2]| < |FilesToUpdate[0]|;
    result, written := UpdatePaths(files, FilesToUpdate);
  }

  /** That loop over any list of distinct paths. */
  method UpdatePaths(files: map<string, string>, paths: seq<string>) returns (result: map<string, string>, written: seq<string>)
    requires forall i, j :: 0 <= i < j < |paths| ==> paths[i] != paths[j]
    ensures result.Keys == files.Keys
    ensures forall p :: p in files ==>
      result[p] == if p in paths then RenameAll(files[p], Renames) else files[p]
    ensures forall p :: p in written <==> p in paths && p in files && RenameAll(files[p], Renames) != files[p]
  {
    result := files;
    written := [];
    for i := 0 to |paths|
      invariant result.Keys == files.Keys
      invariant forall p :: p in files ==>
        result[p] == if p in paths[..i] then RenameAll(files[p], Renames) else files[p]
      invariant forall p :: p in written <==>
        p in paths[..i] && p in files && RenameAll(files[p], Renames) != files[p]
    {
      var path := paths[i];
      assert paths[..i + 1] == paths[..i] + [path];
      assert path !in paths[..i];
      var wrote;
      result, wrote := UpdateFile(result, path);
      if wrote {
        written := written + [path];
      }
    }
    assert paths[..|paths|] == paths;
  }

  /** One turn of that loop: the file at `path`, if present, renamed and written back when
      its content changed. */
  method UpdateFile(contents: map<string, string>, path: string) returns (result: map<string, string>, wrote: bool)
    ensures wrote <==> path in contents && RenameAll(contents[path], Renames) != contents[path]
    ensures result == if wrote then contents[path := RenameAll(contents[path], Renames)] else contents
  {
    result, wrote := contents, false;
    if path in contents {
      var content := contents[path];
      var renamed, counts := RenameContent(content);
      if renamed != content {
        result, wrote := contents[path := renamed], true;
      }
    }
  }

  /** Each rename changes the length by the reported count times the difference in length
      of its two texts, so the counts are the numbers of occurrences actually replaced. */
  lemma RenameLength(content: string)
    ensures var first := RenameAll(content, Renames[..1]);
      |first| == |content| + Count(content, Renames[0].0) * (|Renames[0].1| - |Renames[0].0|) &&
      |RenameAll(content, Renames)| == |first| + Count(first, Renames[1].0) * (|Renames[1].1| - |Renames[1].0|)
  {
    assert Renames[..1][..0] == [];
    ReplaceLength(content, Renames[0].0, Renames[0].1);
    var first := RenameAll(content, Renames[..1]);
    assert Renames[..2] == Renames;
    assert Renames[..2][..1] == Renames[..1];
    ReplaceLength(first, Renames[1].0, Renames[1].1);
  }

  /** Replacing in a + b where a holds no first character of the pattern leaves a alone. */
  lemma {:induction false} ReplaceAfter(a: string, b: string, p: string, n: string)
    requires |p| > 0 && p[0] !in a
    ensures ReplaceAll(a + b, p, n) == a + ReplaceAll(b, p, n)
    decreases |a|
  {
    if |a| > 0 {
      var s := a + b;
      assert s[0] == a[0];
      assert s[1..] == a[1..] + b;
      ReplaceAfter(a[1..], b, p, n);
      if |s| < |p| {
        assert |b| < |p|;
      }
    } else {
      assert a + b == b;
    }
  }

  /** The categories prefix that update_categories.py writes comes out of the renaming as
      the new category name, followed by the renamed rest of the text. */
  lemma PrefixRenamed(rest: string)
    ensures var r := RenameAll(Categories.Prefix + rest, Renames);
      StartsWith(r, "Obrazy i plakaty chrześcijańskie, ")
  {
    var k0 := Renames[0].0;
    var v0 := Renames[0].1;
    assert Categories.Prefix == k0 + ", ";
    var s := Categories.Prefix + rest;
    assert s == k0 + (", " + rest);
    assert StartsWith(s, k0);
    assert s[|k0|..] == ", " + rest;
    var after0 := v0 + ReplaceAll(", " + rest, k0, v0);
    assert ReplaceAll(s, k0, v0) == after0;
    assert ReplaceAll(", " + rest, k0, v0) == ", " + ReplaceAll(rest, k0, v0) by {
      ReplaceAfter(", ", rest, k0, v0);
    }
    var head := v0 + ", ";
    assert after0 == head + ReplaceAll(rest, k0, v0);
    assert Renames[..1] == [Renames[0]];
    assert RenameAll(s, Renames[..1]) == after0;
    assert Renames[..2][..1] == Renames[..1];
    assert Renames[..2] == Renames;
    assert 'N' !in head;
    ReplaceAfter(head, ReplaceAll(rest, k0, v0), Renames[1].0, Renames[1].1);
    var r := RenameAll(s, Renames);
    assert r == head + ReplaceAll(ReplaceAll(rest, k0, v0), Renames[1].0, Renames[1].1);
    assert r[..|head|] == head;
  }
}
