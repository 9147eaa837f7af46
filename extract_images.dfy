/** extract/extract_art/extract_images.py: image names are taken from the `Images` column of
    the shop's CSV export, cleaned of their base URL and extension, de-duplicated, sorted and
    written out as a counted list. */
module ExtractImages {
  import opened Common
  import opened Text
  import opened Numbers
  import opened Sorting

  const ImagesColumn := "Images"

  /** The two spellings of the upload folder's URL, in the order they are tried. */
  const BaseUrls: seq<string> := [
    "https://blessyou.pl//wp-content/uploads/my-images/art/",
    "https://blessyou.pl/wp-content/uploads/my-images/art/"
  ]

  const Extension := ".webp"

  /** The text before the count on the first line of the output file. */
  const CountLabel := "Liczba unikalnych obrazów: "

  // ---------------------------------------------------------------- one URL

  /** The URL without the first base in `bases` that it starts with, or unchanged. */
  function WithoutBase(url: string, bases: seq<string>): string
  {
    if |bases| == 0 then url
    else if StartsWith(url, bases[0]) then url[|bases[0]|..]
    else WithoutBase(url, bases[1..])
  }

  /** The cleaned name: at most one base removed, then one trailing extension. */
  function Cleaned(url: string): string
  {
    var c := WithoutBase(url, BaseUrls);
    if EndsWith(c, Extension) then c[..|c| - |Extension|] else c
  }

  /** The cleaning of one URL: the loop over the bases stops at the first that matches. */
  method CleanUrl(url: string) returns (cleaned: string)
    ensures cleaned == Cleaned(url)
  {
    cleaned := url;
    var i := 0;
    while i < |BaseUrls|
      invariant 0 <= i <= |BaseUrls|
      invariant cleaned == url
      invariant WithoutBase(url, BaseUrls) == WithoutBase(url, BaseUrls[i..])
    {
      var baseUrl := BaseUrls[i];
      if StartsWith(cleaned, baseUrl) {
        cleaned := cleaned[|baseUrl|..];
        break;
      }
      assert BaseUrls[i..][1..] == BaseUrls[i + 1..];
      i := i + 1;
    }
    if EndsWith(cleaned, Extension) {
      cleaned := cleaned[..|cleaned| - |Extension|];
    }
  }

  /** The cleaned name is what remains of the URL between at most one base URL in front and
      at most one extension behind. */
  lemma CleanedInside(url: string)
    ensures exists prefix, suffix ::
      && (prefix == "" || prefix in BaseUrls)
      && (suffix == "" || suffix == Extension)
      && url == prefix + Cleaned(url) + suffix
  {
    var c := WithoutBase(url, BaseUrls);
    var prefix := BaseInside(url, BaseUrls);
    var suffix := if EndsWith(c, Extension) then Extension else "";
    assert c == Cleaned(url) + suffix;
    assert url == prefix + Cleaned(url) + suffix;
  }

  /** The base removed, if any, is one of those tried, and is the front of the URL. */
  lemma {:induction false} BaseInside(url: string, bases: seq<string>) returns (prefix: string)
    ensures prefix == "" || prefix in bases
    ensures url == prefix + WithoutBase(url, bases)
  {
    if |bases| == 0 {
      prefix := "";
    } else if StartsWith(url, bases[0]) {
      prefix := bases[0];
      assert url == url[..|prefix|] + url[|prefix|..];
    } else {
      prefix := BaseInside(url, bases[1..]);
    }
  }

  /** An image URL built from either base, a name and the extension cleans back to the name. */
  lemma CleanedBuilt(i: int, name: string)
    requires 0 <= i < |BaseUrls|
    ensures Cleaned(BaseUrls[i] + name + Extension) == name
  {
    var url := BaseUrls[i] + name + Extension;
    var b := BaseUrls[i];
    assert url[..|b|] == b;
    if i == 1 {
      assert url[20] == 'w' != BaseUrls[0][20];
      assert !StartsWith(url, BaseUrls[0]);
    }
    assert WithoutBase(url, BaseUrls) == name + Extension;
  }

  // ---------------------------------------------------------------- cells and rows

  /** `[url.strip() for url in images_cell.split(', ')]` */
  function CellUrls(cell: string): seq<string>
  {
    var pieces := Split(cell, ", ");
    seq(|pieces|, k requires 0 <= k < |pieces| => Strip(pieces[k]))
  }

  /** What one URL adds to the set: its cleaned name, unless the URL or the name is empty. */
  function UrlImage(url: string): set<string>
  {
    if |url| == 0 || |Cleaned(url)| == 0 then {} else {Cleaned(url)}
  }

  /** The names added by a list of URLs, in the order of the loop. */
  function UrlImages(urls: seq<string>): set<string>
  {
    if |urls| == 0 then {}
    else UrlImages(urls[..|urls| - 1]) + UrlImage(urls[|urls| - 1])
  }

  /** The names one `Images` cell adds; an empty or blank cell is passed over. */
  function CellImages(cell: string): set<string>
  {
    if |cell| == 0 || |Strip(cell)| == 0 then {} else UrlImages(CellUrls(cell))
  }

  function RowImages(row: Row): set<string>
  {
    CellImages(Get(row, ImagesColumn, ""))
  }

  /** `unique_images` once every row has been read. */
  function ImagesOf(rows: seq<Row>): set<string>
  {
    Union(PerRow(rows))
  }

  /** The names of a URL list are exactly the non-empty cleaned forms of its non-empty URLs. */
  lemma {:induction false} UrlImagesMembers(urls: seq<string>, x: string)
    ensures x in UrlImages(urls) <==>
      |x| > 0 && exists j :: 0 <= j < |urls| && |urls[j]| > 0 && Cleaned(urls[j]) == x
  {
    if |urls| > 0 {
      var front := urls[..|urls| - 1];
      UrlImagesMembers(front, x);
      if x in UrlImages(front) {
        var j :| 0 <= j < |front| && |front[j]| > 0 && Cleaned(front[j]) == x;
        assert urls[j] == front[j];
      }
      if x !in UrlImage(urls[|urls| - 1]) {
        forall j | 0 <= j < |urls| && |urls[j]| > 0 && Cleaned(urls[j]) == x && |x| > 0
          ensures x in UrlImages(front)
        {
          assert j < |front| && front[j] == urls[j];
        }
      }
    }
  }

  /** The union of a sequence of sets, gathered from the front. */
  function Union(parts: seq<set<string>>): set<string>
  {
    if |parts| == 0 then {} else Union(parts[..|parts| - 1]) + parts[|parts| - 1]
  }

  lemma {:induction false} UnionMembers(parts: seq<set<string>>, x: string)
    ensures x in Union(parts) <==> exists i :: 0 <= i < |parts| && x in parts[i]
  {
    if |parts| > 0 {
      var front := parts[..|parts| - 1];
      UnionMembers(front, x);
      if x in Union(front) {
        var i :| 0 <= i < |front| && x in front[i];
        assert parts[i] == front[i];
      }
      if x !in parts[|parts| - 1] {
        forall i | 0 <= i < |parts| && x in parts[i] ensures x in Union(front) {
          assert i < |front| && front[i] == parts[i];
        }
      }
    }
  }

  function PerRow(rows: seq<Row>): seq<set<string>>
  {
    seq(|rows|, i requires 0 <= i < |rows| => RowImages(rows[i]))
  }

  /** The set gathered from the rows is the union of what each row's cell adds. */
  lemma ImagesOfMembers(rows: seq<Row>, x: string)
    ensures x in ImagesOf(rows) <==> exists i :: 0 <= i < |rows| && x in RowImages(rows[i])
  {
    var parts := PerRow(rows);
    UnionMembers(parts, x);
    if x in Union(parts) {
      var i :| 0 <= i < |parts| && x in parts[i];
      assert parts[i] == RowImages(rows[i]);
    }
    forall i | 0 <= i < |rows| && x in RowImages(rows[i]) ensures x in Union(parts) {
      assert parts[i] == RowImages(rows[i]);
    }
  }

  /** The empty name is never added. */
  lemma {:induction false} NoEmptyImage(rows: seq<Row>)
    ensures "" !in ImagesOf(rows)
  {
    ImagesOfMembers(rows, "");
    forall i | 0 <= i < |rows| ensures "" !in RowImages(rows[i]) {
      var cell := Get(rows[i], ImagesColumn, "");
      if |cell| > 0 && |Strip(cell)| > 0 {
        UrlImagesMembers(CellUrls(cell), "");
      }
    }
  }

  /** A text without a comma is not split by ", ". */
  lemma {:induction false} SplitNoComma(s: string)
    requires ',' !in s
    ensures Split(s, ", ") == [s]
    decreases |s|
  {
    if |s| >= 2 {
      assert s[0] != ',';
      assert s[1..][..] == s[1..];
      SplitNoComma(s[1..]);
      assert [s[0]] + s[1..] == s;
    }
  }

  /** The blank-cell guard only saves work: a blank cell splits into one blank URL, which
      adds nothing either. */
  lemma BlankCellAddsNothing(cell: string)
    requires |Strip(cell)| == 0
    ensures UrlImages(CellUrls(cell)) == {}
  {
    var i :| OccursAt(cell, Strip(cell), i)
      && (forall k :: 0 <= k < i ==> IsSpace(cell[k]))
      && (forall k :: i <= k < |cell| ==> IsSpace(cell[k]));
    assert forall k :: 0 <= k < |cell| ==> IsSpace(cell[k]);
    assert ',' !in cell by {
      forall k | 0 <= k < |cell| ensures cell[k] != ',' {
        assert IsSpace(cell[k]);
      }
    }
    SplitNoComma(cell);
    var urls := CellUrls(cell);
    assert urls == [Strip(cell)];
    assert urls[..0] == [];
  }

  // ---------------------------------------------------------------- output

  /** Each name on a line of its own. */
  function Lined(names: seq<string>): seq<string>
  {
    seq(|names|, k requires 0 <= k < |names| => names[k] + "\n")
  }

  /** The first line of the output file. */
  function CountLine(n: nat): string
  {
    CountLabel + NatToString(n) + "\n"
  }

  /** The text written to extracted_images.txt. */
  function OutputText(names: seq<string>): string
  {
    CountLine(|names|) + "\n" + Concat(Lined(names))
  }

  lemma {:induction false} ConcatSnoc(ss: seq<string>, x: string)
    ensures Concat(ss + [x]) == Concat(ss) + x
    decreases |ss|
  {
    if |ss| == 0 {
      assert [x][1..] == [];
    } else {
      assert (ss + [x])[1..] == ss[1..] + [x];
      ConcatSnoc(ss[1..], x);
    }
  }

  /** The writes to the output file: the count line, a blank line, then one name per line. */
  method WriteOutput(names: seq<string>) returns (text: string)
    ensures text == OutputText(names)
  {
    text := CountLine(|names|) + "\n";
    for k := 0 to |names|
      invariant text == CountLine(|names|) + "\n" + Concat(Lined(names[..k]))
    {
      assert Lined(names[..k + 1]) == Lined(names[..k]) + [names[k] + "\n"];
      ConcatSnoc(Lined(names[..k]), names[k] + "\n");
      text := text + (names[k] + "\n");
    }
    assert names[..|names|] == names;
  }

  /** The whole script on parsed rows: the sorted names and the text written out. */
  method Extract(rows: seq<Row>) returns (sortedImages: seq<string>, output: string)
    ensures sortedImages == SortedSet(ImagesOf(rows))
    ensures output == OutputText(sortedImages)
  {
    var uniqueImages: set<string> := {};
    for r := 0 to |rows|
      invariant uniqueImages == ImagesOf(rows[..r])
    {
      ImagesStep(rows, r);
      var cell := Get(rows[r], ImagesColumn, "");
      if |cell| > 0 && |Strip(cell)| > 0 {
        uniqueImages := AddUrls(uniqueImages, CellUrls(cell));
      }
    }
    assert rows[..|rows|] == rows;
    sortedImages := SortSet(uniqueImages);
    output := WriteOutput(sortedImages);
  }

  /** The inner loop over one cell's URLs. */
  method AddUrls(images: set<string>, urls: seq<string>) returns (images': set<string>)
    ensures images' == images + UrlImages(urls)
  {
    images' := images;
    for u := 0 to |urls|
      invariant images' == images + UrlImages(urls[..u])
    {
      assert urls[..u + 1][..u] == urls[..u];
      var url := urls[u];
      if |url| > 0 {
        var cleaned := CleanUrl(url);
        if |cleaned| > 0 {
          images' := images' + {cleaned};
        }
      }
    }
    assert urls[..|urls|] == urls;
  }

  /** One more row adds its cell's names. */
  lemma ImagesStep(rows: seq<Row>, r: int)
    requires 0 <= r < |rows|
    ensures ImagesOf(rows[..r + 1]) == ImagesOf(rows[..r]) + RowImages(rows[r])
  {
    assert PerRow(rows[..r + 1])[..r] == PerRow(rows[..r]);
  }

  /** What the script promises about its result: every name is a non-empty cleaned URL of
      some row, names are in increasing order, and none is repeated. */
  lemma ExtractedNames(rows: seq<Row>)
    ensures var names := SortedSet(ImagesOf(rows));
      && StrictlySorted(names)
      && (forall x :: x in names <==> exists i :: 0 <= i < |rows| && x in RowImages(rows[i]))
      && "" !in names
  {
    NoEmptyImage(rows);
    forall x ensures x in ImagesOf(rows) <==> exists i :: 0 <= i < |rows| && x in RowImages(rows[i]) {
      ImagesOfMembers(rows, x);
    }
  }
}
