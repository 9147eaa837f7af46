/** check_file_completeness.py: a report of the files config.json names that the input and
    mockup folders lack. */
module FileCompleteness {
  import opened Common
  import opened Numbers
  import opened Sorting
  import opened ConfigJson

  /** What opening and parsing config.json gives. */
  datatype ConfigLoad = NotFound | Malformed | Loaded(data: Json)

  /** How a run ends: one of the two error messages, an uncaught exception, or the report
      file, one entry per line (each written with a trailing newline). */
  datatype Outcome = ConfigNotFound | ConfigMalformed | Crashed | Report(lines: seq<string>)

  /** The names a config value contributes to the expected mockups: the items of a list,
      nothing for any other value. None for a list holding a value that is not a string
      (see README). */
  function ListNames(v: Json): (r: Option<set<string>>)
    ensures !v.Array? ==> r == Some({})
    ensures v.Array? ==> (r.Some? <==> forall i :: 0 <= i < |v.items| ==> v.items[i].Str?)
    ensures r.Some? && v.Array? ==> forall n :: n in r.value <==> exists i :: 0 <= i < |v.items| && v.items[i] == Str(n)
  {
    if !v.Array? then Some({})
    else if forall i :: 0 <= i < |v.items| ==> v.items[i].Str? then
      Some(set i | 0 <= i < |v.items| :: v.items[i].s)
    else None
  }

  /** The expected mockup files: the union of every list among the values, metadata entries
      included (a metadata value that is not a list adds nothing). */
  ghost function ExpectedMockups(config: map<string, Json>): Option<set<string>>
  {
    if forall k :: k in config ==> ListNames(config[k]).Some? then
      Some(set k, n | k in config && n in ListNames(config[k]).value :: n)
    else None
  }

  /** os.listdir: every entry name, directories included; a missing folder lists nothing. */
  function Listdir(folder: Folder): (names: set<string>)
    ensures folder.None? ==> names == {}
    ensures folder.Some? ==> names == folder.value.Keys
  {
    if folder.None? then {} else folder.value.Keys
  }

  const Header: string := "--- Raport kompletności plików ---"
  const Footer: string := "--- Koniec raportu ---"
  const Bullet: string := "  - "

  /** The line of a folder with nothing missing. */
  function CompleteLine(folderName: string, expected: set<string>): (line: string)
    ensures |line| > 0 && line[0] == '✅'
  {
    "✅ Folder '" + folderName + "' jest kompletny. Znaleziono wszystkie "
    + NatToString(|expected|) + " zdefiniowane pliki."
  }

  /** The line opening the list of a folder's missing files. */
  function ShortageLine(folderName: string, expected: set<string>, missing: set<string>): (line: string)
    ensures |line| > 0 && line[0] == '❌'
  {
    "❌ Znaleziono braki w folderze '" + folderName + "' (" + NatToString(|missing|)
    + " z " + NatToString(|expected|) + "):"
  }

  function Bullets(names: seq<string>): seq<string>
  {
    seq(|names|, i requires 0 <= i < |names| => Bullet + names[i])
  }

  /** The lines that report one folder. */
  ghost function Section(folderName: string, expected: set<string>, missing: set<string>): seq<string>
  {
    if missing == {} then [CompleteLine(folderName, expected), ""]
    else [ShortageLine(folderName, expected, missing)] + Bullets(SortedSet(missing)) + [""]
  }

  /** The whole report, given the expected and the present names of both folders. */
  ghost function ReportLines(timestamp: string, expectedInputs: set<string>, actualInputs: set<string>,
                             expectedMockups: set<string>, actualMockups: set<string>): seq<string>
  {
    [Header, "Data sprawdzenia: " + timestamp, ""]
    + Section("input", expectedInputs, expectedInputs - actualInputs)
    + Section("mockup", expectedMockups, expectedMockups - actualMockups)
    + [Footer]
  }

  /** Writes one folder's section, the missing names in sorted order. */
  method WriteSection(folderName: string, expected: set<string>, missing: set<string>)
    returns (lines: seq<string>)
    ensures lines == Section(folderName, expected, missing)
  {
    if missing == {} {
      lines := [CompleteLine(folderName, expected), ""];
    } else {
      var head := ShortageLine(folderName, expected, missing);
      var names := SortSet(missing);
      lines := [head];
      var i := 0;
      while i < |names|
        invariant 0 <= i <= |names|
        invariant lines == [head] + Bullets(names[..i])
      {
        BulletsSnoc(names, i);
        lines := lines + [Bullet + names[i]];
        i := i + 1;
      }
      assert names[..i] == names;
      lines := lines + [""];
    }
  }

  /** The expected mockups computed the way the script does, one config entry at a time. */
  method CollectMockups(config: map<string, Json>) returns (r: Option<set<string>>)
    ensures r == ExpectedMockups(config)
  {
    var mockups: set<string> := {};
    var rest := config.Keys;
    while rest != {}
      invariant rest <= config.Keys
      invariant forall k :: k in config.Keys - rest ==> ListNames(config[k]).Some?
      invariant mockups == set k, n | k in config.Keys - rest && n in ListNames(config[k]).value :: n
      decreases rest
    {
      var key :| key in rest;
      var names := ListNames(config[key]);
      if names.None? {
        assert key in config && ListNames(config[key]).None?;
        return None;
      }
      mockups := mockups + names.value;
      rest := rest - {key};
    }
    assert config.Keys - rest == config.Keys;
    return Some(mockups);
  }

  /** check_file_completeness, the clock reading passed in as the formatted timestamp. */
  method CheckFileCompleteness(load: ConfigLoad, inputDir: Folder, mockupDir: Folder, timestamp: string)
    returns (o: Outcome)
    ensures load.NotFound? <==> o == ConfigNotFound
    ensures load.Malformed? <==> o == ConfigMalformed
    ensures o.Crashed? <==> load.Loaded? && (!load.data.Object? || ExpectedMockups(load.data.fields).None?)
    ensures o.Report? ==>
      && load.Loaded? && load.data.Object? && ExpectedMockups(load.data.fields).Some?
      && o.lines == ReportLines(timestamp, load.data.fields.Keys, Listdir(inputDir),
                                ExpectedMockups(load.data.fields).value, Listdir(mockupDir))
  {
    if load.NotFound? {
      return ConfigNotFound;
    }
    if load.Malformed? {
      return ConfigMalformed;
    }
    if !load.data.Object? {
      return Crashed;
    }
    var config := load.data.fields;
    var expectedInputs := config.Keys;
    var expectedMockups := CollectMockups(config);
    if expectedMockups.None? {
      return Crashed;
    }
    var actualInputs := Listdir(inputDir);
    var actualMockups := Listdir(mockupDir);
    var inputSection := WriteSection("input", expectedInputs, expectedInputs - actualInputs);
    var mockupSection := WriteSection("mockup", expectedMockups.value, expectedMockups.value - actualMockups);
    return Report([Header, "Data sprawdzenia: " + timestamp, ""] + inputSection + mockupSection + [Footer]);
  }

  /** The report opens with its title and the date line and closes with its end marker. */
  lemma ReportFrame(timestamp: string, ei: set<string>, ai: set<string>, em: set<string>, am: set<string>)
    ensures var lines := ReportLines(timestamp, ei, ai, em, am);
      && |lines| >= 8 && lines[0] == Header && lines[1] == "Data sprawdzenia: " + timestamp
      && lines[|lines| - 1] == Footer
  {
  }

  /** The input section opens with the ✅ line exactly when every expected input is present. */
  lemma InputCompleteIff(timestamp: string, ei: set<string>, ai: set<string>, em: set<string>, am: set<string>)
    ensures ReportLines(timestamp, ei, ai, em, am)[3][0] == '✅' <==> ei <= ai
  {
    var missing := ei - ai;
    if ei <= ai {
      assert missing == {};
    } else {
      var f :| f in ei && f !in ai;
      assert f in missing;
    }
  }

  /** A file is listed under a bullet exactly when it is expected and absent, in either folder. */
  lemma ListedIff(timestamp: string, ei: set<string>, ai: set<string>, em: set<string>, am: set<string>, f: string)
    ensures Bullet + f in ReportLines(timestamp, ei, ai, em, am) <==> f in (ei - ai) + (em - am)
  {
    var s1 := Section("input", ei, ei - ai);
    var s2 := Section("mockup", em, em - am);
    SectionListed("input", ei, ei - ai, f);
    SectionListed("mockup", em, em - am, f);
    FrameNotBullet(timestamp, f);
    InConcat([Header, "Data sprawdzenia: " + timestamp, ""], s1, s2, [Footer], Bullet + f);
  }

  /** The header lines and the footer are never bullets. */
  lemma FrameNotBullet(timestamp: string, f: string)
    ensures Bullet + f !in [Header, "Data sprawdzenia: " + timestamp, ""] + [Footer]
  {
    BulletShape(f);
    assert Header[0] == '-' && Footer[0] == '-';
    assert ("Data sprawdzenia: " + timestamp)[0] == 'D';
  }

  lemma InConcat(a: seq<string>, b: seq<string>, c: seq<string>, d: seq<string>, x: string)
    requires x !in a + d
    ensures x in a + b + c + d <==> x in b || x in c
  {
  }

  lemma SectionListed(folderName: string, expected: set<string>, missing: set<string>, f: string)
    ensures Bullet + f in Section(folderName, expected, missing) <==> f in missing
  {
    BulletShape(f);
    if missing != {} {
      var names := SortedSet(missing);
      var head := ShortageLine(folderName, expected, missing);
      assert Section(folderName, expected, missing) == [head] + Bullets(names) + [""];
      BulletsListed(head, names, f);
      assert f in names <==> f in missing;
    }
  }

  /** A line is a bullet of a framed list exactly when its name is in the list. */
  lemma BulletsListed(head: string, names: seq<string>, f: string)
    requires |head| > 0 && head[0] != ' '
    ensures Bullet + f in [head] + Bullets(names) + [""] <==> f in names
  {
    var s := [head] + Bullets(names) + [""];
    BulletShape(f);
    if Bullet + f in s {
      var k :| 0 <= k < |s| && s[k] == Bullet + f;
      assert 0 < k < |s| - 1;
      assert s[k] == Bullet + names[k - 1];
      BulletInjective(f, names[k - 1]);
    }
    if f in names {
      var k :| 0 <= k < |names| && names[k] == f;
      assert s[k + 1] == Bullet + f;
    }
  }

  lemma BulletsSnoc(names: seq<string>, i: nat)
    requires i < |names|
    ensures Bullets(names[..i + 1]) == Bullets(names[..i]) + [Bullet + names[i]]
  {
  }

  lemma BulletShape(f: string)
    ensures |Bullet + f| > 0 && (Bullet + f)[0] == ' '
  {
  }

  lemma BulletInjective(f: string, g: string)
    requires Bullet + f == Bullet + g
    ensures f == g
  {
    assert f == (Bullet + f)[|Bullet|..];
    assert g == (Bullet + g)[|Bullet|..];
  }

  /** A missing input folder counts as empty: the input section reports every expected input
      as missing, all of them out of all of them, and lists each of them, in sorted order,
      and nothing else. */
  lemma MissingFolderListsAll(ei: set<string>)
    requires ei != {}
    ensures Section("input", ei, ei - Listdir(None))
      == [ShortageLine("input", ei, ei)] + Bullets(SortedSet(ei)) + [""]
    ensures forall f :: Bullet + f in Section("input", ei, ei - Listdir(None)) <==> f in ei
  {
    assert ei - Listdir(None) == ei;
    forall f
      ensures Bullet + f in Section("input", ei, ei - Listdir(None)) <==> f in ei
    {
      SectionListed("input", ei, ei - Listdir(None), f);
    }
  }
}
