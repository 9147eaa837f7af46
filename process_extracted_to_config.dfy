/** process_extracted_to_config.py: the list written by extract_images.py is read back,
    each name is split into an input file and a mockup file, and the mapping is laid out
    as config.json with metadata, numeric-first key order and sorted mockup lists. */
module ExtractedConfig {
  import opened Common
  import opened Text
  import opened Numbers
  import opened Sorting
  import opened ConfigJson
  import ExtractImages
  import FilesExistence
  import FileCompleteness

  /** The start of the count line that the parser passes over. */
  const CountPrefix := "Liczba unikalnych obrazów:"

  // ---------------------------------------------------------------- one line

  /** The (input key, mockup value) pair one line of the file contributes, or None for a
      blank line, the count line, or a line without '_'. */
  function ParsedPair(line: string): Option<(string, string)>
  {
    PairOf(Strip(line))
  }

  /** The pair named by a stripped line. */
  function PairOf(l: string): Option<(string, string)>
  {
    if |l| == 0 || StartsWith(l, CountPrefix) then None
    else if '_' !in l then None
    else
      var parts := SplitOnce(l, '_');
      if |parts| != 2 then None
      else Some((parts[0] + ".png", parts[1] + ".psd"))
  }

  /** A line counts exactly when its stripped text is non-empty, is not the count line and
      holds a '_' (the two-part check never fails). The key is the text before the first '_'
      with ".png", the value everything after it with ".psd". */
  lemma ParsedPairShape(line: string)
    ensures var l := Strip(line);
      && (ParsedPair(line).Some? <==> |l| > 0 && !StartsWith(l, CountPrefix) && '_' in l)
      && (ParsedPair(line).Some? ==>
            exists before, after ::
              && '_' !in before
              && l == before + "_" + after
              && ParsedPair(line).value == (before + ".png", after + ".psd"))
  {
    var l := Strip(line);
    if |l| > 0 && !StartsWith(l, CountPrefix) && '_' in l {
      var parts := SplitOnce(l, '_');
      assert parts[0] + "_" + parts[1] == l;
    }
  }

  /** A key the parser produces never starts with '_', so the audit scripts treat it as an
      input file and not as metadata. */
  lemma KeyNotMetadata(line: string)
    requires ParsedPair(line).Some?
    ensures !IsMetadata(ParsedPair(line).value.0)
  {
    var parts := SplitOnce(Strip(line), '_');
    PngKeyPlain(parts[0]);
  }

  lemma PngKeyPlain(before: string)
    requires '_' !in before
    ensures !IsMetadata(before + ".png")
  {
    var key := before + ".png";
    if |before| > 0 {
      assert key[0] == before[0];
    } else {
      assert key[0] == '.';
    }
  }

  // ---------------------------------------------------------------- the mapping

  /** The defaultdict of lists, with its keys in insertion order. */
  datatype Mappings = Mappings(order: seq<string>, lists: map<string, seq<string>>)

  /** One `mappings[input_key]` access followed by the guarded append. */
  function AddPair(m: Mappings, key: string, value: string): Mappings
  {
    if key in m.lists then
      if value in m.lists[key] then m
      else Mappings(m.order, m.lists[key := m.lists[key] + [value]])
    else Mappings(m.order + [key], m.lists[key := [value]])
  }

  /** What one line of the file does to the mapping. */
  function Step(m: Mappings, line: string): Mappings
  {
    match ParsedPair(line)
    case None => m
    case Some((key, value)) => AddPair(m, key, value)
  }

  /** The mapping after the given lines, read from the first. */
  function ParseLines(lines: seq<string>): Mappings
  {
    if |lines| == 0 then Mappings([], map[])
    else Step(ParseLines(lines[..|lines| - 1]), lines[|lines| - 1])
  }

  /** The body of the loop in parse_extracted_images, for one line of the file. */
  method ParseLine(order: seq<string>, lists: map<string, seq<string>>, rawLine: string)
    returns (order': seq<string>, lists': map<string, seq<string>>)
    ensures Mappings(order', lists') == Step(Mappings(order, lists), rawLine)
  {
    order', lists' := order, lists;
    var line := Strip(rawLine);
    assert ParsedPair(rawLine) == PairOf(line);
    if |line| == 0 || StartsWith(line, CountPrefix) {
      return;
    }
    if '_' !in line {
      return;
    }
    var parts := SplitOnce(line, '_');
    // `len(parts) != 2` is never true here: the line holds a '_'.
    assert |parts| == 2;
    var inputKey := parts[0] + ".png";
    var mockupValue := parts[1] + ".psd";
    assert PairOf(line) == Some((inputKey, mockupValue));
    order', lists' := Append(order, lists, inputKey, mockupValue);
  }

  /** `if mockup_value not in mappings[input_key]: mappings[input_key].append(mockup_value)`,
      where the access creates an empty list for a new key. */
  method Append(order: seq<string>, lists: map<string, seq<string>>, key: string, value: string)
    returns (order': seq<string>, lists': map<string, seq<string>>)
    ensures Mappings(order', lists') == AddPair(Mappings(order, lists), key, value)
  {
    order', lists' := order, lists;
    if key !in lists' {
      order' := order' + [key];
      lists' := lists'[key := []];
    }
    if value !in lists'[key] {
      assert key !in lists ==> lists'[key] + [value] == [value];
      lists' := lists'[key := lists'[key] + [value]];
    }
  }

  /** parse_extracted_images on the file's text. */
  method ParseExtractedImages(text: string) returns (m: Mappings)
    ensures m == ParseLines(Lines(text))
  {
    var lines := Lines(text);
    var order: seq<string> := [];
    var lists: map<string, seq<string>> := map[];
    for i := 0 to |lines|
      invariant Mappings(order, lists) == ParseLines(lines[..i])
    {
      assert lines[..i + 1][..i] == lines[..i];
      order, lists := ParseLine(order, lists, lines[i]);
    }
    assert lines[..|lines|] == lines;
    m := Mappings(order, lists);
  }

  // ---------------------------------------------------------------- reference definitions

  /** The keys of the counted lines, in file order, repeats included. */
  function AllKeys(lines: seq<string>): seq<string>
  {
    if |lines| == 0 then []
    else
      var front := AllKeys(lines[..|lines| - 1]);
      match ParsedPair(lines[|lines| - 1])
      case None => front
      case Some((key, _)) => front + [key]
  }

  /** The values the counted lines give to one key, in file order, repeats included. */
  function ValuesFor(lines: seq<string>, key: string): seq<string>
  {
    if |lines| == 0 then []
    else
      var front := ValuesFor(lines[..|lines| - 1], key);
      match ParsedPair(lines[|lines| - 1])
      case Some((k, v)) => if k == key then front + [v] else front
      case None => front
  }

  /** A sequence with every repeat after the first occurrence dropped. */
  function Dedup(s: seq<string>): (d: seq<string>)
    ensures forall x :: x in d <==> x in s
    ensures forall i, j :: 0 <= i < j < |d| ==> d[i] != d[j]
  {
    if |s| == 0 then []
    else
      var d := Dedup(s[..|s| - 1]);
      assert forall x :: x in s <==> x in s[..|s| - 1] || x == s[|s| - 1];
      if s[|s| - 1] in d then d else d + [s[|s| - 1]]
  }

  lemma {:induction false} ValuesForAbsent(lines: seq<string>, key: string)
    requires key !in AllKeys(lines)
    ensures ValuesFor(lines, key) == []
  {
    if |lines| > 0 {
      ValuesForAbsent(lines[..|lines| - 1], key);
    }
  }

  /** Keeping first occurrences, one more element is appended exactly when it is new. */
  lemma DedupSnoc(s: seq<string>, x: string)
    ensures Dedup(s + [x]) == if x in Dedup(s) then Dedup(s) else Dedup(s) + [x]
  {
    assert (s + [x])[..|s|] == s;
  }

  /** The facts ParseIsDedup states, for one sequence of lines. */
  ghost predicate DedupFacts(lines: seq<string>)
  {
    var m := ParseLines(lines);
    && m.order == Dedup(AllKeys(lines))
    && (forall k :: k in m.lists <==> k in AllKeys(lines))
    && (forall k :: k in m.lists ==> m.lists[k] == Dedup(ValuesFor(lines, k)))
  }

  /** A counted last line adds its pair to each of the reference definitions. */
  lemma CountedLast(lines: seq<string>, key: string, value: string)
    requires |lines| > 0 && ParsedPair(lines[|lines| - 1]) == Some((key, value))
    ensures var front := lines[..|lines| - 1];
      && ParseLines(lines) == AddPair(ParseLines(front), key, value)
      && AllKeys(lines) == AllKeys(front) + [key]
      && (forall k {:trigger ValuesFor(lines, k)} :: ValuesFor(lines, k) ==
            if k == key then ValuesFor(front, k) + [value] else ValuesFor(front, k))
  {
    var front := lines[..|lines| - 1];
    assert Step(ParseLines(front), lines[|lines| - 1]) == AddPair(ParseLines(front), key, value);
    forall k ensures ValuesFor(lines, k) == if k == key then ValuesFor(front, k) + [value] else ValuesFor(front, k) {
      PairStep(lines, k);
    }
  }

  /** One counted line keeps the facts. */
  lemma DedupStep(lines: seq<string>, key: string, value: string)
    requires |lines| > 0 && ParsedPair(lines[|lines| - 1]) == Some((key, value))
    requires DedupFacts(lines[..|lines| - 1])
    ensures DedupFacts(lines)
  {
    var front := lines[..|lines| - 1];
    CountedLast(lines, key, value);
    var m0 := ParseLines(front);
    var m := AddPair(m0, key, value);
    OrderStep(m0, AllKeys(front), key, value);
    KeysStep(m0, AllKeys(front), key, value);
    forall k | k in m.lists ensures m.lists[k] == Dedup(ValuesFor(lines, k)) {
      ListStep(front, m0, lines, key, value, k);
    }
  }

  /** One more counted line extends the key order as dict insertion does. */
  lemma OrderStep(m0: Mappings, keys: seq<string>, key: string, value: string)
    requires m0.order == Dedup(keys) && (key in m0.lists <==> key in keys)
    ensures AddPair(m0, key, value).order == Dedup(keys + [key])
  {
    DedupSnoc(keys, key);
    if key in m0.lists {
      assert key in Dedup(keys);
      assert AddPair(m0, key, value).order == m0.order;
    } else {
      assert key !in Dedup(keys);
      assert AddPair(m0, key, value).order == m0.order + [key];
    }
  }

  lemma KeysStep(m0: Mappings, keys: seq<string>, key: string, value: string)
    requires forall k :: k in m0.lists <==> k in keys
    ensures forall k :: k in AddPair(m0, key, value).lists <==> k in keys + [key]
  {
    var m := AddPair(m0, key, value);
    assert m.lists.Keys == m0.lists.Keys + {key};
    forall k ensures k in m.lists <==> k in keys + [key] {
      assert k in keys + [key] <==> k in keys || k == key;
    }
  }


  lemma ListStep(front: seq<string>, m0: Mappings, lines: seq<string>, key: string, value: string, k: string)
    requires m0 == ParseLines(front) && DedupFacts(front)
    requires ValuesFor(lines, k) == if k == key then ValuesFor(front, k) + [value] else ValuesFor(front, k)
    requires k in AddPair(m0, key, value).lists
    ensures AddPair(m0, key, value).lists[k] == Dedup(ValuesFor(lines, k))
  {
    if k != key {
    } else if key !in m0.lists {
      ValuesForAbsent(front, key);
      assert ValuesFor(lines, key) == [value];
      assert [value][..0] == [];
    } else {
      DedupSnoc(ValuesFor(front, key), value);
    }
  }

  /** The parsed mapping is the first-seen order of the keys, each with its values in
      first-seen order and without repeats. */
  lemma {:induction false} ParseIsDedup(lines: seq<string>)
    ensures DedupFacts(lines)
  {
    if |lines| > 0 {
      var front := lines[..|lines| - 1];
      ParseIsDedup(front);
      match ParsedPair(lines[|lines| - 1])
      case None =>
        assert ParseLines(lines) == ParseLines(front);
        assert AllKeys(lines) == AllKeys(front);
        forall k ensures ValuesFor(lines, k) == ValuesFor(front, k) {
        }
      case Some((key, value)) =>
        DedupStep(lines, key, value);
    }
  }

  /** Every key of the mapping has at least one value, and no value twice. */
  lemma ListsNonEmptyDistinct(lines: seq<string>)
    ensures var m := ParseLines(lines);
      forall k :: k in m.lists ==>
        && |m.lists[k]| > 0
        && (forall i, j :: 0 <= i < j < |m.lists[k]| ==> m.lists[k][i] != m.lists[k][j])
  {
    var m := ParseLines(lines);
    ParseIsDedup(lines);
    forall k | k in m.lists ensures |m.lists[k]| > 0 {
      ValuesForPresent(lines, k);
      assert ValuesFor(lines, k)[0] in m.lists[k];
    }
  }

  lemma {:induction false} ValuesForPresent(lines: seq<string>, key: string)
    requires key in AllKeys(lines)
    ensures |ValuesFor(lines, key)| > 0
  {
    if |lines| > 0 {
      var front := lines[..|lines| - 1];
      if key in AllKeys(front) {
        ValuesForPresent(front, key);
      }
    }
  }

  /** The pairs the counted lines name, as a set. */
  function PairSet(lines: seq<string>): set<(string, string)>
  {
    if |lines| == 0 then {}
    else
      var front := PairSet(lines[..|lines| - 1]);
      match ParsedPair(lines[|lines| - 1])
      case None => front
      case Some(p) => front + {p}
  }

  lemma {:induction false} PairSetMembers(lines: seq<string>, key: string, value: string)
    ensures (key, value) in PairSet(lines) <==> value in ValuesFor(lines, key)
  {
    if |lines| > 0 {
      var front := lines[..|lines| - 1];
      PairSetMembers(front, key, value);
      var p := ParsedPair(lines[|lines| - 1]);
      PairStep(lines, key);
      MembersStep(PairSet(front), ValuesFor(front, key), p, key, value);
    }
  }

  /** The pair and the value one more line adds. */
  function PairOfOption(p: Option<(string, string)>): set<(string, string)>
  {
    if p.Some? then {p.value} else {}
  }

  function ValueOfOption(p: Option<(string, string)>, key: string): seq<string>
  {
    if p.Some? && p.value.0 == key then [p.value.1] else []
  }

  lemma PairStep(lines: seq<string>, key: string)
    requires |lines| > 0
    ensures var p := ParsedPair(lines[|lines| - 1]);
      && PairSet(lines) == PairSet(lines[..|lines| - 1]) + PairOfOption(p)
      && ValuesFor(lines, key) == ValuesFor(lines[..|lines| - 1], key) + ValueOfOption(p, key)
  {
    var front := lines[..|lines| - 1];
    match ParsedPair(lines[|lines| - 1])
    case None =>
      assert PairSet(lines) == PairSet(front) + {};
      assert ValuesFor(lines, key) == ValuesFor(front, key) + [];
    case Some((k, v)) =>
      assert PairSet(lines) == PairSet(front) + {(k, v)};
      if k == key {
        assert ValuesFor(lines, key) == ValuesFor(front, key) + [v];
      } else {
        assert ValuesFor(lines, key) == ValuesFor(front, key) + [];
      }
  }

  lemma MembersStep(pairs: set<(string, string)>, values: seq<string>, p: Option<(string, string)>, key: string, value: string)
    requires (key, value) in pairs <==> value in values
    ensures (key, value) in pairs + PairOfOption(p) <==> value in values + ValueOfOption(p, key)
  {
  }


  /** A value is listed under a key exactly when some line names that pair. */
  lemma ParsedMembers(lines: seq<string>, key: string, value: string)
    ensures var m := ParseLines(lines);
      key in m.lists && value in m.lists[key] <==> (key, value) in PairSet(lines)
  {
    ParseIsDedup(lines);
    PairSetMembers(lines, key, value);
    if value in ValuesFor(lines, key) && key !in AllKeys(lines) {
      ValuesForAbsent(lines, key);
    }
  }

  // ---------------------------------------------------------------- totals

  /** `_totalInputFiles`: len(mappings). */
  function TotalInputFiles(m: Mappings): nat
  {
    |m.lists|
  }

  /** The lengths of the lists of the given keys, added up. */
  function SumLengths(keys: seq<string>, lists: map<string, seq<string>>): nat
  {
    if |keys| == 0 then 0
    else
      var k := keys[|keys| - 1];
      SumLengths(keys[..|keys| - 1], lists) + (if k in lists then |lists[k]| else 0)
  }

  /** `_totalCombinations`: the lengths of all the lists, added up. */
  function TotalCombinations(m: Mappings): nat
  {
    SumLengths(m.order, m.lists)
  }

  /** Changing the list of a key the sum does not visit leaves the sum alone. */
  lemma {:induction false} SumOther(keys: seq<string>, lists: map<string, seq<string>>, k: string, l: seq<string>)
    requires k !in keys
    ensures SumLengths(keys, lists[k := l]) == SumLengths(keys, lists)
  {
    if |keys| > 0 {
      SumOther(keys[..|keys| - 1], lists, k, l);
    }
  }

  /** Changing the list of a key the sum visits once changes the sum by the difference. */
  lemma {:induction false} SumUpdate(keys: seq<string>, lists: map<string, seq<string>>, k: string, l: seq<string>)
    requires k in lists
    requires forall i, j :: 0 <= i < j < |keys| ==> keys[i] != keys[j]
    requires k in keys
    ensures SumLengths(keys, lists[k := l]) + |lists[k]| == SumLengths(keys, lists) + |l|
  {
    var front := keys[..|keys| - 1];
    if keys[|keys| - 1] == k {
      assert k !in front;
      SumOther(front, lists, k, l);
    } else {
      assert k in front;
      SumUpdate(front, lists, k, l);
    }
  }

  lemma {:induction false} DistinctCard(s: seq<string>)
    requires forall i, j :: 0 <= i < j < |s| ==> s[i] != s[j]
    ensures |set x | x in s| == |s|
  {
    if |s| > 0 {
      var front, last := s[..|s| - 1], s[|s| - 1];
      forall i, j | 0 <= i < j < |front| ensures front[i] != front[j] {
        assert front[i] == s[i] && front[j] == s[j];
      }
      forall i | 0 <= i < |front| ensures front[i] != last {
        assert front[i] == s[i];
      }
      DistinctCard(front);
      var earlier := set x | x in front;
      assert last !in earlier;
      assert s == front + [last];
      assert (set x | x in s) == earlier + {last};
      assert |earlier + {last}| == |earlier| + 1;
    }
  }

  /** `_totalInputFiles` is the number of distinct keys the lines name. */
  lemma TotalInputsCount(lines: seq<string>)
    ensures var m := ParseLines(lines);
      TotalInputFiles(m) == |m.order| == |set k | k in AllKeys(lines)|
  {
    ParseIsDedup(lines);
    var m := ParseLines(lines);
    assert m.lists.Keys == set k | k in AllKeys(lines);
    assert (set k | k in m.order) == set k | k in AllKeys(lines);
    DistinctCard(m.order);
  }

  /** The shape every parsed mapping has: the order lists each key of the dict once. */
  ghost predicate WellFormed(m: Mappings)
  {
    && (forall i, j :: 0 <= i < j < |m.order| ==> m.order[i] != m.order[j])
    && (forall k :: k in m.order <==> k in m.lists)
  }

  lemma ParsedWellFormed(lines: seq<string>)
    ensures WellFormed(ParseLines(lines))
  {
    ParseIsDedup(lines);
  }

  /** One append adds one combination exactly when the value is new for its key. */
  lemma AddPairTotal(m: Mappings, key: string, value: string)
    requires WellFormed(m)
    ensures TotalCombinations(AddPair(m, key, value)) ==
      TotalCombinations(m) + if key in m.lists && value in m.lists[key] then 0 else 1
  {
    if key !in m.lists {
      SumOther(m.order, m.lists, key, [value]);
      assert (m.order + [key])[..|m.order|] == m.order;
    } else if value !in m.lists[key] {
      SumUpdate(m.order, m.lists, key, m.lists[key] + [value]);
    }
  }

  /** One counted line adds one combination exactly when its pair is new. */
  lemma CombinationsStep(m0: Mappings, pairs0: set<(string, string)>, key: string, value: string)
    requires WellFormed(m0) && TotalCombinations(m0) == |pairs0|
    requires (key, value) in pairs0 <==> key in m0.lists && value in m0.lists[key]
    ensures TotalCombinations(AddPair(m0, key, value)) == |pairs0 + {(key, value)}|
  {
    AddPairTotal(m0, key, value);
    var p := (key, value);
    if p in pairs0 {
      assert pairs0 + {p} == pairs0;
    } else {
      assert |pairs0 + {p}| == |pairs0| + 1;
    }
  }

  lemma PairSetLast(lines: seq<string>, key: string, value: string)
    requires |lines| > 0 && ParsedPair(lines[|lines| - 1]) == Some((key, value))
    ensures PairSet(lines) == PairSet(lines[..|lines| - 1]) + {(key, value)}
  {
  }

  /** `_totalCombinations` is the number of distinct (key, value) pairs the lines name. */
  lemma {:induction false} TotalCombinationsCount(lines: seq<string>)
    ensures TotalCombinations(ParseLines(lines)) == |PairSet(lines)|
  {
    if |lines| > 0 {
      var front := lines[..|lines| - 1];
      TotalCombinationsCount(front);
      match ParsedPair(lines[|lines| - 1])
      case None =>
      case Some((key, value)) =>
        ParsedWellFormed(front);
        ParsedMembers(front, key, value);
        CountedLast(lines, key, value);
        PairSetLast(lines, key, value);
        CombinationsStep(ParseLines(front), PairSet(front), key, value);
    }
  }

  // ---------------------------------------------------------------- key order

  /** sort_key's value: (0, int(base)) or (1, base). */
  datatype SortKey = Numeric(n: nat) | Named(name: string)

  /** key.split('.')[0] */
  function BaseName(key: string): string
  {
    SplitOnce(key, '.')[0]
  }

  /** sort_key(key), with str.isdigit() over ASCII digits. */
  function KeyOf(key: string): SortKey
  {
    var base := BaseName(key);
    if IsDigits(base) then Numeric(DigitsValue(base)) else Named(base)
  }

  /** Python's ordering of the two-element tuples sort_key returns. */
  predicate Before(a: SortKey, b: SortKey)
  {
    match (a, b)
    case (Numeric(m), Numeric(n)) => m < n
    case (Numeric(_), Named(_)) => true
    case (Named(_), Numeric(_)) => false
    case (Named(s), Named(t)) => Less(s, t)
  }

  lemma BeforeIrreflexive(a: SortKey)
    ensures !Before(a, a)
  {
    if a.Named? {
      LessIrreflexive(a.name);
    }
  }

  lemma BeforeTransitive(a: SortKey, b: SortKey, c: SortKey)
    requires Before(a, b) && Before(b, c)
    ensures Before(a, c)
  {
    if a.Named? {
      LessTransitive(a.name, b.name, c.name);
    }
  }

  lemma BeforeTotal(a: SortKey, b: SortKey)
    ensures a == b || Before(a, b) || Before(b, a)
  {
    if a.Named? && b.Named? {
      LessTotal(a.name, b.name);
    }
  }

  /** No element's key comes after the key of a later one. */
  predicate SortedBy(key: string -> SortKey, s: seq<string>)
  {
    forall i, j :: 0 <= i < j < |s| ==> !Before(key(s[j]), key(s[i]))
  }

  lemma SortedTail(key: string -> SortKey, s: seq<string>)
    requires |s| > 0 && SortedBy(key, s)
    ensures SortedBy(key, s[1..])
  {
    forall i, j | 0 <= i < j < |s[1..]| ensures !Before(key(s[1..][j]), key(s[1..][i])) {
      assert s[1..][i] == s[i + 1] && s[1..][j] == s[j + 1];
    }
  }

  /** An element whose key is below the first key of a sorted sequence is below them all. */
  lemma BelowAll(key: string -> SortKey, x: string, s: seq<string>, j: int)
    requires |s| > 0 && SortedBy(key, s) && Before(key(x), key(s[0]))
    requires 0 <= j < |s|
    ensures Before(key(x), key(s[j]))
  {
    BeforeTotal(key(s[0]), key(s[j]));
    if j > 0 && key(s[0]) != key(s[j]) {
      BeforeTransitive(key(x), key(s[0]), key(s[j]));
    }
  }

  /** One step of a stable insertion: x goes after every element whose key is not greater. */
  function InsertBy(key: string -> SortKey, x: string, s: seq<string>): (r: seq<string>)
    ensures multiset(r) == multiset(s) + multiset{x}
  {
    if |s| == 0 then [x]
    else if Before(key(x), key(s[0])) then [x] + s
    else
      assert s == [s[0]] + s[1..];
      [s[0]] + InsertBy(key, x, s[1..])
  }

  /** Inserting into a sorted sequence keeps it sorted. */
  lemma {:induction false} InsertSorted(key: string -> SortKey, x: string, s: seq<string>)
    requires SortedBy(key, s)
    ensures SortedBy(key, InsertBy(key, x, s))
  {
    var r := InsertBy(key, x, s);
    if |s| == 0 {
    } else if Before(key(x), key(s[0])) {
      forall i, j | 0 <= i < j < |r| ensures !Before(key(r[j]), key(r[i])) {
        if i == 0 {
          BelowAll(key, x, s, j - 1);
          assert r[j] == s[j - 1];
          if Before(key(r[j]), key(x)) {
            BeforeTransitive(key(x), key(r[j]), key(x));
            BeforeIrreflexive(key(x));
          }
        } else {
          assert r[i] == s[i - 1] && r[j] == s[j - 1];
        }
      }
    } else {
      var t := InsertBy(key, x, s[1..]);
      SortedTail(key, s);
      InsertSorted(key, x, s[1..]);
      InsertAfterHead(key, x, s, t);
    }
  }

  /** The head stays in front of a sorted insertion into the tail. */
  lemma InsertAfterHead(key: string -> SortKey, x: string, s: seq<string>, t: seq<string>)
    requires |s| > 0 && SortedBy(key, s) && !Before(key(x), key(s[0]))
    requires multiset(t) == multiset(s[1..]) + multiset{x} && SortedBy(key, t)
    ensures SortedBy(key, [s[0]] + t)
  {
    var r := [s[0]] + t;
    forall i, j | 0 <= i < j < |r| ensures !Before(key(r[j]), key(r[i])) {
      assert r[j] == t[j - 1];
      if i == 0 {
        assert t[j - 1] in multiset(t);
        NotBeforeHead(key, x, s, t[j - 1]);
      } else {
        assert r[i] == t[i - 1];
        SortedAt(key, t, i - 1, j - 1);
      }
    }
  }

  lemma SortedAt(key: string -> SortKey, t: seq<string>, a: int, b: int)
    requires SortedBy(key, t) && 0 <= a < b < |t|
    ensures !Before(key(t[b]), key(t[a]))
  {
  }

  /** Nothing from the tail of a sorted sequence, nor x, comes before its head. */
  lemma NotBeforeHead(key: string -> SortKey, x: string, s: seq<string>, y: string)
    requires |s| > 0 && SortedBy(key, s) && !Before(key(x), key(s[0]))
    requires y in multiset(s[1..]) + multiset{x}
    ensures !Before(key(y), key(s[0]))
  {
    if y != x {
      assert y in multiset(s[1..]);
      var k :| 0 <= k < |s[1..]| && s[1..][k] == y;
      assert s[k + 1] == y;
    }
  }

  /** sorted(s, key=key): insertion sort, taking the elements in their given order. */
  function SortBy(key: string -> SortKey, s: seq<string>): (r: seq<string>)
    ensures multiset(r) == multiset(s)
  {
    if |s| == 0 then []
    else
      assert s == s[..|s| - 1] + [s[|s| - 1]];
      InsertBy(key, s[|s| - 1], SortBy(key, s[..|s| - 1]))
  }

  /** The result of sorted() is ordered by the key. */
  lemma {:induction false} SortSorted(key: string -> SortKey, s: seq<string>)
    ensures SortedBy(key, SortBy(key, s))
  {
    if |s| > 0 {
      SortSorted(key, s[..|s| - 1]);
      InsertSorted(key, s[|s| - 1], SortBy(key, s[..|s| - 1]));
    }
  }

  /** The elements of s whose key is k, in their order in s. */
  function WithKey(key: string -> SortKey, s: seq<string>, k: SortKey): seq<string>
  {
    if |s| == 0 then []
    else (if key(s[0]) == k then [s[0]] else []) + WithKey(key, s[1..], k)
  }

  lemma {:induction false} WithKeySnoc(key: string -> SortKey, s: seq<string>, x: string, k: SortKey)
    ensures WithKey(key, s + [x], k) == WithKey(key, s, k) + if key(x) == k then [x] else []
  {
    if |s| == 0 {
      assert [x][1..] == [];
    } else {
      var head := if key(s[0]) == k then [s[0]] else [];
      var tail := if key(x) == k then [x] else [];
      assert (s + [x])[0] == s[0];
      assert (s + [x])[1..] == s[1..] + [x];
      WithKeySnoc(key, s[1..], x, k);
      assert WithKey(key, s + [x], k) == head + (WithKey(key, s[1..], k) + tail);
      Reassociate(head, WithKey(key, s[1..], k), tail);
    }
  }

  lemma {:induction false} WithKeyNone(key: string -> SortKey, s: seq<string>, k: SortKey)
    requires forall i :: 0 <= i < |s| ==> key(s[i]) != k
    ensures WithKey(key, s, k) == []
  {
    if |s| > 0 {
      WithKeyNone(key, s[1..], k);
    }
  }

  /** Inserting in front of a sorted sequence: x's key occurs nowhere in it. */
  lemma InsertStableFront(key: string -> SortKey, x: string, s: seq<string>, k: SortKey)
    requires |s| > 0 && SortedBy(key, s) && Before(key(x), key(s[0]))
    ensures WithKey(key, [x] + s, k) == WithKey(key, s, k) + if key(x) == k then [x] else []
  {
    assert ([x] + s)[1..] == s;
    if key(x) == k {
      forall i | 0 <= i < |s| ensures key(s[i]) != k {
        BelowAll(key, x, s, i);
        BeforeIrreflexive(k);
      }
      WithKeyNone(key, s, k);
    }
  }

  lemma {:induction false} InsertStable(key: string -> SortKey, x: string, s: seq<string>, k: SortKey)
    requires SortedBy(key, s)
    ensures WithKey(key, InsertBy(key, x, s), k) == WithKey(key, s, k) + if key(x) == k then [x] else []
  {
    if |s| == 0 {
      assert WithKey(key, [x], k) == (if key(x) == k then [x] else []) + WithKey(key, [], k);
    } else if Before(key(x), key(s[0])) {
      assert InsertBy(key, x, s) == [x] + s;
      InsertStableFront(key, x, s, k);
    } else {
      SortedTail(key, s);
      InsertStable(key, x, s[1..], k);
      InsertBehind(key, x, s, k);
    }
  }

  /** Inserting behind the first element keeps that element in front. */
  lemma InsertBehind(key: string -> SortKey, x: string, s: seq<string>, k: SortKey)
    requires |s| > 0 && !Before(key(x), key(s[0]))
    requires WithKey(key, InsertBy(key, x, s[1..]), k) == WithKey(key, s[1..], k) + if key(x) == k then [x] else []
    ensures WithKey(key, InsertBy(key, x, s), k) == WithKey(key, s, k) + if key(x) == k then [x] else []
  {
    var t := InsertBy(key, x, s[1..]);
    InsertUnfold(key, x, s);
    WithKeyCons(key, s[0], t, k);
    WithKeyHead(key, s, k);
    var head := if key(s[0]) == k then [s[0]] else [];
    var tail := if key(x) == k then [x] else [];
    Reassociate(head, WithKey(key, s[1..], k), tail);
  }

  lemma WithKeyHead(key: string -> SortKey, s: seq<string>, k: SortKey)
    requires |s| > 0
    ensures WithKey(key, s, k) == (if key(s[0]) == k then [s[0]] else []) + WithKey(key, s[1..], k)
  {
  }

  lemma Reassociate(a: seq<string>, b: seq<string>, c: seq<string>)
    ensures a + (b + c) == (a + b) + c
  {
  }

  lemma InsertUnfold(key: string -> SortKey, x: string, s: seq<string>)
    requires |s| > 0 && !Before(key(x), key(s[0]))
    ensures InsertBy(key, x, s) == [s[0]] + InsertBy(key, x, s[1..])
  {
  }

  lemma WithKeyCons(key: string -> SortKey, a: string, t: seq<string>, k: SortKey)
    ensures WithKey(key, [a] + t, k) == (if key(a) == k then [a] else []) + WithKey(key, t, k)
  {
    assert ([a] + t)[1..] == t;
  }

  /** Inserting the last element into the sorted prefix keeps the same-key order of the
      prefix followed by that element. */
  lemma InsertAfterPrefix(key: string -> SortKey, sorted: seq<string>, s: seq<string>, k: SortKey)
    requires |s| > 0 && SortedBy(key, sorted)
    requires WithKey(key, sorted, k) == WithKey(key, s[..|s| - 1], k)
    ensures WithKey(key, InsertBy(key, s[|s| - 1], sorted), k) == WithKey(key, s, k)
  {
    InsertStable(key, s[|s| - 1], sorted, k);
    WithKeyLast(key, s, k);
  }

  lemma WithKeyLast(key: string -> SortKey, s: seq<string>, k: SortKey)
    requires |s| > 0
    ensures WithKey(key, s, k) == WithKey(key, s[..|s| - 1], k) + if key(s[|s| - 1]) == k then [s[|s| - 1]] else []
  {
    WithKeySnoc(key, s[..|s| - 1], s[|s| - 1], k);
    assert s == s[..|s| - 1] + [s[|s| - 1]];
  }

  lemma SortUnfold(key: string -> SortKey, s: seq<string>)
    requires |s| > 0
    ensures SortBy(key, s) == InsertBy(key, s[|s| - 1], SortBy(key, s[..|s| - 1]))
  {
  }

  /** sorted() is stable: elements with the same key keep their order. */
  lemma {:induction false} SortStable(key: string -> SortKey, s: seq<string>, k: SortKey)
    ensures WithKey(key, SortBy(key, s), k) == WithKey(key, s, k)
  {
    if |s| > 0 {
      SortStable(key, s[..|s| - 1], k);
      SortSorted(key, s[..|s| - 1]);
      InsertAfterPrefix(key, SortBy(key, s[..|s| - 1]), s, k);
      SortUnfold(key, s);
    }
  }

  /** `sorted(mappings.keys(), key=sort_key)` */
  function SortByKey(keys: seq<string>): seq<string>
  {
    SortBy(KeyOf, keys)
  }

  lemma SortedKeyFrom(keys: seq<string>, i: int)
    requires 0 <= i < |SortByKey(keys)|
    ensures SortByKey(keys)[i] in keys
  {
    SortByKeyMembers(keys);
  }

  lemma SortByKeyMembers(keys: seq<string>)
    ensures forall x :: x in SortByKey(keys) <==> x in keys
  {
    var r := SortByKey(keys);
    assert multiset(r) == multiset(keys);
    forall x ensures x in r <==> x in keys {
      assert x in r <==> x in multiset(r);
      assert x in keys <==> x in multiset(keys);
    }
  }

  /** In the emitted order, every key with an all-digit base name comes before every other
      key; all-digit bases rise by value, the others by string order. */
  lemma NumericFirst(s: seq<string>, i: int, j: int)
    requires 0 <= i < j < |SortByKey(s)|
    ensures var r := SortByKey(s);
      var a, b := BaseName(r[i]), BaseName(r[j]);
      && (IsDigits(b) ==> IsDigits(a) && DigitsValue(a) <= DigitsValue(b))
      && (!IsDigits(a) && !IsDigits(b) ==> LessEq(a, b))
  {
    var r := SortByKey(s);
    SortSorted(KeyOf, s);
    assert !Before(KeyOf(r[j]), KeyOf(r[i]));
    var a, b := BaseName(r[i]), BaseName(r[j]);
    if !IsDigits(a) && !IsDigits(b) {
      LessTotal(a, b);
    }
  }

  // ---------------------------------------------------------------- config.json

  /** A list of names as a JSON array of strings. */
  function StrArray(names: seq<string>): (j: Json)
    ensures j.Array? && |j.items| == |names|
    ensures forall i :: 0 <= i < |names| ==> j.items[i] == Str(names[i])
  {
    Array(seq(|names|, i requires 0 <= i < |names| => Str(names[i])))
  }

  const Notes: seq<string> := [
    "Keys match by basename (without extension): '1.png' matches '1.jpeg', '1.jpg', etc.",
    "Values are arrays of mockup filenames (must exist in 'mockup' folder)",
    "Each key-value pair creates N output files (N = array length)",
    "Output files are named: inputBasename_mockupBasename.jpg"
  ]

  /** The metadata entries that open config.json; `date` is the formatted datetime.now(). */
  function MetadataEntries(m: Mappings, date: string): seq<(string, Json)>
  {
    [ ("_comment", Str("=== MOCKUP CONFIGURATION FILE ===")),
      ("_description", Str("This file defines which input files should be applied to which mockup files")),
      ("_format", Object(map[
        "key" := Str("Input filename (can use any extension, e.g., '1.png' will match '1.jpeg')"),
        "value" := Str("Array of mockup filenames from the 'mockup' folder")])),
      ("_example", Object(map[
        "input-file.png" := StrArray(["mockup1.psd", "mockup2.psd"]),
        "another-input.jpg" := StrArray(["mockup3.psd"])])),
      ("_notes", StrArray(Notes)),
      ("_lastModified", Str(date)),
      ("_generatedFrom", Str("extracted_images.txt")),
      ("_totalInputFiles", Number(TotalInputFiles(m))),
      ("_totalCombinations", Number(TotalCombinations(m))) ]
  }

  /** The JSON array written for one key: its mockups in sorted order. */
  function SortedMockups(m: Mappings, key: string): Json
  {
    StrArray(Sort(if key in m.lists then m.lists[key] else []))
  }

  /** One mapping entry: the key with its mockups in sorted order. */
  function MappingEntry(m: Mappings, key: string): (string, Json)
  {
    (key, SortedMockups(m, key))
  }

  /** The entries written for the given keys, in their order. */
  function EntriesFor(m: Mappings, keys: seq<string>): (r: seq<(string, Json)>)
    ensures |r| == |keys|
    ensures forall i :: 0 <= i < |keys| ==> r[i] == MappingEntry(m, keys[i])
  {
    seq(|keys|, i requires 0 <= i < |keys| => MappingEntry(m, keys[i]))
  }

  /** The mapping entries, in the order of the sorted keys. */
  function MappingEntries(m: Mappings): seq<(string, Json)>
  {
    EntriesFor(m, SortByKey(m.order))
  }

  /** The entries of config.json in the order they are written. */
  function ConfigEntries(m: Mappings, date: string): seq<(string, Json)>
  {
    MetadataEntries(m, date) + MappingEntries(m)
  }

  /** Every metadata entry's name starts with '_'. */
  lemma MetadataMarked(m: Mappings, date: string)
    ensures forall i :: 0 <= i < |MetadataEntries(m, date)| ==> IsMetadata(MetadataEntries(m, date)[i].0)
  {
  }

  /** create_config_json, up to the json.dump: the metadata, then the mapping entries. */
  method CreateConfigJson(m: Mappings, date: string) returns (configData: seq<(string, Json)>)
    requires WellFormed(m)
    ensures configData == ConfigEntries(m, date)
  {
    configData := MetadataEntries(m, date);
    var keys := SortByKey(m.order);
    forall i | 0 <= i < |keys| ensures keys[i] in m.lists {
      SortedKeyListed(m, i);
    }
    configData := AddMappings(m, keys, configData);
  }

  /** The loop of create_config_json over the sorted keys, each written with its sorted list. */
  method AddMappings(m: Mappings, keys: seq<string>, metadata: seq<(string, Json)>) returns (configData: seq<(string, Json)>)
    requires forall i :: 0 <= i < |keys| ==> keys[i] in m.lists
    ensures configData == metadata + EntriesFor(m, keys)
  {
    configData := metadata;
    ghost var entries := EntriesFor(m, keys);
    for i := 0 to |keys|
      invariant configData == metadata + entries[..i]
    {
      var entry := WriteEntry(m, keys[i]);
      EntriesStep(m, keys, i);
      configData := configData + [entry];
    }
    EntriesDone(m, keys);
  }

  lemma EntriesStep(m: Mappings, keys: seq<string>, i: int)
    requires 0 <= i < |keys|
    ensures EntriesFor(m, keys)[..i + 1] == EntriesFor(m, keys)[..i] + [MappingEntry(m, keys[i])]
  {
    var entries := EntriesFor(m, keys);
    assert entries[..i + 1] == entries[..i] + [entries[i]];
  }

  lemma EntriesDone(m: Mappings, keys: seq<string>)
    ensures EntriesFor(m, keys)[..|keys|] == EntriesFor(m, keys)
  {
  }

  /** One turn of that loop: the key with its mockups sorted. */
  method WriteEntry(m: Mappings, inputKey: string) returns (entry: (string, Json))
    requires inputKey in m.lists
    ensures entry == MappingEntry(m, inputKey)
  {
    var mockups := Sort(m.lists[inputKey]);
    entry := (inputKey, StrArray(mockups));
  }

  /** json.load of the written entries: an object in which a later entry wins. */
  function ToObject(entries: seq<(string, Json)>): map<string, Json>
  {
    if |entries| == 0 then map[]
    else ToObject(entries[..|entries| - 1])[entries[|entries| - 1].0 := entries[|entries| - 1].1]
  }

  /** A key is in the loaded object exactly when some entry names it; when every entry
      naming it carries the same value, that is the value loaded. */
  lemma {:induction false} ToObjectLookup(entries: seq<(string, Json)>, k: string, v: Json)
    ensures k in ToObject(entries) <==> exists i :: 0 <= i < |entries| && entries[i].0 == k
    ensures k in ToObject(entries) && (forall i :: 0 <= i < |entries| && entries[i].0 == k ==> entries[i].1 == v)
      ==> ToObject(entries)[k] == v
  {
    if |entries| > 0 {
      var front := entries[..|entries| - 1];
      ToObjectLookup(front, k, v);
      if k in ToObject(front) {
        var i :| 0 <= i < |front| && front[i].0 == k;
        assert entries[i].0 == k;
      }
      forall i | 0 <= i < |entries| && entries[i].0 == k && entries[|entries| - 1].0 != k
        ensures k in ToObject(front)
      {
        assert front[i] == entries[i];
      }
      if forall i :: 0 <= i < |entries| && entries[i].0 == k ==> entries[i].1 == v {
        forall i | 0 <= i < |front| && front[i].0 == k ensures front[i].1 == v {
          assert front[i] == entries[i];
        }
      }
    }
  }

  /** Every parsed key comes from some counted line. */
  lemma {:induction false} AllKeysFrom(lines: seq<string>, k: string)
    requires k in AllKeys(lines)
    ensures exists i :: 0 <= i < |lines| && ParsedPair(lines[i]).Some? && ParsedPair(lines[i]).value.0 == k
  {
    var front := lines[..|lines| - 1];
    if k in AllKeys(front) {
      AllKeysFrom(front, k);
      var i :| 0 <= i < |front| && ParsedPair(front[i]).Some? && ParsedPair(front[i]).value.0 == k;
      assert lines[i] == front[i];
    } else {
      assert ParsedPair(lines[|lines| - 1]).Some?;
    }
  }

  /** No parsed key is a metadata key. */
  lemma ParsedKeysPlain(lines: seq<string>)
    ensures forall k :: k in ParseLines(lines).lists ==> !IsMetadata(k)
  {
    ParseIsDedup(lines);
    forall k | k in ParseLines(lines).lists ensures !IsMetadata(k) {
      AllKeysFrom(lines, k);
      var i :| 0 <= i < |lines| && ParsedPair(lines[i]).Some? && ParsedPair(lines[i]).value.0 == k;
      KeyNotMetadata(lines[i]);
    }
  }

  /** A key that is not metadata is in the loaded config exactly when it is a key of the
      mapping ... */
  lemma PlainLookup(meta: seq<(string, Json)>, m: Mappings, k: string)
    requires WellFormed(m) && !IsMetadata(k)
    requires forall i :: 0 <= i < |meta| ==> IsMetadata(meta[i].0)
    ensures k in ToObject(meta + MappingEntries(m)) <==> k in m.lists
  {
    var entries := meta + MappingEntries(m);
    ToObjectLookup(entries, k, Null);
    if k in m.lists {
      EntryOfKey(meta, m, k);
    }
    if k in ToObject(entries) {
      KeyOfEntry(meta, m, k);
    }
  }

  lemma EntryOfKey(meta: seq<(string, Json)>, m: Mappings, k: string)
    requires WellFormed(m) && k in m.lists
    ensures exists i :: 0 <= i < |meta + MappingEntries(m)| && (meta + MappingEntries(m))[i].0 == k
  {
    var keys := SortByKey(m.order);
    SortByKeyMembers(m.order);
    var j :| 0 <= j < |keys| && keys[j] == k;
    assert MappingEntries(m)[j].0 == k;
    assert (meta + MappingEntries(m))[|meta| + j].0 == k;
  }

  lemma KeyOfEntry(meta: seq<(string, Json)>, m: Mappings, k: string)
    requires WellFormed(m) && !IsMetadata(k)
    requires forall i :: 0 <= i < |meta| ==> IsMetadata(meta[i].0)
    requires exists i :: 0 <= i < |meta + MappingEntries(m)| && (meta + MappingEntries(m))[i].0 == k
    ensures k in m.lists
  {
    var j := PlainIndex(meta, MappingEntries(m), k);
    MappingKeyAt(m, j, k);
  }

  /** An entry naming a plain key lies past the metadata. */
  lemma PlainIndex(meta: seq<(string, Json)>, rest: seq<(string, Json)>, k: string) returns (j: int)
    requires !IsMetadata(k) && forall i :: 0 <= i < |meta| ==> IsMetadata(meta[i].0)
    requires exists i :: 0 <= i < |meta + rest| && (meta + rest)[i].0 == k
    ensures 0 <= j < |rest| && rest[j].0 == k
  {
    var i :| 0 <= i < |meta + rest| && (meta + rest)[i].0 == k;
    j := i - |meta|;
  }

  /** Every mapping entry is named by a key of the mapping. */
  lemma MappingKeyAt(m: Mappings, j: int, k: string)
    requires WellFormed(m) && 0 <= j < |MappingEntries(m)| && MappingEntries(m)[j].0 == k
    ensures k in m.lists
  {
    MappingEntryAt(m, j);
    SortedKeyListed(m, j);
  }

  /** The sorted keys are keys of the mapping. */
  lemma SortedKeyListed(m: Mappings, i: int)
    requires WellFormed(m) && 0 <= i < |SortByKey(m.order)|
    ensures SortByKey(m.order)[i] in m.lists
  {
    SortedKeyFrom(m.order, i);
  }

  /** The i-th mapping entry is written for the i-th sorted key. */
  lemma MappingEntryAt(m: Mappings, i: int)
    requires 0 <= i < |SortByKey(m.order)|
    ensures |MappingEntries(m)| == |SortByKey(m.order)|
    ensures MappingEntries(m)[i] == MappingEntry(m, SortByKey(m.order)[i])
  {
  }


  /** ... and then it holds that key's sorted list. */
  lemma PlainValue(meta: seq<(string, Json)>, m: Mappings, k: string)
    requires !IsMetadata(k)
    requires forall i :: 0 <= i < |meta| ==> IsMetadata(meta[i].0)
    ensures var config := ToObject(meta + MappingEntries(m));
      k in config ==> config[k] == MappingEntry(m, k).1
  {
    var rest := MappingEntries(m);
    var entries := meta + rest;
    assert forall j :: 0 <= j < |rest| ==> rest[j] == MappingEntry(m, rest[j].0);
    assert forall i :: 0 <= i < |entries| && entries[i].0 == k ==> entries[i].1 == MappingEntry(m, k).1 by {
      forall i | 0 <= i < |entries| && entries[i].0 == k ensures entries[i].1 == MappingEntry(m, k).1 {
        assert i >= |meta|;
        assert entries[i] == rest[i - |meta|];
      }
    }
    ToObjectLookup(entries, k, MappingEntry(m, k).1);
  }

  /** The array written for a list names exactly the list's elements. */
  lemma ArrayNames(s: seq<string>, n: string)
    ensures var names := FilesExistence.IteratedNames(StrArray(s));
      names.Some? && (n in names.value <==> n in s)
  {
    var j := StrArray(s);
    assert forall i :: 0 <= i < |j.items| ==> j.items[i].Str?;
    if n in s {
      var i :| 0 <= i < |s| && s[i] == n;
      assert j.items[i].s == n;
    }
  }

  lemma SameMembers(xs: seq<string>, ys: seq<string>, n: string)
    requires multiset(xs) == multiset(ys)
    ensures n in xs <==> n in ys
  {
    assert n in xs <==> n in multiset(xs);
    assert n in ys <==> n in multiset(ys);
  }

  /** The array written for a list, once sorted, names exactly the list's elements. */
  lemma SortedNames(xs: seq<string>, n: string)
    ensures var names := FilesExistence.IteratedNames(StrArray(Sort(xs)));
      names.Some? && (n in names.value <==> n in xs)
  {
    var sorted := Sort(xs);
    ArrayNames(sorted, n);
    SameMembers(sorted, xs, n);
  }

  /** The names a mapping entry's array yields are the key's parsed values. */
  lemma EntryNames(lines: seq<string>, k: string, n: string)
    requires k in ParseLines(lines).lists
    ensures var names := FilesExistence.IteratedNames(SortedMockups(ParseLines(lines), k));
      names.Some? && (n in names.value <==> (k, n) in PairSet(lines))
  {
    var m := ParseLines(lines);
    SortedNames(m.lists[k], n);
    ParsedMembers(lines, k, n);
  }

  /** A mockup is in the loaded config's mockup set exactly when some line names it. */
  lemma MockupsMember(lines: seq<string>, meta: seq<(string, Json)>, n: string)
    requires forall i :: 0 <= i < |meta| ==> IsMetadata(meta[i].0)
    ensures var config := ToObject(meta + MappingEntries(ParseLines(lines)));
      FilesExistence.Loadable(config) ==>
        (n in FilesExistence.ConfigMockups(config) <==> exists p :: p in PairSet(lines) && p.1 == n)
  {
    var m := ParseLines(lines);
    ParsedWellFormed(lines);
    ParsedKeysPlain(lines);
    var config := ToObject(meta + MappingEntries(m));
    if FilesExistence.Loadable(config) {
      if n in FilesExistence.ConfigMockups(config) {
        var k :| k in config && !IsMetadata(k) && n in FilesExistence.IteratedNames(config[k]).value;
        PlainLookup(meta, m, k);
        PlainValue(meta, m, k);
        EntryNames(lines, k, n);
        assert (k, n) in PairSet(lines);
      }
      if p :| p in PairSet(lines) && p.1 == n {
        var k := p.0;
        ParsedMembers(lines, k, n);
        PlainLookup(meta, m, k);
        PlainValue(meta, m, k);
        EntryNames(lines, k, n);
      }
    }
  }

  /** The generated config, as check_files_existence.py reads it: it loads, its input files
      are the parsed keys, and its mockup files are the values named in the lines. */
  lemma GeneratedConfigAudit(lines: seq<string>, date: string)
    ensures var m := ParseLines(lines);
      var config := ToObject(ConfigEntries(m, date));
      && FilesExistence.Loadable(config)
      && FilesExistence.ConfigInputs(config) == m.lists.Keys
      && FilesExistence.ConfigMockups(config) == set p | p in PairSet(lines) :: p.1
  {
    var m := ParseLines(lines);
    var meta := MetadataEntries(m, date);
    MetadataMarked(m, date);
    AuditOf(lines, meta);
  }

  lemma AuditOf(lines: seq<string>, meta: seq<(string, Json)>)
    requires forall i :: 0 <= i < |meta| ==> IsMetadata(meta[i].0)
    ensures var m := ParseLines(lines);
      var config := ToObject(meta + MappingEntries(m));
      && FilesExistence.Loadable(config)
      && FilesExistence.ConfigInputs(config) == m.lists.Keys
      && FilesExistence.ConfigMockups(config) == set p | p in PairSet(lines) :: p.1
  {
    AuditInputs(lines, meta);
    var config := ToObject(meta + MappingEntries(ParseLines(lines)));
    forall n ensures n in FilesExistence.ConfigMockups(config) <==> n in set p | p in PairSet(lines) :: p.1 {
      MockupsMember(lines, meta, n);
      if n in set p | p in PairSet(lines) :: p.1 {
        var p :| p in PairSet(lines) && p.1 == n;
      }
    }
  }

  lemma AuditInputs(lines: seq<string>, meta: seq<(string, Json)>)
    requires forall i :: 0 <= i < |meta| ==> IsMetadata(meta[i].0)
    ensures var m := ParseLines(lines);
      var config := ToObject(meta + MappingEntries(m));
      && FilesExistence.Loadable(config)
      && FilesExistence.ConfigInputs(config) == m.lists.Keys
  {
    var m := ParseLines(lines);
    ParsedWellFormed(lines);
    ParsedKeysPlain(lines);
    var config := ToObject(meta + MappingEntries(m));
    forall k | k in config && !IsMetadata(k) ensures FilesExistence.IteratedNames(config[k]).Some? {
      PlainLookup(meta, m, k);
      PlainValue(meta, m, k);
      EntryNames(lines, k, "");
    }
    forall k ensures k in FilesExistence.ConfigInputs(config) <==> k in m.lists {
      if !IsMetadata(k) {
        PlainLookup(meta, m, k);
      }
    }
  }

  // ---------------------------------------------------------------- the two scripts together

  /** The lines of a text made of names, each followed by '\n', are those names' lines. */
  lemma {:induction false} LinesOfLined(names: seq<string>)
    requires forall i :: 0 <= i < |names| ==> '\n' !in names[i]
    ensures Lines(Concat(ExtractImages.Lined(names))) == ExtractImages.Lined(names)
  {
    var lined := ExtractImages.Lined(names);
    if |names| > 0 {
      assert lined[1..] == ExtractImages.Lined(names[1..]);
      LinesOfLined(names[1..]);
      var rest := Concat(lined[1..]);
      assert Concat(lined) == names[0] + "\n" + rest;
      LinesCons(names[0], rest);
      assert lined == [names[0] + "\n"] + lined[1..];
    }
  }

  /** A label followed by digits holds no line break and strips to itself once its line
      break is added. */
  lemma LabelledLine(tag: string, digits: string)
    requires '\n' !in tag && |tag| > 0 && !IsSpace(tag[0]) && IsDigits(digits)
    ensures '\n' !in tag + digits
    ensures Strip(tag + digits + "\n") == tag + digits
  {
    var head := tag + digits;
    forall k | 0 <= k < |head| ensures head[k] != '\n' {
      if k >= |tag| {
        assert head[k] == digits[k - |tag|];
      }
    }
    assert head + "\n" == head + ['\n'];
    StripAppendSpace(head, '\n');
    assert head[|head| - 1] == digits[|digits| - 1];
    StripTrimmed(head);
  }

  /** A blank line first: the line break alone, then the rest. */
  lemma LinesBlank(body: string)
    ensures Lines("\n" + body) == ["\n"] + Lines(body)
  {
    assert [] + "\n" + body == "\n" + body;
    LinesCons([], body);
  }

  /** Two line breaks after a line: the line, then a blank line, then the rest. */
  lemma LinesTwoBreaks(head: string, body: string)
    requires '\n' !in head
    ensures Lines(head + "\n" + "\n" + body) == [head + "\n", "\n"] + Lines(body)
  {
    var rest := "\n" + body;
    assert head + "\n" + "\n" + body == head + "\n" + rest;
    LinesCons(head, rest);
    LinesBlank(body);
  }

  lemma StartsWithExtend(s: string, more: string, prefix: string)
    requires StartsWith(s, prefix)
    ensures StartsWith(s + more, prefix)
  {
    assert (s + more)[..|prefix|] == s[..|prefix|];
  }

  /** The file extract_images.py writes reads back as the count line, the blank line and one
      line per name. */
  lemma OutputLines(names: seq<string>)
    requires forall i :: 0 <= i < |names| ==> '\n' !in names[i]
    ensures Lines(ExtractImages.OutputText(names))
      == [ExtractImages.CountLine(|names|), "\n"] + ExtractImages.Lined(names)
  {
    var tag := ExtractImages.CountLabel;
    var head := tag + NatToString(|names|);
    LabelledLine(tag, NatToString(|names|));
    var body := Concat(ExtractImages.Lined(names));
    LinesTwoBreaks(head, body);
    LinesOfLined(names);
  }

  /** The parser skips the count line, whatever the count. */
  lemma CountLineSkipped(n: nat)
    ensures ParsedPair(ExtractImages.CountLine(n)) == None
  {
    var tag := ExtractImages.CountLabel;
    LabelledLine(tag, NatToString(n));
    assert tag == CountPrefix + " ";
    StartsWithExtend(CountPrefix, " ", CountPrefix);
    StartsWithExtend(tag, NatToString(n), CountPrefix);
  }

  /** The parser skips the blank line. */
  lemma BlankLineSkipped()
    ensures ParsedPair("\n") == None
  {
    var blank := "\n";
    assert IsSpace(blank[0]);
    BlankSkipped(blank);
  }

  /** A line of white space only is skipped. */
  lemma BlankSkipped(line: string)
    requires forall k :: 0 <= k < |line| ==> IsSpace(line[k])
    ensures ParsedPair(line) == None
  {
    StripBlank(line);
  }

  lemma {:induction false} ParseNothing(skipped: seq<string>)
    requires forall i :: 0 <= i < |skipped| ==> ParsedPair(skipped[i]) == None
    ensures ParseLines(skipped) == Mappings([], map[])
  {
    if |skipped| > 0 {
      ParseNothing(skipped[..|skipped| - 1]);
    }
  }

  /** Lines that count for nothing can be dropped from the front. */
  lemma {:induction false} ParseSkipped(skipped: seq<string>, rest: seq<string>)
    requires forall i :: 0 <= i < |skipped| ==> ParsedPair(skipped[i]) == None
    ensures ParseLines(skipped + rest) == ParseLines(rest)
  {
    if |rest| == 0 {
      assert skipped + rest == skipped;
      ParseNothing(skipped);
    } else {
      var front := rest[..|rest| - 1];
      ParseSkipped(skipped, front);
      assert (skipped + rest)[..|skipped + rest| - 1] == skipped + front;
    }
  }

  /** Reading back what extract_images.py wrote: the count line and the blank line after it
      add nothing, so the mapping is the one the name lines give. */
  lemma WrittenThenParsed(names: seq<string>)
    requires forall i :: 0 <= i < |names| ==> '\n' !in names[i]
    ensures ParseLines(Lines(ExtractImages.OutputText(names))) == ParseLines(ExtractImages.Lined(names))
  {
    OutputLines(names);
    CountLineSkipped(|names|);
    BlankLineSkipped();
    SkipTwo(ExtractImages.CountLine(|names|), "\n", ExtractImages.Lined(names));
  }

  lemma SkipTwo(a: string, b: string, rest: seq<string>)
    requires ParsedPair(a) == None && ParsedPair(b) == None
    ensures ParseLines([a, b] + rest) == ParseLines(rest)
  {
    var skipped := [a, b];
    forall i | 0 <= i < |skipped| ensures ParsedPair(skipped[i]) == None {
      if i == 1 {
        assert skipped[i] == b;
      }
    }
    ParseSkipped(skipped, rest);
  }

  /** Every parsed value is a .psd name. */
  lemma {:induction false} ValuesArePsd(lines: seq<string>, p: (string, string))
    requires p in PairSet(lines)
    ensures EndsWith(p.1, ".psd")
  {
    var front := lines[..|lines| - 1];
    if p in PairSet(front) {
      ValuesArePsd(front, p);
    } else {
      var l := Strip(lines[|lines| - 1]);
      var parts := SplitOnce(l, '_');
      assert p.1 == parts[1] + ".psd";
      assert (parts[1] + ".psd")[|parts[1]|..] == ".psd";
    }
  }

  /** The two audit scripts read the generated config differently: check_file_completeness.py
      takes the metadata key "_comment" for an input file and the first of the "_notes"
      sentences for a mockup file, and check_files_existence.py takes neither. */
  lemma AuditsDisagreeOnMetadata(lines: seq<string>, date: string)
    ensures var m := ParseLines(lines);
      var config := ToObject(ConfigEntries(m, date));
      && "_comment" in config.Keys
      && "_comment" !in FilesExistence.ConfigInputs(config)
      && FileCompleteness.ExpectedMockups(config).Some?
      && Notes[0] in FileCompleteness.ExpectedMockups(config).value
      && FilesExistence.Loadable(config)
      && Notes[0] !in FilesExistence.ConfigMockups(config)
  {
    var m := ParseLines(lines);
    var meta := MetadataEntries(m, date);
    MetadataMarked(m, date);
    AuditOf(lines, meta);
    MetadataOnce(m, date);
    MetadataListed(m, date);
    MetadataSeen(lines, meta, Notes);
    var config := ToObject(ConfigEntries(m, date));
    if Notes[0] in FilesExistence.ConfigMockups(config) {
      var p :| p in PairSet(lines) && p.1 == Notes[0];
      ValuesArePsd(lines, p);
    }
  }

  /** What check_file_completeness.py sees in the generated config's metadata. */
  lemma MetadataSeen(lines: seq<string>, meta: seq<(string, Json)>, notes: seq<string>)
    requires |meta| > 4 && |notes| > 0
    requires meta[0].0 == "_comment" && meta[4] == ("_notes", StrArray(notes))
    requires forall i :: 0 <= i < |meta| && meta[i].0 == "_comment" ==> i == 0
    requires forall i :: 0 <= i < |meta| && meta[i].0 == "_notes" ==> i == 4
    requires forall i :: 0 <= i < |meta| ==> FileCompleteness.ListNames(meta[i].1).Some?
    ensures var config := ToObject(meta + MappingEntries(ParseLines(lines)));
      && "_comment" in config
      && FileCompleteness.ExpectedMockups(config).Some?
      && notes[0] in FileCompleteness.ExpectedMockups(config).value
  {
    var m := ParseLines(lines);
    var config := ToObject(meta + MappingEntries(m));
    MetadataValue(lines, meta, "_comment", meta[0].1, 0);
    MetadataValue(lines, meta, "_notes", StrArray(notes), 4);
    var rest := MappingEntries(m);
    var entries := meta + rest;
    MappingsListed(m);
    forall i | 0 <= i < |entries| ensures FileCompleteness.ListNames(entries[i].1).Some? {
      if i < |meta| {
        assert entries[i] == meta[i];
      } else {
        assert entries[i] == rest[i - |meta|];
      }
    }
    forall k | k in config ensures FileCompleteness.ListNames(config[k]).Some? {
      EntriesListed(entries, k);
    }
    assert StrArray(notes).items[0] == Str(notes[0]);
    ExpectedHas(config, "_notes", notes[0]);
  }

  /** A name listed under any key is an expected mockup. */
  lemma ExpectedHas(config: map<string, Json>, k: string, n: string)
    requires forall k :: k in config ==> FileCompleteness.ListNames(config[k]).Some?
    requires k in config && n in FileCompleteness.ListNames(config[k]).value
    ensures FileCompleteness.ExpectedMockups(config).Some?
    ensures n in FileCompleteness.ExpectedMockups(config).value
  {
  }

  /** "_comment" and "_notes" each name one metadata entry. */
  lemma MetadataOnce(m: Mappings, date: string)
    ensures var meta := MetadataEntries(m, date);
      && meta[0].0 == "_comment" && meta[4] == ("_notes", StrArray(Notes))
      && (forall i :: 0 <= i < |meta| && meta[i].0 == "_comment" ==> i == 0)
      && (forall i :: 0 <= i < |meta| && meta[i].0 == "_notes" ==> i == 4)
  {
  }

  /** A metadata key the metadata entries give one value is loaded with that value, whatever
      the mapping entries after them. */
  lemma MetadataValue(lines: seq<string>, meta: seq<(string, Json)>, k: string, v: Json, j: int)
    requires IsMetadata(k) && 0 <= j < |meta| && meta[j] == (k, v)
    requires forall i :: 0 <= i < |meta| && meta[i].0 == k ==> i == j
    ensures k in ToObject(meta + MappingEntries(ParseLines(lines)))
    ensures ToObject(meta + MappingEntries(ParseLines(lines)))[k] == v
  {
    var m := ParseLines(lines);
    var entries := meta + MappingEntries(m);
    ParsedKeysPlain(lines);
    ParsedWellFormed(lines);
    forall i | 0 <= i < |entries| && entries[i].0 == k ensures entries[i].1 == v {
      if i >= |meta| {
        var keys := SortByKey(m.order);
        assert entries[i].0 == keys[i - |meta|];
        SortedKeyFrom(m.order, i - |meta|);
      }
    }
    assert entries[j].0 == k;
    ToObjectLookup(entries, k, v);
  }

  /** Every metadata value is either not a list or a list of strings. */
  lemma MetadataListed(m: Mappings, date: string)
    ensures forall i :: 0 <= i < |MetadataEntries(m, date)| ==>
      FileCompleteness.ListNames(MetadataEntries(m, date)[i].1).Some?
  {
    var meta := MetadataEntries(m, date);
    forall i | 0 <= i < |meta| ensures FileCompleteness.ListNames(meta[i].1).Some? {
      if i == 4 {
        StrArrayListed(Notes);
      } else {
        assert !meta[i].1.Array?;
      }
    }
  }

  /** A JSON array of strings lists its names. */
  lemma StrArrayListed(names: seq<string>)
    ensures FileCompleteness.ListNames(StrArray(names)).Some?
  {
    var j := StrArray(names);
    assert forall i :: 0 <= i < |j.items| ==> j.items[i].Str?;
  }


  /** Every mapping value is a list of strings. */
  lemma MappingsListed(m: Mappings)
    ensures forall i :: 0 <= i < |MappingEntries(m)| ==>
      FileCompleteness.ListNames(MappingEntries(m)[i].1).Some?
  {
    var keys := SortByKey(m.order);
    forall i | 0 <= i < |MappingEntries(m)| ensures FileCompleteness.ListNames(MappingEntries(m)[i].1).Some? {
      var j := SortedMockups(m, keys[i]);
      assert MappingEntries(m)[i].1 == j;
      assert forall n :: 0 <= n < |j.items| ==> j.items[n].Str?;
    }
  }

  /** When every entry's value is listable, so is every loaded value. */
  lemma EntriesListed(entries: seq<(string, Json)>, k: string)
    requires forall i :: 0 <= i < |entries| ==> FileCompleteness.ListNames(entries[i].1).Some?
    requires k in ToObject(entries)
    ensures FileCompleteness.ListNames(ToObject(entries)[k]).Some?
  {
    ToObjectValue(entries, k);
  }

  /** The loaded value of a key is the value of some entry that names it. */
  lemma {:induction false} ToObjectValue(entries: seq<(string, Json)>, k: string)
    requires k in ToObject(entries)
    ensures exists i :: 0 <= i < |entries| && entries[i].0 == k && ToObject(entries)[k] == entries[i].1
  {
    var last := |entries| - 1;
    if entries[last].0 != k {
      var front := entries[..last];
      ToObjectValue(front, k);
      var i :| 0 <= i < |front| && front[i].0 == k && ToObject(front)[k] == front[i].1;
      assert entries[i] == front[i];
    }
  }
}
