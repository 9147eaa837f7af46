/** The Python string operations the scripts rely on, written out over seq<char>. */
module Text {

  /** str.isspace() for one character: the ASCII separators and the Unicode white space. */
  predicate IsSpace(c: char)
  {
    || c == ' '
    || '\t' <= c <= '\r'
    || '\U{1C}' <= c <= '\U{1F}'
    || c == '\U{85}' || c == '\U{A0}' || c == '\U{1680}'
    || '\U{2000}' <= c <= '\U{200A}'
    || c == '\U{2028}' || c == '\U{2029}' || c == '\U{202F}' || c == '\U{205F}' || c == '\U{3000}'
  }

  /** s.startswith(prefix) */
  predicate StartsWith(s: string, prefix: string)
  {
    |prefix| <= |s| && s[..|prefix|] == prefix
  }

  /** s.endswith(suffix) */
  predicate EndsWith(s: string, suffix: string)
  {
    |suffix| <= |s| && s[|s| - |suffix|..] == suffix
  }

  /** p occurs in s starting at index i. */
  predicate OccursAt(s: string, p: string, i: int)
  {
    0 <= i && i + |p| <= |s| && s[i..i + |p|] == p
  }

  /** `p in s` */
  predicate Contains(s: string, p: string)
  {
    exists i | 0 <= i <= |s| - |p| :: OccursAt(s, p, i)
  }

  // ---------------------------------------------------------------- strip

  /** s.lstrip() */
  function StripStart(s: string): (r: string)
    ensures |r| <= |s| && r == s[|s| - |r|..]
    ensures forall k :: 0 <= k < |s| - |r| ==> IsSpace(s[k])
    ensures r == [] || !IsSpace(r[0])
  {
    if |s| > 0 && IsSpace(s[0]) then StripStart(s[1..]) else s
  }

  /** s.rstrip() */
  function StripEnd(s: string): (r: string)
    ensures |r| <= |s| && r == s[..|r|]
    ensures forall k :: |r| <= k < |s| ==> IsSpace(s[k])
    ensures r == [] || !IsSpace(r[|r| - 1])
  {
    if |s| > 0 && IsSpace(s[|s| - 1]) then StripEnd(s[..|s| - 1]) else s
  }

  /** s.strip(): the text between the leading and the trailing white space. */
  function Strip(s: string): (r: string)
    ensures exists i :: (OccursAt(s, r, i)
                         && (forall k :: 0 <= k < i ==> IsSpace(s[k]))
                         && (forall k :: i + |r| <= k < |s| ==> IsSpace(s[k])))
    ensures r == [] || (!IsSpace(r[0]) && !IsSpace(r[|r| - 1]))
  {
    var t := StripStart(s);
    var r := StripEnd(t);
    StripParts(s, t, r);
    r
  }

  /** The text left by lstrip then rstrip sits between two runs of white space. */
  lemma StripParts(s: string, t: string, r: string)
    requires |t| <= |s| && t == s[|s| - |t|..] && forall k :: 0 <= k < |s| - |t| ==> IsSpace(s[k])
    requires |r| <= |t| && r == t[..|r|] && forall k :: |r| <= k < |t| ==> IsSpace(t[k])
    ensures OccursAt(s, r, |s| - |t|)
    ensures forall k :: |s| - |t| + |r| <= k < |s| ==> IsSpace(s[k])
  {
    var i := |s| - |t|;
    forall k | i + |r| <= k < |s| ensures IsSpace(s[k]) {
      assert s[k] == t[k - i];
    }
    assert s[i..i + |r|] == r;
  }

  lemma StripBlank(s: string)
    ensures Strip(s) == [] <==> forall k :: 0 <= k < |s| ==> IsSpace(s[k])
  {
    var t := StripStart(s);
    if forall k :: 0 <= k < |s| ==> IsSpace(s[k]) {
    } else {
      var k :| 0 <= k < |s| && !IsSpace(s[k]);
      assert k >= |s| - |t|;
      assert t[k - (|s| - |t|)] == s[k];
      assert StripEnd(t) != [];
    }
  }

  /** Text with no white space at either end is its own strip. */
  lemma StripTrimmed(s: string)
    requires s == [] || (!IsSpace(s[0]) && !IsSpace(s[|s| - 1]))
    ensures Strip(s) == s
  {
  }

  lemma {:induction false} StripStartAppendSpace(s: string, c: char)
    requires IsSpace(c)
    ensures StripStart(s + [c]) == if StripStart(s) == [] then [] else StripStart(s) + [c]
    decreases |s|
  {
    if |s| > 0 && IsSpace(s[0]) {
      assert (s + [c])[1..] == s[1..] + [c];
      StripStartAppendSpace(s[1..], c);
    } else if |s| == 0 {
      assert s + [c] == [c];
      assert [c][1..] == [];
    }
  }

  /** A trailing white-space character (such as the '\n' a file line keeps) does not survive strip. */
  lemma StripAppendSpace(s: string, c: char)
    requires IsSpace(c)
    ensures Strip(s + [c]) == Strip(s)
  {
    StripStartAppendSpace(s, c);
    var t := StripStart(s);
    if t != [] {
      assert (t + [c])[..|t + [c]| - 1] == t;
    }
  }

  // ---------------------------------------------------------------- find and split

  /** s.find(c) */
  function IndexOf(s: string, c: char): (i: int)
    ensures -1 <= i < |s|
    ensures i == -1 <==> c !in s
    ensures 0 <= i ==> s[i] == c && forall k :: 0 <= k < i ==> s[k] != c
  {
    if |s| == 0 then -1
    else if s[0] == c then 0
    else
      var j := IndexOf(s[1..], c);
      if j == -1 then -1 else j + 1
  }

  /** s.split(c, 1): the text before the first c and everything after it, or [s]. */
  function SplitOnce(s: string, c: char): (parts: seq<string>)
    ensures |parts| == 2 <==> c in s
    ensures |parts| == 1 ==> parts[0] == s
    ensures |parts| == 1 || |parts| == 2
    ensures |parts| == 2 ==> parts[0] + [c] + parts[1] == s && c !in parts[0]
  {
    var i := IndexOf(s, c);
    if i < 0 then [s]
    else
      assert s[..i] + [c] + s[i + 1..] == s;
      [s[..i], s[i + 1..]]
  }

  /** s.split(sep) for a non-empty separator: the pieces between the non-overlapping
      occurrences of sep, found from left to right. */
  function Split(s: string, sep: string): (parts: seq<string>)
    requires |sep| > 0
    ensures |parts| >= 1
    decreases |s|
  {
    if |s| < |sep| then [s]
    else if StartsWith(s, sep) then [""] + Split(s[|sep|..], sep)
    else
      var rest := Split(s[1..], sep);
      [[s[0]] + rest[0]] + rest[1..]
  }

  /** sep.join(parts) */
  function Join(parts: seq<string>, sep: string): string
  {
    if |parts| == 0 then ""
    else if |parts| == 1 then parts[0]
    else parts[0] + sep + Join(parts[1..], sep)
  }

  lemma JoinHead(parts: seq<string>, sep: string)
    requires |parts| >= 1
    ensures Join(parts, sep) == parts[0] + (if |parts| == 1 then "" else sep + Join(parts[1..], sep))
  {
  }

  /** Splitting loses nothing: joining the pieces with the separator gives the text back. */
  lemma {:induction false} JoinSplit(s: string, sep: string)
    requires |sep| > 0
    ensures Join(Split(s, sep), sep) == s
    decreases |s|
  {
    if |s| < |sep| {
    } else if StartsWith(s, sep) {
      var rest := Split(s[|sep|..], sep);
      JoinSplit(s[|sep|..], sep);
      assert Split(s, sep) == [""] + rest;
      JoinHead([""] + rest, sep);
      assert ([""] + rest)[1..] == rest;
      assert s == sep + s[|sep|..];
    } else {
      var rest := Split(s[1..], sep);
      JoinSplit(s[1..], sep);
      var parts := [[s[0]] + rest[0]] + rest[1..];
      assert Split(s, sep) == parts;
      JoinCons(s[0], rest, sep);
      assert s == [s[0]] + s[1..];
    }
  }

  /** Putting a character in front of the first piece puts it in front of the joined text. */
  lemma JoinCons(c: char, rest: seq<string>, sep: string)
    requires |rest| >= 1
    ensures Join([[c] + rest[0]] + rest[1..], sep) == [c] + Join(rest, sep)
  {
    var parts := [[c] + rest[0]] + rest[1..];
    JoinHead(rest, sep);
    JoinHead(parts, sep);
    assert parts[1..] == rest[1..];
  }

  /** There is one more piece than there are separators counted by str.count. */
  lemma {:induction false} SplitCount(s: string, sep: string)
    requires |sep| > 0
    ensures |Split(s, sep)| == Count(s, sep) + 1
    decreases |s|
  {
    if |s| < |sep| {
    } else if StartsWith(s, sep) {
      SplitCount(s[|sep|..], sep);
    } else {
      SplitCount(s[1..], sep);
    }
  }

  lemma OccursShift(s: string, p: string, i: int)
    requires |s| > 0 && i >= 0
    ensures OccursAt(s[1..], p, i) <==> OccursAt(s, p, i + 1)
  {
    if 0 <= i && i + 1 + |p| <= |s| {
      assert s[1..][i..i + |p|] == s[i + 1..i + 1 + |p|];
    }
  }

  lemma OccursInPrefix(s: string, t: string, p: string, i: int)
    requires OccursAt(s, p, i)
    ensures OccursAt(s + t, p, i)
  {
    assert (s + t)[i..i + |p|] == s[i..i + |p|];
  }

  /** No piece of a split contains the separator. */
  lemma {:induction false} SplitPiecesFree(s: string, sep: string)
    requires |sep| > 0
    ensures forall k :: 0 <= k < |Split(s, sep)| ==> !Contains(Split(s, sep)[k], sep)
    decreases |s|
  {
    if |s| < |sep| {
      forall i | OccursAt(s, sep, i) ensures false { }
    } else if StartsWith(s, sep) {
      SplitPiecesFree(s[|sep|..], sep);
      forall i | OccursAt("", sep, i) ensures false { }
    } else {
      var rest := Split(s[1..], sep);
      SplitPiecesFree(s[1..], sep);
      var head := [s[0]] + rest[0];
      JoinSplit(s[1..], sep);
      JoinHead(rest, sep);
      var tail := if |rest| == 1 then "" else sep + Join(rest[1..], sep);
      assert s == head + tail;
      forall i | OccursAt(head, sep, i) ensures false {
        if i == 0 {
          OccursInPrefix(head, tail, sep, 0);
        } else {
          OccursShift(head, sep, i - 1);
        }
      }
    }
  }

  // ---------------------------------------------------------------- count and replace

  /** s.count(p): the non-overlapping occurrences of p, scanned from the left;
      an empty p is counted at every one of the |s| + 1 positions. */
  function Count(s: string, p: string): nat
    decreases |s|
  {
    if |p| == 0 then |s| + 1
    else if |s| < |p| then 0
    else if StartsWith(s, p) then 1 + Count(s[|p|..], p)
    else Count(s[1..], p)
  }

  /** s.replace("", n): n before every character and at the end. */
  function ReplaceEmpty(s: string, n: string): string
  {
    if s == [] then n else n + [s[0]] + ReplaceEmpty(s[1..], n)
  }

  /** s.replace(p, n): every occurrence that s.count(p) counts becomes n. */
  function ReplaceAll(s: string, p: string, n: string): string
    decreases |s|
  {
    if |p| == 0 then ReplaceEmpty(s, n)
    else if |s| < |p| then s
    else if StartsWith(s, p) then n + ReplaceAll(s[|p|..], p, n)
    else [s[0]] + ReplaceAll(s[1..], p, n)
  }

  /** str.count finds nothing exactly when `p in s` is false. */
  lemma {:induction false} CountZeroIffAbsent(s: string, p: string)
    ensures Count(s, p) == 0 <==> !Contains(s, p)
    decreases |s|
  {
    if |p| == 0 {
      assert OccursAt(s, p, 0);
    } else if |s| < |p| {
    } else if StartsWith(s, p) {
      assert OccursAt(s, p, 0);
    } else {
      CountZeroIffAbsent(s[1..], p);
      if Contains(s, p) {
        var i :| 0 <= i <= |s| - |p| && OccursAt(s, p, i);
        assert i != 0;
        OccursShift(s, p, i - 1);
      }
      if Contains(s[1..], p) {
        var i :| 0 <= i <= |s[1..]| - |p| && OccursAt(s[1..], p, i);
        OccursShift(s, p, i);
      }
    }
  }

  /** Replacing a pattern that does not occur changes nothing. */
  lemma {:induction false} ReplaceAbsent(s: string, p: string, n: string)
    ensures !Contains(s, p) ==> ReplaceAll(s, p, n) == s
    decreases |s|
  {
    if |p| == 0 || (|p| <= |s| && StartsWith(s, p)) {
      assert OccursAt(s, p, 0);
    } else if |s| >= |p| {
      if Contains(s[1..], p) {
        var i :| 0 <= i <= |s[1..]| - |p| && OccursAt(s[1..], p, i);
        OccursShift(s, p, i);
      }
      ReplaceAbsent(s[1..], p, n);
    }
  }

  lemma {:induction false} ReplaceEmptyLength(s: string, n: string)
    ensures |ReplaceEmpty(s, n)| == |s| + (|s| + 1) * |n|
  {
    if s != [] {
      ReplaceEmptyLength(s[1..], n);
    }
  }

  /** Each counted occurrence of p is traded for one copy of n. */
  lemma {:induction false} ReplaceLength(s: string, p: string, n: string)
    ensures |ReplaceAll(s, p, n)| == |s| + Count(s, p) * (|n| - |p|)
    decreases |s|
  {
    if |p| == 0 {
      ReplaceEmptyLength(s, n);
    } else if |s| < |p| {
    } else if StartsWith(s, p) {
      var rest := s[|p|..];
      ReplaceLength(rest, p, n);
      assert ReplaceAll(s, p, n) == n + ReplaceAll(rest, p, n);
      assert Count(s, p) == 1 + Count(rest, p);
      OneMoreTrade(|s|, |p|, |n|, Count(rest, p));
    } else {
      ReplaceLength(s[1..], p, n);
      assert ReplaceAll(s, p, n) == [s[0]] + ReplaceAll(s[1..], p, n);
      assert Count(s, p) == Count(s[1..], p);
    }
  }

  lemma OneMoreTrade(len: int, lp: int, ln: int, c: int)
    ensures ln + ((len - lp) + c * (ln - lp)) == len + (1 + c) * (ln - lp)
  {
  }

  /** Replacing a pattern by itself is the identity. */
  lemma {:induction false} ReplaceSelf(s: string, p: string)
    ensures ReplaceAll(s, p, p) == s
    decreases |s|
  {
    if |p| == 0 {
      ReplaceEmptySelf(s);
    } else if |s| < |p| {
    } else if StartsWith(s, p) {
      ReplaceSelf(s[|p|..], p);
      assert s == p + s[|p|..];
    } else {
      ReplaceSelf(s[1..], p);
      assert s == [s[0]] + s[1..];
    }
  }

  lemma {:induction false} ReplaceEmptySelf(s: string)
    ensures ReplaceEmpty(s, "") == s
  {
    if s != [] {
      ReplaceEmptySelf(s[1..]);
      assert s == [s[0]] + s[1..];
    }
  }

  // ---------------------------------------------------------------- lines of a file

  /** The concatenation of a sequence of strings. */
  function Concat(ss: seq<string>): string
  {
    if ss == [] then "" else ss[0] + Concat(ss[1..])
  }

  /** `for line in f`: each line keeps its '\n'; a last line without one is kept as it is.
      The text is the file's contents after universal-newline translation, so '\r' and
      "\r\n" on disk have already become '\n'. */
  function Lines(t: string): seq<string>
    decreases |t|
  {
    if |t| == 0 then []
    else
      var i := IndexOf(t, '\n');
      if i < 0 then [t] else [t[..i + 1]] + Lines(t[i + 1..])
  }

  lemma ConcatCons(x: string, rest: seq<string>)
    ensures Concat([x] + rest) == x + Concat(rest)
  {
    assert ([x] + rest)[1..] == rest;
  }

  lemma LinesStep(t: string, i: int)
    requires 0 <= i < |t| && i == IndexOf(t, '\n')
    ensures Lines(t) == [t[..i + 1]] + Lines(t[i + 1..])
  {
  }

  lemma ConcatSplitAt(t: string, i: int, rest: seq<string>)
    requires 0 <= i < |t| && Concat(rest) == t[i + 1..]
    ensures Concat([t[..i + 1]] + rest) == t
  {
    ConcatCons(t[..i + 1], rest);
    assert t == t[..i + 1] + t[i + 1..];
  }

  /** Iterating over the lines of a file reads every character once, in order. */
  lemma {:induction false} ConcatLines(t: string)
    ensures Concat(Lines(t)) == t
    decreases |t|
  {
    if |t| > 0 {
      var i := IndexOf(t, '\n');
      if i >= 0 {
        ConcatLines(t[i + 1..]);
        LinesStep(t, i);
        ConcatSplitAt(t, i, Lines(t[i + 1..]));
      } else {
        LinesLast(t);
      }
    }
  }

  lemma LinesLast(t: string)
    requires |t| > 0 && IndexOf(t, '\n') < 0
    ensures Concat(Lines(t)) == t
  {
    assert Lines(t) == [t];
    ConcatCons(t, []);
  }

  /** Piece k is non-empty, has no line break before its last character, and ends in one
      unless it is the last piece. */
  predicate LineShaped(ls: seq<string>, k: int)
    requires 0 <= k < |ls|
  {
    && |ls[k]| > 0
    && '\n' !in ls[k][..|ls[k]| - 1]
    && (k < |ls| - 1 ==> ls[k][|ls[k]| - 1] == '\n')
  }

  predicate LinesShaped(ls: seq<string>)
  {
    forall k :: 0 <= k < |ls| ==> LineShaped(ls, k)
  }

  /** Every line is non-empty and holds one '\n' at most, at its end; only the last may lack it. */
  lemma {:induction false} LinesShape(t: string)
    ensures LinesShaped(Lines(t))
    decreases |t|
  {
    if |t| > 0 {
      var i := IndexOf(t, '\n');
      if i < 0 {
        assert LineShaped([t], 0);
      } else {
        LinesShape(t[i + 1..]);
        assert t[..i + 1][..i] == t[..i];
        LinesConsShape(t[..i + 1], Lines(t[i + 1..]));
      }
    }
  }

  /** A line ending in its only line break, put in front of well-shaped lines. */
  lemma LinesConsShape(first: string, rest: seq<string>)
    requires |first| > 0 && '\n' !in first[..|first| - 1] && first[|first| - 1] == '\n'
    requires LinesShaped(rest)
    ensures LinesShaped([first] + rest)
  {
    var ls := [first] + rest;
    forall k | 0 <= k < |ls| ensures LineShaped(ls, k) {
      if k > 0 {
        assert ls[k] == rest[k - 1];
        assert LineShaped(rest, k - 1);
      }
    }
  }


  /** A text that starts with a line x (holding no '\n') and its newline yields x first. */
  lemma LinesCons(x: string, rest: string)
    requires '\n' !in x
    ensures Lines(x + "\n" + rest) == [x + "\n"] + Lines(rest)
  {
    var t := x + "\n" + rest;
    var i := IndexOf(t, '\n');
    assert t[|x|] == '\n';
    assert t[..|x|] == x;
    assert i == |x|;
    assert t[..i + 1] == x + "\n";
    assert t[i + 1..] == rest;
  }
}
