/** Rewriting one KEY=VALUE line of an .env file, as a lens on the file's text. */
module EnvFile {
  import opened Option

  // ---------------------------------------------------------------- text and lines

  /** Unicode white space. */
  predicate IsSpace(c: char) {
    || '\U{9}' <= c <= '\U{D}' || c == ' ' || c == '\U{85}' || c == '\U{A0}' || c == '\U{1680}'
    || '\U{2000}' <= c <= '\U{200A}' || c == '\U{2028}' || c == '\U{2029}' || c == '\U{202F}'
    || c == '\U{205F}' || c == '\U{3000}'
  }

  function TrimStart(s: string): string {
    if s != "" && IsSpace(s[0]) then TrimStart(s[1..]) else s
  }

  function StripCr(s: string): (r: string)
    ensures r <= s
  {
    if s != "" && s[|s| - 1] == '\r' then s[..|s| - 1] else s
  }

  function Newline(s: string): (i: nat)
    ensures i <= |s| && (i < |s| ==> s[i] == '\n')
    ensures forall k | 0 <= k < i :: s[k] != '\n'
  {
    if s == "" || s[0] == '\n' then 0 else 1 + Newline(s[1..])
  }

  /** The lines of a text: an end of line is a newline with the carriage return before it, and a
      last line need not have one. */
  function Lines(s: string): seq<string>
    decreases |s|
  {
    if s == "" then []
    else
      var i := Newline(s);
      if i == |s| then [s] else [StripCr(s[..i])] + Lines(s[i + 1..])
  }

  function Join(lines: seq<string>): string {
    if lines == [] then "" else lines[0] + "\n" + Join(lines[1..])
  }

  function Stripped(lines: seq<string>): (r: seq<string>)
    ensures |r| == |lines| && forall i | 0 <= i < |lines| :: r[i] == StripCr(lines[i])
  {
    seq(|lines|, i requires 0 <= i < |lines| => StripCr(lines[i]))
  }

  ghost predicate OneLine(s: string) {
    '\n' !in s
  }

  ghost predicate AllOneLine(lines: seq<string>) {
    forall i | 0 <= i < |lines| :: OneLine(lines[i])
  }

  lemma {:induction false} LinesAreOneLine(s: string)
    ensures AllOneLine(Lines(s))
    decreases |s|
  {
    if s != "" {
      var i := Newline(s);
      if i < |s| {
        LinesAreOneLine(s[i + 1..]);
        assert StripCr(s[..i]) <= s[..i];
      }
    }
  }

  lemma {:induction false} NewlineAfter(line: string, rest: string)
    requires OneLine(line)
    ensures Newline(line + "\n" + rest) == |line|
  {
    var s := line + "\n" + rest;
    assert s[|line|] == '\n';
    assert forall k | 0 <= k < |line| :: s[k] == line[k];
  }

  /** Reading joined lines back gives them, less one trailing carriage return each. */
  lemma {:induction false} LinesOfJoin(lines: seq<string>)
    requires AllOneLine(lines)
    ensures Lines(Join(lines)) == Stripped(lines)
  {
    if lines != [] {
      var rest := lines[1..];
      LinesOfJoin(rest);
      NewlineAfter(lines[0], Join(rest));
      var s := Join(lines);
      assert s[..|lines[0]|] == lines[0] && s[|lines[0]| + 1..] == Join(rest);
      assert Stripped(lines) == [StripCr(lines[0])] + Stripped(rest);
    }
  }

  /** The lines of a text with what ends them. */
  function RawLines(s: string): seq<string>
    decreases |s|
  {
    if s == "" then []
    else
      var i := Newline(s);
      if i == |s| then [s] else [s[..i + 1]] + RawLines(s[i + 1..])
  }

  function Concat(parts: seq<string>): string {
    if parts == [] then "" else parts[0] + Concat(parts[1..])
  }

  /** A raw line without its end. */
  function Body(raw: string): string {
    if raw != "" && raw[|raw| - 1] == '\n' then StripCr(raw[..|raw| - 1]) else raw
  }

  // The line ends in a newline with no carriage return before it.
  predicate PlainEnd(raw: string) {
    raw != "" && raw[|raw| - 1] == '\n' && (|raw| > 1 ==> raw[|raw| - 2] != '\r')
  }

  /** The raw lines make up the text, and their bodies are its lines. */
  lemma {:induction false} RawLinesAre(s: string)
    ensures Concat(RawLines(s)) == s && |RawLines(s)| == |Lines(s)|
    ensures forall k | 0 <= k < |Lines(s)| :: Body(RawLines(s)[k]) == Lines(s)[k]
    decreases |s|
  {
    hide Body, StripCr, RawLines, Lines;
    var i := Newline(s);
    if i == |s| {
      LastRawLine(s);
    } else {
      var rest := s[i + 1..];
      RawLinesAre(rest);
      FirstRawLine(s);
      assert ([s[..i + 1]] + RawLines(rest))[1..] == RawLines(rest);
      assert s == s[..i + 1] + rest;
    }
  }

  lemma {:induction false} LastRawLine(s: string)
    requires Newline(s) == |s|
    ensures RawLines(s) == Lines(s) == (if s == "" then [] else [s]) && Concat(RawLines(s)) == s && Body(s) == s
  {
    assert [s][1..] == [] && s + "" == s;
  }

  lemma {:induction false} FirstRawLine(s: string)
    requires Newline(s) < |s|
    ensures var i := Newline(s);
            && RawLines(s) == [s[..i + 1]] + RawLines(s[i + 1..])
            && Lines(s) == [Body(s[..i + 1])] + Lines(s[i + 1..])
  {
    assert s[..Newline(s) + 1][..Newline(s)] == s[..Newline(s)];
  }

  lemma {:induction false} RawLinesOfJoin(lines: seq<string>)
    requires AllOneLine(lines)
    ensures |RawLines(Join(lines))| == |lines|
    ensures forall k | 0 <= k < |lines| :: RawLines(Join(lines))[k] == lines[k] + "\n"
  {
    hide RawLines, Lines, Body;
    if lines == [] {
      LastRawLine("");
    } else {
      var rest := lines[1..];
      RawLinesOfJoin(rest);
      NewlineAfter(lines[0], Join(rest));
      var s := Join(lines);
      FirstRawLine(s);
      assert s[..|lines[0]| + 1] == lines[0] + "\n" && s[|lines[0]| + 1..] == Join(rest);
    }
  }

  lemma {:induction false} KeptIffPlain(raw: string)
    ensures Body(raw) + "\n" == raw <==> PlainEnd(raw)
  {
    if PlainEnd(raw) {
      assert Body(raw) == raw[..|raw| - 1];
    }
    if Body(raw) + "\n" == raw {
      assert raw[|raw| - 1] == '\n' && |Body(raw)| == |raw| - 1;
    }
  }

  // ---------------------------------------------------------------- keys

  predicate Active(line: string, key: string) {
    key + "=" <= TrimStart(line)
  }

  predicate Commented(line: string, key: string) {
    "# " + key + "=" <= TrimStart(line)
  }

  predicate Matches(line: string, key: string) {
    Active(line, key) || Commented(line, key)
  }

  // What the laws ask of a key: no equals sign, and no space or hash at its start.
  predicate GoodKey(key: string) {
    '=' !in key && (key != "" ==> !IsSpace(key[0]) && key[0] != '#')
  }

  function Assignment(key: string, value: string): string {
    key + "=" + value
  }

  /** The first line that sets or comments out the key; the number of lines if none does. */
  function FirstMatch(lines: seq<string>, key: string): (i: nat)
    ensures i <= |lines| && (i < |lines| ==> Matches(lines[i], key))
    ensures forall k | 0 <= k < i :: !Matches(lines[k], key)
  {
    if lines == [] || Matches(lines[0], key) then 0 else 1 + FirstMatch(lines[1..], key)
  }

  function Patch(lines: seq<string>, key: string, value: string): (r: seq<string>)
    ensures r != []
  {
    var i := FirstMatch(lines, key);
    if i < |lines| then lines[i := Assignment(key, value)] else lines + [Assignment(key, value)]
  }

  /** The value a reader finds that takes the first line setting the key. */
  function Lookup(lines: seq<string>, key: string): Option<string> {
    if lines == [] then None
    else if Active(lines[0], key) then Some(TrimStart(lines[0])[|key| + 1..])
    else Lookup(lines[1..], key)
  }

  // ---------------------------------------------------------------- the program

  datatype Source = Missing | Unreadable | Text(content: string)

  datatype Written = Failed | Written(content: string, found: bool)

  function ContentOf(source: Source): string
    requires !source.Unreadable?
  {
    if source.Text? then source.content else ""
  }

  /** Replaces the first line that sets or comments out the key, or appends one. A missing file
      counts as empty; on any other read error nothing is written. */
  method PatchEnvKey(source: Source, key: string, value: string) returns (w: Written)
    ensures source.Unreadable? <==> w.Failed?
    ensures !source.Unreadable? ==>
              var lines := Lines(ContentOf(source));
              && w.content == Join(Patch(lines, key, value))
              && (w.found <==> exists k :: 0 <= k < |lines| && Matches(lines[k], key))
  {
    hide Join, Matches, Assignment;
    if source.Unreadable? { return Failed; }
    var before := Lines(ContentOf(source));
    var lines := before;
    var activePrefix, commentPrefix, newLine := key + "=", "# " + key + "=", Assignment(key, value);
    var found := false;
    for k := 0 to |before|
      invariant !found && lines == before && forall j | 0 <= j < k :: !Matches(before[j], key)
    {
      var trimmed := TrimStart(lines[k]);
      MatchesIs(lines[k], key);
      if activePrefix <= trimmed || commentPrefix <= trimmed {
        lines := lines[k := newLine];
        found := true;
        break;
      }
    }
    if !found {
      lines := lines + [newLine];
    }
    return Written(Join(lines), found);
  }

  lemma {:induction false} MatchesIs(line: string, key: string)
    ensures Matches(line, key) <==> key + "=" <= TrimStart(line) || "# " + key + "=" <= TrimStart(line)
  {
  }

  /** Trimming drops the white space at the start and nothing else. */
  lemma {:induction false} TrimStartIs(s: string) returns (n: nat)
    ensures n <= |s| && TrimStart(s) == s[n..]
    ensures (forall k | 0 <= k < n :: IsSpace(s[k])) && (n < |s| ==> !IsSpace(s[n]))
  {
    hide IsSpace;
    if s != "" && IsSpace(s[0]) {
      var m := TrimStartIs(s[1..]);
      n := m + 1;
      assert s[1..][m..] == s[n..];
      forall k | 0 <= k < n ensures IsSpace(s[k]) {
        if k > 0 { assert s[1..][k - 1] == s[k]; }
      }
    } else {
      n := 0;
    }
  }

  /** A patch puts KEY=VALUE in place of the first line that sets the key or comments it out, or
      adds it after all lines when there is none. */
  lemma {:induction false} PatchSpelledOut(lines: seq<string>, key: string, value: string, i: nat)
    requires i <= |lines|
    requires forall k | 0 <= k < i ::
               !(key + "=" <= TrimStart(lines[k])) && !("# " + key + "=" <= TrimStart(lines[k]))
    requires i < |lines| ==> key + "=" <= TrimStart(lines[i]) || "# " + key + "=" <= TrimStart(lines[i])
    ensures Patch(lines, key, value)
         == if i == |lines| then lines + [key + "=" + value]
            else lines[..i] + [key + "=" + value] + lines[i + 1..]
  {
    hide Matches;
    var j := FirstMatch(lines, key);
    forall k | 0 <= k < |lines|
      ensures Matches(lines[k], key) <==> key + "=" <= TrimStart(lines[k]) || "# " + key + "=" <= TrimStart(lines[k])
    {
      MatchesIs(lines[k], key);
    }
    assert !(j < i) && !(i < j);
  }

  // ---------------------------------------------------------------- laws on lines

  lemma {:induction false} AssignmentReads(key: string, value: string)
    requires GoodKey(key)
    ensures TrimStart(Assignment(key, value)) == Assignment(key, value)
    ensures Active(Assignment(key, value), key) && Assignment(key, value)[|key| + 1..] == value
  {
    var line := Assignment(key, value);
    assert line[0] == if key == "" then '=' else key[0];
    assert line[..|key| + 1] == key + "=";
  }

  lemma {:induction false} KeyEndsAtEquals(line: string, a: string)
    requires GoodKey(a) && Active(line, a)
    ensures var t := TrimStart(line);
            |a| < |t| && t[..|a|] == a && t[|a|] == '=' && forall k | 0 <= k < |a| :: t[k] != '='
  {
    var t := TrimStart(line);
    assert (a + "=")[|a|] == '=';
    assert forall k | 0 <= k < |a| :: t[k] == (a + "=")[k] == a[k];
  }

  /** A line sets at most one key. */
  lemma {:induction false} OneKeyPerLine(line: string, a: string, b: string)
    requires GoodKey(a) && GoodKey(b) && Active(line, a) && Active(line, b)
    ensures a == b
  {
    hide GoodKey, Active;
    KeyEndsAtEquals(line, a);
    KeyEndsAtEquals(line, b);
  }

  lemma {:induction false} CommentSetsNothing(line: string, a: string, b: string)
    requires Commented(line, a) && GoodKey(b)
    ensures !Active(line, b)
  {
    assert ("# " + a + "=")[0] == '#' && (b + "=")[0] != '#';
  }

  lemma {:induction false} LookupSkips(lines: seq<string>, key: string, i: nat)
    requires i <= |lines| && forall k | 0 <= k < i :: !Active(lines[k], key)
    ensures Lookup(lines, key) == Lookup(lines[i..], key)
  {
    if i > 0 {
      LookupSkips(lines[1..], key, i - 1);
      assert lines[1..][i - 1..] == lines[i..];
    } else {
      assert lines[0..] == lines;
    }
  }

  /** Put then get: the patched key reads as its new value. */
  lemma {:induction false} PatchThenLookup(lines: seq<string>, key: string, value: string)
    requires GoodKey(key)
    ensures Lookup(Patch(lines, key, value), key) == Some(value)
  {
    hide Active, GoodKey, Commented, Assignment;
    var i := FirstMatch(lines, key);
    var after := Patch(lines, key, value);
    assert after[i] == Assignment(key, value) && forall k | 0 <= k < i :: after[k] == lines[k];
    LookupSkips(after, key, i);
    AssignmentReads(key, value);
  }

  lemma {:induction false} LookupReplaced(lines: seq<string>, i: nat, line: string, key: string)
    requires i < |lines| && !Active(lines[i], key) && !Active(line, key)
    ensures Lookup(lines[i := line], key) == Lookup(lines, key)
  {
    hide Active;
    if i == 0 {
      assert lines[0 := line][1..] == lines[1..];
    } else {
      LookupReplaced(lines[1..], i - 1, line, key);
      assert lines[i := line][1..] == lines[1..][i - 1 := line];
    }
  }

  lemma {:induction false} LookupAppended(lines: seq<string>, line: string, key: string)
    requires !Active(line, key)
    ensures Lookup(lines + [line], key) == Lookup(lines, key)
  {
    hide Active;
    if lines == [] {
      assert [line][1..] == [];
    } else {
      LookupAppended(lines[1..], line, key);
      assert (lines + [line])[1..] == lines[1..] + [line];
    }
  }

  /** Every other key reads as before. */
  lemma {:induction false} PatchKeepsOthers(lines: seq<string>, key: string, value: string, other: string)
    requires GoodKey(key) && GoodKey(other) && other != key
    ensures Lookup(Patch(lines, key, value), other) == Lookup(lines, other)
  {
    hide Active, GoodKey, Commented, Assignment;
    var i, line := FirstMatch(lines, key), Assignment(key, value);
    AssignmentReads(key, value);
    if Active(line, other) { OneKeyPerLine(line, key, other); }
    if i < |lines| {
      if Commented(lines[i], key) { CommentSetsNothing(lines[i], key, other); }
      if Active(lines[i], key) && Active(lines[i], other) { OneKeyPerLine(lines[i], key, other); }
      LookupReplaced(lines, i, line, other);
    } else {
      LookupAppended(lines, line, other);
    }
  }

  /** All lines but the one that matched are kept, in order; without a match one is appended. */
  lemma {:induction false} PatchKeepsLines(lines: seq<string>, key: string, value: string)
    ensures var r, i := Patch(lines, key, value), FirstMatch(lines, key);
            && |r| == (if i < |lines| then |lines| else |lines| + 1)
            && r[i] == Assignment(key, value)
            && forall k | 0 <= k < |lines| && k != i :: r[k] == lines[k]
  {
  }

  /** Patching twice is patching once with the last value. */
  lemma {:induction false} PatchTwice(lines: seq<string>, key: string, first: string, last: string)
    requires GoodKey(key)
    ensures Patch(Patch(lines, key, first), key, last) == Patch(lines, key, last)
  {
    hide Active, GoodKey, Commented, Assignment;
    PatchedFirstMatch(lines, key, first);
  }

  lemma {:induction false} PatchedFirstMatch(lines: seq<string>, key: string, value: string)
    requires GoodKey(key)
    ensures FirstMatch(Patch(lines, key, value), key) == FirstMatch(lines, key)
  {
    hide Active, GoodKey, Commented, Assignment;
    AssignmentReads(key, value);
    var i := FirstMatch(lines, key);
    var after := Patch(lines, key, value);
    assert after[i] == Assignment(key, value) && forall k | 0 <= k < i :: after[k] == lines[k];
  }

  /** A patch changes nothing exactly when the first match already spells the assignment. */
  lemma {:induction false} PatchIsIdleIff(lines: seq<string>, key: string, value: string)
    ensures Patch(lines, key, value) == lines
       <==> FirstMatch(lines, key) < |lines| && lines[FirstMatch(lines, key)] == Assignment(key, value)
  {
    var i, line := FirstMatch(lines, key), Assignment(key, value);
    if i < |lines| {
      assert lines[i := line][i] == line;
      if lines[i] == line { assert lines[i := line] == lines; }
    } else {
      assert |lines + [line]| == |lines| + 1;
    }
  }

  // ---------------------------------------------------------------- laws on files

  function PatchText(content: string, key: string, value: string): string {
    Join(Patch(Lines(content), key, value))
  }

  // Key and value that fit on a line.
  ghost predicate Fits(key: string, value: string) {
    OneLine(key) && OneLine(value) && StripCr(value) == value
  }

  /** What a patch does to the raw lines: each keeps its body and gets a plain end, the first
      match becomes the assignment, and without a match the assignment is added. */
  lemma {:induction false} PatchedRawLines(content: string, key: string, value: string)
    requires OneLine(key) && OneLine(value)
    ensures var raw, after := RawLines(content), RawLines(PatchText(content, key, value));
            var i := FirstMatch(Lines(content), key);
            && i <= |raw| && |after| == (if i < |raw| then |raw| else |raw| + 1)
            && after[i] == Assignment(key, value) + "\n"
            && forall k | 0 <= k < |raw| && k != i :: after[k] == Body(raw[k]) + "\n"
  {
    hide RawLines, Body, Join, Lines;
    var lines := Lines(content);
    LinesAreOneLine(content);
    RawLinesAre(content);
    PatchKeepsLines(lines, key, value);
    AssignmentIsOneLine(key, value);
    RawLinesOfJoin(Patch(lines, key, value));
  }

  lemma {:induction false} AssignmentIsOneLine(key: string, value: string)
    requires OneLine(key) && OneLine(value)
    ensures OneLine(Assignment(key, value))
  {
  }

  /** A patch keeps every raw line but the first match verbatim exactly when each of those ends in
      a newline with no carriage return before it. */
  lemma {:induction false} OthersVerbatimIff(content: string, key: string, value: string)
    requires OneLine(key) && OneLine(value)
    ensures var raw, after := RawLines(content), RawLines(PatchText(content, key, value));
            var i := FirstMatch(Lines(content), key);
            && |raw| <= |after|
            && ((forall k | 0 <= k < |raw| && k != i :: after[k] == raw[k])
                <==> forall k | 0 <= k < |raw| && k != i :: PlainEnd(raw[k]))
  {
    hide RawLines, Body, PatchText, Lines, PlainEnd;
    PatchedRawLines(content, key, value);
    var raw := RawLines(content);
    forall k | 0 <= k < |raw| ensures Body(raw[k]) + "\n" == raw[k] <==> PlainEnd(raw[k]) {
      KeptIffPlain(raw[k]);
    }
  }

  lemma {:induction false} TextOfPatch(content: string, key: string, value: string)
    ensures PatchText(content, key, value) == Join(Patch(Lines(content), key, value))
  {
  }

  lemma {:induction false} PatchFits(content: string, key: string, value: string)
    requires Fits(key, value)
    ensures AllOneLine(Patch(Lines(content), key, value))
    ensures StripCr(Assignment(key, value)) == Assignment(key, value)
    ensures Lines(PatchText(content, key, value)) == Stripped(Patch(Lines(content), key, value))
  {
    LinesAreOneLine(content);
    var after := Patch(Lines(content), key, value);
    PatchKeepsLines(Lines(content), key, value);
    assert OneLine(Assignment(key, value));
    assert AllOneLine(after);
    LinesOfJoin(after);
    var line := Assignment(key, value);
    assert value != "" ==> line[|line| - 1] == value[|value| - 1];
    assert value == "" ==> line[|line| - 1] == '=';
  }

  lemma {:induction false} TrimOfStripped(s: string)
    ensures TrimStart(StripCr(s)) == StripCr(TrimStart(s))
  {
    if s != "" && IsSpace(s[0]) {
      TrimOfStripped(s[1..]);
      if |s| > 1 {
        assert StripCr(s)[1..] == StripCr(s[1..]) && StripCr(s)[0] == s[0];
      }
    } else {
      assert StripCr(s) != "" ==> StripCr(s)[0] == s[0];
    }
  }

  function StripValue(v: Option<string>): Option<string> {
    match v
    case None => None
    case Some(s) => Some(StripCr(s))
  }

  lemma {:induction false} LookupStripped(lines: seq<string>, key: string)
    requires GoodKey(key)
    ensures Lookup(Stripped(lines), key) == StripValue(Lookup(lines, key))
  {
    hide GoodKey;
    if lines != [] {
      assert Stripped(lines)[1..] == Stripped(lines[1..]);
      LookupStripped(lines[1..], key);
      ActiveStripped(lines[0], key);
    }
  }

  lemma {:induction false} ActiveStripped(line: string, key: string)
    ensures Active(StripCr(line), key) <==> Active(line, key)
    ensures Active(line, key) ==>
              TrimStart(StripCr(line))[|key| + 1..] == StripCr(TrimStart(line)[|key| + 1..])
  {
    TrimOfStripped(line);
    var t, head := TrimStart(line), key + "=";
    if head <= t {
      assert t[|key|] == '=';
      assert |t| > |head| ==> t[|head|..][|t| - |head| - 1] == t[|t| - 1];
      assert |t| == |head| ==> t[|t| - 1] == '=';
      assert head <= StripCr(t);
    }
  }

  /** On files: the patched key reads as its new value, and every other key as before, but for a
      carriage return at the end of its value. */
  lemma {:induction false} PatchedFileReads(content: string, key: string, value: string, other: string)
    requires GoodKey(key) && GoodKey(other) && Fits(key, value)
    ensures Lookup(Lines(PatchText(content, key, value)), other)
         == if other == key then Some(value) else StripValue(Lookup(Lines(content), other))
  {
    hide GoodKey, Lookup, Lines, Patch, PatchText, Stripped;
    PatchFits(content, key, value);
    LookupStripped(Patch(Lines(content), key, value), other);
    if other == key {
      PatchThenLookup(Lines(content), key, value);
    } else {
      PatchKeepsOthers(Lines(content), key, value, other);
    }
  }

  // The lines a patch leaves alone have no carriage return at their end.
  ghost predicate OthersPlain(lines: seq<string>, key: string) {
    forall k | 0 <= k < |lines| && k != FirstMatch(lines, key) :: StripCr(lines[k]) == lines[k]
  }

  /** On files, patching twice equals patching once with the last value exactly when no other
      line ends in a carriage return: each patch takes one away. */
  lemma {:induction false} PatchFileTwiceIff(content: string, key: string, first: string, last: string)
    requires GoodKey(key) && Fits(key, first) && Fits(key, last)
    ensures PatchText(PatchText(content, key, first), key, last) == PatchText(content, key, last)
       <==> OthersPlain(Lines(content), key)
  {
    hide Lines, Patch, Join, StripCr, GoodKey, Assignment, Fits, PatchText, AllOneLine;
    var lines := Lines(content);
    PatchFits(content, key, first);
    PatchFits(content, key, last);
    TextOfPatch(content, key, last);
    TextOfPatch(PatchText(content, key, first), key, last);
    var once := Patch(lines, key, last);
    PatchOfStripped(Patch(lines, key, first), key, last);
    PatchTwice(lines, key, first, last);
    PatchKeepsLines(lines, key, last);
    assert PatchText(PatchText(content, key, first), key, last) == Join(Stripped(once));
    if OthersPlain(lines, key) {
      assert Stripped(once) == once;
    } else {
      var k :| 0 <= k < |lines| && k != FirstMatch(lines, key) && StripCr(lines[k]) != lines[k];
      assert once[k] == lines[k];
      StrippedIsShorter(once, k);
    }
  }

  lemma {:induction false} PatchOfStripped(lines: seq<string>, key: string, value: string)
    requires StripCr(Assignment(key, value)) == Assignment(key, value)
    ensures Patch(Stripped(lines), key, value) == Stripped(Patch(lines, key, value))
  {
    hide Active, Commented, Assignment;
    FirstMatchStripped(lines, key);
    var i := FirstMatch(lines, key);
    assert Patch(Stripped(lines), key, value) == Stripped(Patch(lines, key, value));
  }

  lemma {:induction false} FirstMatchStripped(lines: seq<string>, key: string)
    ensures FirstMatch(Stripped(lines), key) == FirstMatch(lines, key)
  {
    hide Active, Commented;
    if lines != [] {
      ActiveStripped(lines[0], key);
      CommentedStripped(lines[0], key);
      assert Stripped(lines)[1..] == Stripped(lines[1..]);
      FirstMatchStripped(lines[1..], key);
    }
  }

  lemma {:induction false} CommentedStripped(line: string, key: string)
    ensures Commented(StripCr(line), key) <==> Commented(line, key)
  {
    ActiveStripped(line, "# " + key);
  }

  lemma {:induction false} StrippedIsShorter(lines: seq<string>, k: nat)
    requires k < |lines| && StripCr(lines[k]) != lines[k]
    ensures |Join(Stripped(lines))| < |Join(lines)|
  {
    assert Stripped(lines)[1..] == Stripped(lines[1..]);
    if k > 0 {
      StrippedIsShorter(lines[1..], k - 1);
    } else {
      StrippedIsNoLonger(lines[1..]);
    }
  }

  lemma {:induction false} StrippedIsNoLonger(lines: seq<string>)
    ensures |Join(Stripped(lines))| <= |Join(lines)|
  {
    if lines != [] {
      assert Stripped(lines)[1..] == Stripped(lines[1..]);
      StrippedIsNoLonger(lines[1..]);
    }
  }
}
