// The secrets.env helpers (crates/clawreform-api/src/routes.rs:6121-6173) and the loader that reads the file
// (crates/clawreform-cli/src/dotenv.rs:31-54, 115-133).

module SecretsEnv {
  import opened Text

  // ----- lines -----

  /** `lines()` drops one line feed, and one carriage return before it. */
  function StripLineEnd(piece: string): string {
    if piece != "" && piece[|piece| - 1] == '\n' then StripCR(piece[..|piece| - 1]) else piece
  }

  function StripCR(line: string): string {
    if EndsCR(line) then line[..|line| - 1] else line
  }

  predicate EndsCR(line: string) {
    line != "" && line[|line| - 1] == '\r'
  }

  function StripLineEnds(pieces: seq<string>): seq<string> {
    if pieces == [] then [] else [StripLineEnd(pieces[0])] + StripLineEnds(pieces[1..])
  }

  function StripCRs(lines: seq<string>): seq<string> {
    if lines == [] then [] else [StripCR(lines[0])] + StripCRs(lines[1..])
  }

  /** `str::lines`. */
  function Lines(t: string): seq<string> {
    StripLineEnds(SplitInclusive(t))
  }

  /** `lines.join("\n") + "\n"`. */
  function Unlines(lines: seq<string>): string {
    Join("\n", lines) + "\n"
  }

  predicate AreLines(lines: seq<string>) {
    forall i :: 0 <= i < |lines| ==> '\n' !in lines[i]
  }

  // ----- the two helpers -----

  function KeyPrefix(key: string): string {
    key + "="
  }

  /** The lines that do not start with `key=`, in order. */
  function Others(lines: seq<string>, key: string): seq<string> {
    if lines == [] then [] else (if KeyPrefix(key) <= lines[0] then [] else [lines[0]]) + Others(lines[1..], key)
  }

  function Written(text: string, key: string, value: string): string {
    Unlines(Others(Lines(text), key) + [KeyPrefix(key) + value])
  }

  function Removed(text: string, key: string): string {
    Unlines(Others(Lines(text), key))
  }

  class SecretsFile {
    /** The file's text, if the file exists. */
    var content: Option<string>

    method WriteSecretEnv(key: string, value: string)
      modifies this
      ensures content == Some(Written(if old(content).Some? then old(content).value else "", key, value))
    {
      var lines := [];
      if content.Some? {
        lines := Lines(content.value);
      } else {
        assert lines == Lines("");
      }
      lines := RetainOthers(lines, key);
      lines := lines + [key + "=" + value];
      content := Some(Join("\n", lines) + "\n");
    }

    method RemoveSecretEnv(key: string)
      modifies this
      ensures content == if old(content).None? then None else Some(Removed(old(content).value, key))
    {
      if content.None? {
        return;
      }
      var lines := RetainOthers(Lines(content.value), key);
      content := Some(Join("\n", lines) + "\n");
    }
  }

  method RetainOthers(lines: seq<string>, key: string) returns (kept: seq<string>)
    ensures kept == Others(lines, key)
  {
    kept := [];
    for i := 0 to |lines|
      invariant kept == Others(lines[..i], key)
    {
      assert lines[..i + 1] == lines[..i] + [lines[i]];
      OthersAppend(lines[..i], [lines[i]], key);
      OthersOne(lines[i], key);
      if !(key + "=" <= lines[i]) {
        kept := kept + [lines[i]];
      }
    }
    assert lines[..|lines|] == lines;
  }

  lemma {:induction false} OthersAppend(a: seq<string>, b: seq<string>, key: string)
    ensures Others(a + b, key) == Others(a, key) + Others(b, key)
  {
    if a == [] {
      assert a + b == b;
    } else {
      assert (a + b)[1..] == a[1..] + b;
      OthersAppend(a[1..], b, key);
    }
  }

  lemma OthersOne(line: string, key: string)
    ensures Others([line], key) == if KeyPrefix(key) <= line then [] else [line]
  {
    assert [line][1..] == [];
  }

  // ----- writing lines and reading them back -----

  lemma {:induction false} SplitUnlines(lines: seq<string>)
    requires AreLines(lines) && lines != []
    ensures Lines(Unlines(lines)) == StripCRs(lines)
  {
    var first := lines[0];
    SplitLine(first);
    assert [first + "\n"][1..] == [] && (first + "\n")[..|first|] == first;
    assert StripLineEnds([first + "\n"]) == [StripCR(first)];
    if |lines| == 1 {
      assert lines[1..] == [];
    } else {
      var rest := Unlines(lines[1..]);
      assert Unlines(lines) == first + "\n" + rest;
      SplitInclusiveCut(first, rest);
      StripLineEndsAppend([first + "\n"], SplitInclusive(rest));
      SplitUnlines(lines[1..]);
    }
  }

  lemma {:induction false} StripLineEndsAppend(a: seq<string>, b: seq<string>)
    ensures StripLineEnds(a + b) == StripLineEnds(a) + StripLineEnds(b)
  {
    if a == [] {
      assert a + b == b;
    } else {
      assert (a + b)[1..] == a[1..] + b;
      StripLineEndsAppend(a[1..], b);
    }
  }

  lemma {:induction false} SplitLine(line: string)
    requires '\n' !in line
    ensures SplitInclusive(line + "\n") == [line + "\n"]
  {
    if line == "" {
      assert line + "\n" == "\n" && "\n"[1..] == "";
    } else {
      assert (line + "\n")[1..] == line[1..] + "\n";
      SplitLine(line[1..]);
      assert [line[0]] + (line[1..] + "\n") == line + "\n";
    }
  }

  lemma {:induction false} StripCRsSame(lines: seq<string>)
    ensures |StripCRs(lines)| == |lines| && forall i :: 0 <= i < |lines| ==> StripCRs(lines)[i] == StripCR(lines[i])
    ensures StripCRs(lines) == lines <==> forall i :: 0 <= i < |lines| ==> !EndsCR(lines[i])
  {
    if lines != [] {
      StripCRsSame(lines[1..]);
      assert lines == [lines[0]] + lines[1..];
    }
  }

  /**
   * Reading undoes writing exactly when there is a line and none ends with a carriage return; no lines at all
   * read back as one blank line.
   */
  lemma LinesOfUnlines(lines: seq<string>)
    requires AreLines(lines)
    ensures Lines(Unlines(lines)) == lines <==> lines != [] && forall i :: 0 <= i < |lines| ==> !EndsCR(lines[i])
    ensures Lines(Unlines([])) == [""]
  {
    SplitUnlines([""]);
    assert Unlines([""]) == "\n" == Unlines([]);
    assert StripCRs([""]) == [""] by { assert [""][1..] == []; }
    if lines != [] {
      SplitUnlines(lines);
      StripCRsSame(lines);
    }
  }

  /** What a line ending with a line feed is read as. */
  lemma StripCRIs(line: string)
    ensures StripCR(line) == if line != "" && line[|line| - 1] == '\r' then line[..|line| - 1] else line
  {
  }

  /** Reading a text whose every line ends with a line feed. */
  lemma LinesOfTerminated(lines: seq<string>)
    requires AreLines(lines) && lines != []
    ensures var r := Lines(Join("\n", lines) + "\n");
            && |r| == |lines|
            && forall i :: 0 <= i < |r| ==>
                 r[i] == if lines[i] != "" && lines[i][|lines[i]| - 1] == '\r' then lines[i][..|lines[i]| - 1] else lines[i]
  {
    SplitUnlines(lines);
    StripCRsSame(lines);
  }

  /** Without a line feed at the end the last line is kept as it is. */
  lemma {:induction false} LinesOfUnterminated(lines: seq<string>)
    requires AreLines(lines) && lines != [] && lines[|lines| - 1] != ""
    ensures var r, n := Lines(Join("\n", lines)), |lines| - 1;
            && |r| == |lines| && r[n] == lines[n]
            && forall i :: 0 <= i < n ==>
                 r[i] == if lines[i] != "" && lines[i][|lines[i]| - 1] == '\r' then lines[i][..|lines[i]| - 1] else lines[i]
    ensures Lines("") == []
  {
    hide Lines, StripCR;
    var n := |lines| - 1;
    var front := lines[..n];
    LinesOfJoin(lines);
    StripCRsSame(front);
    var r := Lines(Join("\n", lines));
    assert r == StripCRs(front) + [lines[n]];
    forall i | 0 <= i < n
      ensures r[i] == if lines[i] != "" && lines[i][|lines[i]| - 1] == '\r' then lines[i][..|lines[i]| - 1] else lines[i]
    {
      assert r[i] == StripCRs(front)[i] && front[i] == lines[i];
      StripCRIs(lines[i]);
    }
    NoLines();
  }

  lemma NoLines()
    ensures Lines("") == []
  {
  }

  lemma {:induction false} LinesOfJoin(lines: seq<string>)
    requires AreLines(lines) && lines != [] && lines[|lines| - 1] != ""
    ensures Lines(Join("\n", lines)) == StripCRs(lines[..|lines| - 1]) + [lines[|lines| - 1]]
  {
    hide StripLineEnd;
    var first, n := lines[0], |lines| - 1;
    if n == 0 {
      LastPiece(first);
      assert lines[..0] == [] && lines == [first];
    } else {
      var rest := Join("\n", lines[1..]);
      assert Join("\n", lines) == first + "\n" + rest;
      SplitInclusiveCut(first, rest);
      SplitLine(first);
      StripLineEndsAppend([first + "\n"], SplitInclusive(rest));
      StripTerminated(first);
      LinesOfJoin(lines[1..]);
      assert lines[..n] == [first] + lines[1..][..n - 1];
      StripCRsAppendFront(first, lines[1..][..n - 1]);
      assert [StripCR(first)] + (StripCRs(lines[1..][..n - 1]) + [lines[n]])
          == [StripCR(first)] + StripCRs(lines[1..][..n - 1]) + [lines[n]];
    }
  }

  lemma StripTerminated(line: string)
    ensures StripLineEnds([line + "\n"]) == [StripCR(line)]
  {
    assert [line + "\n"][1..] == [] && (line + "\n")[..|line|] == line;
  }

  lemma StripCRsAppendFront(first: string, rest: seq<string>)
    ensures StripCRs([first] + rest) == [StripCR(first)] + StripCRs(rest)
  {
    assert ([first] + rest)[1..] == rest;
  }

  lemma LastPiece(line: string)
    requires '\n' !in line && line != ""
    ensures Lines(line) == [line]
  {
    hide SplitInclusive;
    OnePiece(line);
    assert line[|line| - 1] in line;
    assert StripLineEnd(line) == line;
    assert [line][1..] == [] && StripLineEnds([line]) == [line] + StripLineEnds([]);
  }

  lemma {:induction false} OnePiece(line: string)
    requires '\n' !in line && line != ""
    ensures SplitInclusive(line) == [line]
  {
    if line[1..] == "" {
      assert line == [line[0]];
    } else {
      OnePiece(line[1..]);
      assert [line[0]] + line[1..] == line;
    }
  }

  lemma LinesAreLines(t: string)
    ensures AreLines(Lines(t))
  {
    SplitInclusiveIs(t);
    StrippedAreLines(SplitInclusive(t));
  }

  lemma {:induction false} StrippedAreLines(pieces: seq<string>)
    requires LinePieces(pieces)
    ensures AreLines(StripLineEnds(pieces))
  {
    if pieces != [] {
      StrippedAreLines(pieces[1..]);
      var p := pieces[0];
      assert forall c :: c in StripLineEnd(p) ==> c != '\n' by {
        forall j | 0 <= j < |StripLineEnd(p)| ensures StripLineEnd(p)[j] != '\n' {
          assert StripLineEnd(p)[j] == p[j];
        }
      }
    }
  }

  lemma {:induction false} OthersAreLines(lines: seq<string>, key: string)
    requires AreLines(lines)
    ensures AreLines(Others(lines, key))
    ensures forall i :: 0 <= i < |Others(lines, key)| ==> !(KeyPrefix(key) <= Others(lines, key)[i])
  {
    if lines != [] {
      OthersAreLines(lines[1..], key);
    }
  }

  // ----- the loader -----

  function Unquote(value: string): string {
    if |value| >= 2 && value[0] == value[|value| - 1] && (value[0] == '"' || value[0] == '\'') then value[1..|value| - 1]
    else value
  }

  /** What the loader makes of a value. */
  function Clean(value: string): string {
    Unquote(Trim(value))
  }

  function ParseLine(line: string): Option<(string, string)> {
    var t := Trim(line);
    if t == "" || t[0] == '#' then None
    else match Find(t, "=")
         case None => None
         case Some(p) =>
           var key := Trim(t[..p]);
           if key == "" then None else Some((key, Clean(t[p + 1..])))
  }

  predicate Names(line: string, key: string) {
    ParseLine(line).Some? && ParseLine(line).value.0 == key
  }

  /** The first line that names the key decides. */
  function Loaded(lines: seq<string>, key: string): Option<string> {
    if lines == [] then None
    else if Names(lines[0], key) then Some(ParseLine(lines[0]).value.1)
    else Loaded(lines[1..], key)
  }

  /** The value the loader takes from a file's text. */
  function Load(text: string, key: string): Option<string> {
    Loaded(Lines(text), key)
  }

  /** A variable name as callers use it: no whitespace at its ends, no `=`, no line break, no comment sign in front. */
  predicate ProperKey(key: string) {
    key != "" && !IsWhitespace(key[0]) && !IsWhitespace(key[|key| - 1]) && '=' !in key && '\n' !in key && key[0] != '#'
  }

  lemma TrimEndAfter(a: string, v: string)
    requires a != "" && !IsWhitespace(a[0]) && !IsWhitespace(a[|a| - 1])
    ensures Trim(a + v) == a + TrimEnd(IsWhitespace, v)
  {
    var post := TrimEndSplits(IsWhitespace, v);
    var m := a + TrimEnd(IsWhitespace, v);
    assert a + v == "" + (m + post);
    TrimIs(IsWhitespace, a + v, "", m, post);
  }

  /** A line `key=value` names the key and holds the cleaned value. */
  lemma ParseKeyLine(key: string, value: string)
    requires ProperKey(key)
    ensures ParseLine(KeyPrefix(key) + value) == Some((key, Clean(value)))
  {
    hide Trim, Find, IsWhitespace;
    var tail := TrimEnd(IsWhitespace, value);
    var t := KeyPrefix(key) + tail;
    assert !IsWhitespace('=') by { EqualsSignIsNoSpace(); }
    TrimEndAfter(KeyPrefix(key), value);
    assert t[|key|..|key| + 1] == "=";
    forall j | 0 <= j < |key| ensures !OccursAt(t, "=", j) {
      assert t[j..j + 1][0] == key[j];
    }
    FindIs(t, "=", |key|);
    assert t[..|key|] == key && t[|key| + 1..] == tail;
    TrimAlready(key);
    TrimOfTrimEnd(value);
  }

  lemma EqualsSignIsNoSpace()
    ensures !IsWhitespace('=')
  {
  }

  lemma TrimAlready(key: string)
    requires key != "" && !IsWhitespace(key[0]) && !IsWhitespace(key[|key| - 1])
    ensures Trim(key) == key
  {
    assert key == "" + (key + "");
    TrimIs(IsWhitespace, key, "", key, "");
  }

  lemma TrimOfTrimEnd(value: string)
    ensures Trim(TrimEnd(IsWhitespace, value)) == Trim(value)
  {
    var post := TrimEndSplits(IsWhitespace, value);
    var v := TrimEnd(IsWhitespace, value);
    assert value == "" + (v + post);
    TrimAround(IsWhitespace, "", v, post);
  }

  /** The loader does not see a carriage return at the end of a line. */
  lemma ParseStripCR(line: string)
    ensures ParseLine(StripCR(line)) == ParseLine(line)
  {
    hide Find;
    if EndsCR(line) {
      var l := StripCR(line);
      assert line == "" + (l + "\r");
      TrimAround(IsWhitespace, "", l, "\r");
    }
  }

  lemma {:induction false} LoadedStripCRs(lines: seq<string>, key: string)
    ensures Loaded(StripCRs(lines), key) == Loaded(lines, key)
  {
    hide ParseLine, StripCR;
    if lines != [] {
      ParseStripCR(lines[0]);
      LoadedStripCRs(lines[1..], key);
    }
  }

  lemma {:induction false} LoadedAppend(a: seq<string>, b: seq<string>, key: string)
    ensures Loaded(a + b, key) == if Loaded(a, key).Some? then Loaded(a, key) else Loaded(b, key)
  {
    hide ParseLine;
    if a == [] {
      assert a + b == b;
    } else {
      assert (a + b)[1..] == a[1..] + b;
      LoadedAppend(a[1..], b, key);
    }
  }

  lemma LoadedOne(line: string, key: string)
    ensures Loaded([line], key) == if Names(line, key) then Some(ParseLine(line).value.1) else None
  {
    hide ParseLine;
    assert [line][1..] == [];
  }

  /** The loader reads written lines as it reads the lines. */
  lemma LoadUnlines(lines: seq<string>, key: string)
    requires AreLines(lines)
    ensures Load(Unlines(lines), key) == Loaded(lines, key)
  {
    hide ParseLine, Unlines, Lines;
    if lines == [] {
      LinesOfUnlines([]);
      LoadedOne("", key);
      BlankNamesNothing();
    } else {
      SplitUnlines(lines);
      LoadedStripCRs(lines, key);
    }
  }

  lemma BlankNamesNothing()
    ensures ParseLine("").None?
  {
  }

  /** Dropping the lines `key=...` does not change what any other key loads. */
  lemma {:induction false} LoadedOthers(lines: seq<string>, key: string, other: string)
    requires ProperKey(key) && other != key
    ensures Loaded(Others(lines, key), other) == Loaded(lines, other)
  {
    hide ParseLine, ProperKey;
    if lines != [] {
      LoadedOthers(lines[1..], key, other);
      if KeyPrefix(key) <= lines[0] {
        var value := lines[0][|KeyPrefix(key)|..];
        assert lines[0] == KeyPrefix(key) + value;
        ParseKeyLine(key, value);
        assert [] + Others(lines[1..], key) == Others(lines[1..], key);
      } else {
        assert ([lines[0]] + Others(lines[1..], key))[1..] == Others(lines[1..], key);
      }
    }
  }

  // ----- what the loader reads -----

  /** Whitespace around the key, around the value and in front of the line is no matter. */
  lemma LoaderReads(lead: string, key: string, gap: string, value: string)
    requires Blank(lead) && Blank(gap)
    requires key != "" && !IsWhitespace(key[0]) && !IsWhitespace(key[|key| - 1]) && '=' !in key && key[0] != '#'
    ensures ParseLine(lead + (key + gap + "=" + value)) == Some((key, Clean(value)))
  {
    hide TrimBy, Find, IsWhitespace, TrimEnd;
    var tail := TrimEnd(IsWhitespace, value);
    var front := key + gap + "=";
    var t := front + tail;
    assert !IsWhitespace('=') by { EqualsSignIsNoSpace(); }
    assert lead + (front + value) == lead + ((front + value) + "");
    TrimAround(IsWhitespace, lead, front + value, "");
    TrimEndAfter(front, value);
    BeforeEquals(key, gap, tail);
    assert key + gap == "" + (key + gap);
    TrimAround(IsWhitespace, "", key, gap);
    TrimAlready(key);
    TrimOfTrimEnd(value);
  }

  lemma BeforeEquals(key: string, gap: string, tail: string)
    requires '=' !in key && Blank(gap)
    ensures var t := key + gap + "=" + tail;
            Find(t, "=") == Some(|key + gap|) && t[..|key + gap|] == key + gap && t[|key + gap| + 1..] == tail
  {
    hide Find, IsWhitespace;
    var t, k := key + gap + "=" + tail, |key + gap|;
    assert !IsWhitespace('=') by { EqualsSignIsNoSpace(); }
    assert t[k..k + 1] == "=";
    forall j | 0 <= j < k ensures !OccursAt(t, "=", j) {
      assert t[j..j + 1][0] == (key + gap)[j] && (key + gap)[j] in key + gap;
    }
    FindIs(t, "=", k);
  }

  /** Blank lines, comments, lines without `=` and lines with nothing in front of it are not read. */
  lemma LoaderSkips(lead: string, line: string)
    requires Blank(lead)
    requires || Blank(line) || (line != "" && (line[0] == '#' || line[0] == '=')) || '=' !in line
    ensures ParseLine(lead + line).None?
  {
    hide TrimBy, Find, IsWhitespace, TrimEnd;
    assert lead + line == lead + (line + "");
    TrimAround(IsWhitespace, lead, line, "");
    if Blank(line) {
      assert line == line + ("" + "");
      TrimIs(IsWhitespace, line, line, "", "");
    } else {
      TrimOfStart(line);
      var t := Trim(line);
      if t != "" && '=' !in line {
        NoneInPart(line, t);
      } else if t != "" && line[0] == '=' {
        assert t[0..1] == "=";
        FindIs(t, "=", 0);
        assert t[..0] == "";
        assert "" == "" + ("" + "");
        TrimIs(IsWhitespace, "", "", "", "");
      }
    }
  }

  lemma NoneInPart(line: string, t: string)
    requires '=' !in line && forall c :: c in t ==> c in line
    ensures Find(t, "=").None?
  {
    hide Find;
    FindNone(t, "=");
    forall j ensures !OccursAt(t, "=", j) {
      if 0 <= j < |t| {
        assert t[j..j + 1][0] == t[j] && t[j] in t;
      }
    }
  }

  lemma TrimOfStart(line: string)
    ensures forall c :: c in Trim(line) ==> c in line
    ensures line != "" && (line[0] == '#' || line[0] == '=') ==> Trim(line) != "" && Trim(line)[0] == line[0]
  {
    var pre, post := TrimSplits(IsWhitespace, line);
    if line != "" && (line[0] == '#' || line[0] == '=') {
      assert (pre + post) != "" ==> (pre + post)[0] in pre + post;
      assert pre == "";
    }
  }

  /** A value without quotes at both ends loses its outer whitespace; a quoted one is what is inside. */
  lemma LoadedValue(lead: string, value: string, trail: string)
    requires Blank(lead) && Blank(trail)
    ensures Clean(lead + (("\"" + (value + "\"")) + trail)) == value
    ensures Clean(lead + (("'" + (value + "'")) + trail)) == value
    ensures value != "" && !IsWhitespace(value[0]) && !IsWhitespace(value[|value| - 1])
            && !(|value| >= 2 && value[0] == value[|value| - 1] && value[0] in "\"'") ==>
              Clean(lead + (value + trail)) == value
    ensures Clean(lead + trail) == ""
  {
    hide TrimBy, IsWhitespace;
    NoSpaces();
    TrimAround(IsWhitespace, lead, "\"" + (value + "\""), trail);
    TrimAround(IsWhitespace, lead, "'" + (value + "'"), trail);
    TrimAround(IsWhitespace, lead, value, trail);
    TrimAlready("\"" + (value + "\""));
    TrimAlready("'" + (value + "'"));
    assert ("\"" + (value + "\""))[1..|value| + 1] == value;
    assert ("'" + (value + "'"))[1..|value| + 1] == value;
    if value != "" && !IsWhitespace(value[0]) && !IsWhitespace(value[|value| - 1]) {
      TrimAlready(value);
    }
    assert lead + trail == lead + ("" + trail);
    TrimIs(IsWhitespace, lead + trail, lead, "", trail);
  }

  lemma NoSpaces()
    ensures !IsWhitespace('"') && !IsWhitespace('\'')
  {
  }

  // ----- the file as a map -----

  /** What a key still loads from lines that spell it in another way, such as with a space before the `=`. */
  function Respelled(text: string, key: string): Option<string> {
    Loaded(Others(Lines(text), key), key)
  }

  /** After a write the key loads the value, unless a respelled line comes first; other keys load what they did. */
  lemma AfterWrite(text: string, key: string, value: string, k: string)
    requires ProperKey(key) && '\n' !in value
    ensures Load(Written(text, key, value), k)
         == if k != key then Load(text, k)
            else if Respelled(text, key).Some? then Respelled(text, key) else Some(Clean(value))
  {
    hide ParseLine, Lines, Clean;
    var others, line := Others(Lines(text), key), KeyPrefix(key) + value;
    LinesAreLines(text);
    OthersAreLines(Lines(text), key);
    LoadUnlines(others + [line], k);
    LoadedAppend(others, [line], k);
    LoadedOne(line, k);
    ParseKeyLine(key, value);
    if k != key {
      LoadedOthers(Lines(text), key, k);
    }
  }

  /** After a removal the key loads nothing, unless from a respelled line; other keys load what they did. */
  lemma AfterRemove(text: string, key: string, k: string)
    requires ProperKey(key)
    ensures Load(Removed(text, key), k) == if k != key then Load(text, k) else Respelled(text, key)
  {
    hide ParseLine, Lines;
    LinesAreLines(text);
    OthersAreLines(Lines(text), key);
    LoadUnlines(Others(Lines(text), key), k);
    if k != key {
      LoadedOthers(Lines(text), key, k);
    }
  }

  /** Neither is a last line lost that does not end with a line feed. */
  lemma UnterminatedIsKept(lines: seq<string>, k: string, v: string, key: string, value: string)
    requires AreLines(lines) && ProperKey(k) && '\n' !in v && Loaded(lines, k).None?
    requires ProperKey(key) && key != k && '\n' !in value
    ensures var text := Join("\n", lines + [k + "=" + v]);
            Load(Written(text, key, value), k) == Load(text, k) == Some(Clean(v))
  {
    hide ParseLine, IsWhitespace, Clean, Lines;
    var last := KeyPrefix(k) + v;
    var all := lines + [last];
    AfterWrite(Join("\n", all), key, value, k);
    LinesOfJoin(all);
    assert all[..|lines|] == lines;
    LoadedStripCRs(lines, k);
    LoadedAppend(StripCRs(lines), [last], k);
    LoadedOne(last, k);
    ParseKeyLine(k, v);
  }

  /** A write to a file without the key puts one line at its end, behind a line feed if there is none. */
  lemma {:induction false} WriteAppends(lines: seq<string>, key: string, value: string)
    requires AreLines(lines) && lines != [] && forall i :: 0 <= i < |lines| ==> !(key + "=" <= lines[i]) && !EndsCR(lines[i])
    ensures var text := Join("\n", lines);
            && Written(text + "\n", key, value) == text + "\n" + (key + "=" + value) + "\n"
            && (lines[|lines| - 1] != "" ==> Written(text, key, value) == text + "\n" + (key + "=" + value) + "\n")
    ensures Written("", key, value) == key + "=" + value + "\n"
  {
    hide Lines, Join, Others, EndsCR, Written;
    OthersOfOthers(lines, key);
    CleanLines(lines);
    AppendsTo(Join("\n", lines) + "\n", lines, key, value);
    AppendsTo(Join("\n", lines), lines, key, value);
    WriteToEmpty(key, value);
  }

  lemma {:induction false} CleanLines(lines: seq<string>)
    requires AreLines(lines) && lines != [] && forall i :: 0 <= i < |lines| ==> !EndsCR(lines[i])
    ensures Lines(Join("\n", lines) + "\n") == lines
    ensures lines[|lines| - 1] != "" ==> Lines(Join("\n", lines)) == lines
  {
    hide Lines, Join, EndsCR, StripCRs, AreLines;
    var n := |lines| - 1;
    SplitUnlines(lines);
    NothingStripped(lines);
    if lines[n] != "" {
      LinesOfJoin(lines);
      FrontClean(lines, n);
      assert lines[..n] + [lines[n]] == lines;
    }
  }

  lemma FrontClean(lines: seq<string>, n: nat)
    requires n <= |lines| && forall i :: 0 <= i < |lines| ==> !EndsCR(lines[i])
    ensures StripCRs(lines[..n]) == lines[..n]
  {
    hide EndsCR, StripCRs;
    var front := lines[..n];
    forall i | 0 <= i < n ensures !EndsCR(front[i]) {
      assert front[i] == lines[i];
    }
    NothingStripped(front);
  }

  lemma NothingStripped(lines: seq<string>)
    requires forall i :: 0 <= i < |lines| ==> !EndsCR(lines[i])
    ensures StripCRs(lines) == lines
  {
    hide EndsCR;
    StripCRsSame(lines);
  }

  lemma AppendsTo(text: string, lines: seq<string>, key: string, value: string)
    requires lines != [] && Others(lines, key) == lines
    ensures Lines(text) == lines ==> Written(text, key, value) == Join("\n", lines) + "\n" + (key + "=" + value) + "\n"
  {
    hide Lines, Join, Others;
    JoinAppend("\n", lines, key + "=" + value);
  }

  /** The key's line is taken out where it stands; after a write the new one is the last. */
  lemma {:induction false} LineReplaced(before: seq<string>, previous: string, after: seq<string>, key: string, value: string)
    requires AreLines(before + [key + "=" + previous] + after)
    requires forall i :: 0 <= i < |before| ==> !(key + "=" <= before[i]) && !EndsCR(before[i])
    requires forall i :: 0 <= i < |after| ==> !(key + "=" <= after[i]) && !EndsCR(after[i])
    ensures var text := Join("\n", before + [key + "=" + previous] + after) + "\n";
            && Removed(text, key) == Join("\n", before + after) + "\n"
            && Written(text, key, value) == Join("\n", before + after + [key + "=" + value]) + "\n"
  {
    hide Lines, Join, EndsCR, StripCR, Others;
    var line := KeyPrefix(key) + previous;
    var all := before + [line] + after;
    SplitUnlines(all);
    OthersStripCRs(all, key);
    OthersKeep(before, line, after, key);
    OthersOfOthers(before, key);
    OthersOfOthers(after, key);
    assert before + [] + after == before + after;
    StripCRsSame(before + after);
  }

  lemma WriteToEmpty(key: string, value: string)
    ensures Written("", key, value) == key + "=" + value + "\n"
  {
    var line := KeyPrefix(key) + value;
    assert Others(Lines(""), key) + [line] == [line];
  }

  lemma {:induction false} OthersOfOthers(lines: seq<string>, key: string)
    requires forall i :: 0 <= i < |lines| ==> !(KeyPrefix(key) <= lines[i])
    ensures Others(lines, key) == lines
  {
    if lines != [] {
      OthersOfOthers(lines[1..], key);
      assert lines == [lines[0]] + lines[1..];
    }
  }

  /** Exactly the lines that begin with the key and an equals sign go, wherever they stand; the others stay in order. */
  lemma OthersKeep(before: seq<string>, line: string, after: seq<string>, key: string)
    ensures Others(before + [line] + after, key)
         == Others(before, key) + (if key + "=" <= line then [] else [line]) + Others(after, key)
    ensures Others([], key) == []
  {
    OthersAppend(before + [line], after, key);
    OthersAppend(before, [line], key);
    OthersOne(line, key);
  }

  /** The written value is the loaded one exactly when it has no outer whitespace or quotes and no respelled line overrides it. */
  lemma WriteThenLoad(text: string, key: string, value: string)
    requires ProperKey(key) && '\n' !in value
    ensures Load(Written(text, key, value), key) == Some(value)
       <==> if Respelled(text, key).Some? then Respelled(text, key).value == value
            else Trim(value) == value && Unquote(value) == value
  {
    hide Load, Written, Respelled, Trim;
    AfterWrite(text, key, value, key);
    TrimShorter(value);
  }

  lemma TrimShorter(value: string)
    ensures |Trim(value)| <= |value| && (|Trim(value)| == |value| ==> Trim(value) == value)
  {
    var pre, post := TrimSplits(IsWhitespace, value);
  }

  /** A line with a space before its `=` survives the write and wins over it. */
  lemma RespelledWins()
    ensures Load(Written("K =old\n", "K", "new"), "K") == Some("old")
  {
    hide ParseLine, Lines, Trim, Load, Written, Others;
    SpacedLine();
    AfterWrite("K =old\n", "K", "new", "K");
  }

  lemma SpacedLine()
    ensures ProperKey("K") && Respelled("K =old\n", "K") == Some("old")
  {
    hide ParseLine, SplitInclusive, Others, Loaded;
    var line := "K =old";
    LinesOfOne(line);
    assert line + "\n" == "K =old\n";
    OthersOne(line, "K");
    assert !(KeyPrefix("K") <= line) by { assert line[1] == ' '; }
    LoadedOne(line, "K");
    ParseSpaced();
  }

  lemma LinesOfOne(line: string)
    requires '\n' !in line && !EndsCR(line)
    ensures Lines(line + "\n") == [line]
  {
    hide SplitInclusive;
    SplitLine(line);
    var piece: string := line + "\n";
    assert [piece][1..] == [] && piece[..|piece| - 1] == line;
    assert StripLineEnd(piece) == line;
    assert StripLineEnds([piece]) == [line] + StripLineEnds([]);
  }

  lemma ParseSpaced()
    ensures ParseLine("K =old") == Some(("K", "old"))
  {
    hide Find, Trim;
    TrimAlready("K =old");
    assert "K =old"[2..3] == "=";
    assert "K =old"[0..1] == "K" && "K =old"[1..2] == " ";
    FindIs("K =old", "=", 2);
    assert "K =old"[..2] == "K " && "K =old"[3..] == "old";
    TrimKeySpace();
    TrimAlready("old");
  }

  lemma TrimKeySpace()
    ensures Trim("K ") == "K"
  {
    assert "K " == "" + ("K" + " ");
    TrimIs(IsWhitespace, "K ", "", "K", " ");
  }

  // ----- one helper after the other -----

  lemma {:induction false} OthersStripCRs(lines: seq<string>, key: string)
    ensures Others(StripCRs(lines), key) == StripCRs(Others(lines, key))
  {
    if lines != [] {
      OthersStripCRs(lines[1..], key);
      assert KeyPrefix(key) <= StripCR(lines[0]) <==> KeyPrefix(key) <= lines[0] by {
        if EndsCR(lines[0]) && KeyPrefix(key) <= lines[0] {
          assert lines[0][|key|] == '=';
        }
      }
      if KeyPrefix(key) <= lines[0] {
        assert [] + Others(lines[1..], key) == Others(lines[1..], key);
      } else {
        assert ([lines[0]] + Others(lines[1..], key))[1..] == Others(lines[1..], key);
      }
    }
  }

  lemma {:induction false} OthersTwice(lines: seq<string>, key: string)
    ensures Others(Others(lines, key), key) == Others(lines, key)
  {
    if lines != [] {
      OthersTwice(lines[1..], key);
      OthersAppend(if KeyPrefix(key) <= lines[0] then [] else [lines[0]], Others(lines[1..], key), key);
      OthersOne(lines[0], key);
    }
  }

  /** A written file holds the other lines in order, none of them for the key, and the key's line last. */
  lemma WrittenLines(text: string, key: string, value: string)
    requires '\n' !in key && '\n' !in value
    ensures Lines(Written(text, key, value)) == StripCRs(Others(Lines(text), key)) + [StripCR(KeyPrefix(key) + value)]
    ensures Others(StripCRs(Others(Lines(text), key)), key) == StripCRs(Others(Lines(text), key))
  {
    hide Lines, Unlines;
    var others, line := Others(Lines(text), key), KeyPrefix(key) + value;
    LinesAreLines(text);
    OthersAreLines(Lines(text), key);
    SplitUnlines(others + [line]);
    StripCRsAppend(others, line);
    OthersStripCRs(others, key);
    OthersTwice(Lines(text), key);
  }

  lemma StripCRsAppend(lines: seq<string>, line: string)
    ensures StripCRs(lines + [line]) == StripCRs(lines) + [StripCR(line)]
  {
    StripCRsSame(lines + [line]);
    StripCRsSame(lines);
  }

  /** What is left of a file after a write of the key and its removal. */
  lemma WriteThenRemove(text: string, key: string, value: string)
    requires '\n' !in key && '\n' !in value
    ensures var others := Others(Lines(text), key);
            Removed(Written(text, key, value), key) == Unlines(StripCRs(others)) && Removed(text, key) == Unlines(others)
  {
    hide Lines, Unlines;
    var others, line := Others(Lines(text), key), KeyPrefix(key) + value;
    LinesAreLines(text);
    OthersAreLines(Lines(text), key);
    SplitUnlines(others + [line]);
    OthersStripCRs(others + [line], key);
    OthersAppend(others, [line], key);
    OthersOne(line, key);
    OthersTwice(Lines(text), key);
    assert others + [] == others;
  }

  /** So the detour makes no difference exactly when no other line ends with a carriage return. */
  lemma WriteThenRemoveIff(text: string, key: string, value: string)
    requires '\n' !in key && '\n' !in value
    ensures var others := Others(Lines(text), key);
            Removed(Written(text, key, value), key) == Removed(text, key)
            <==> forall i :: 0 <= i < |others| ==> !EndsCR(others[i])
  {
    hide Lines, Written, Removed;
    var others := Others(Lines(text), key);
    WriteThenRemove(text, key, value);
    StripCRsSame(others);
    if Unlines(StripCRs(others)) == Unlines(others) {
      UnlinesLength(others);
    }
  }

  /** Every stripped carriage return makes the text shorter. */
  lemma {:induction false} UnlinesLength(lines: seq<string>)
    ensures |Unlines(StripCRs(lines))| <= |Unlines(lines)|
    ensures |Unlines(StripCRs(lines))| == |Unlines(lines)| ==> StripCRs(lines) == lines
  {
    hide StripCR;
    if lines != [] {
      var rest := lines[1..];
      StripCRShorter(lines[0]);
      UnlinesLength(rest);
      UnlinesHead(lines[0], rest);
      UnlinesHead(StripCR(lines[0]), StripCRs(rest));
      StripCRsSame(rest);
      assert lines == [lines[0]] + rest;
    }
  }

  lemma StripCRShorter(line: string)
    ensures |StripCR(line)| <= |line| && (|StripCR(line)| == |line| ==> StripCR(line) == line)
  {
  }

  lemma UnlinesHead(first: string, rest: seq<string>)
    ensures |Unlines([first] + rest)| == |first| + if rest == [] then 1 else 1 + |Unlines(rest)|
  {
    assert ([first] + rest)[1..] == rest;
  }
}
