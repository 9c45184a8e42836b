// The streaming loops of the Python and JavaScript SDKs (sdk/python/clawreform_client.py:95-112,
// sdk/javascript/index.js:86-104): the network hands over the text in chunks, and the lines come out whole.

module SseClient {
  import opened Text

  const PREFIX: string := "data: "
  const DONE: string := "[DONE]"

  datatype Language = Python | JavaScript

  /** What an SDK hands to its caller: the parsed data, or the raw data when it is no JSON. */
  datatype Event<J> = Parsed(value: J) | Raw(text: string)

  /** Whitespace that both languages strip. */
  predicate CommonSpace(c: char) {
    || '\t' <= c <= '\r' || c == ' ' || c == '\U{00A0}' || c == '\U{1680}' || '\U{2000}' <= c <= '\U{200A}'
    || c == '\U{2028}' || c == '\U{2029}' || c == '\U{202F}' || c == '\U{205F}' || c == '\U{3000}'
  }

  /** `str.strip` also strips four separators and NEL. */
  predicate PythonSpace(c: char) {
    CommonSpace(c) || '\U{001C}' <= c <= '\U{001F}' || c == '\U{0085}'
  }

  /** `String.prototype.trim` also strips the byte order mark. */
  predicate JavaScriptSpace(c: char) {
    CommonSpace(c) || c == '\U{FEFF}'
  }

  function Strip(lang: Language, line: string): string {
    match lang
    case Python => TrimBy(PythonSpace, line)
    case JavaScript => TrimBy(JavaScriptSpace, line)
  }

  // ----- the whole text at once -----

  /** `split("\n")`: the complete lines, then what follows the last newline. */
  function Split(t: string): (lines: seq<string>)
    ensures lines != []
  {
    if t == "" then [""]
    else if t[0] == '\n' then [""] + Split(t[1..])
    else [[t[0]] + Split(t[1..])[0]] + Split(t[1..])[1..]
  }

  function Complete(t: string): seq<string> {
    Split(t)[..|Split(t)| - 1]
  }

  function Tail(t: string): string {
    Split(t)[|Split(t)| - 1]
  }

  predicate IsData(lang: Language, line: string) {
    PREFIX <= Strip(lang, line)
  }

  function Data(lang: Language, line: string): string
    requires IsData(lang, line)
  {
    Strip(lang, line)[6..]
  }

  predicate IsDone(lang: Language, line: string) {
    IsData(lang, line) && Data(lang, line) == DONE
  }

  function ToEvent<J>(data: string, parse: string -> Option<J>): Event<J> {
    match parse(data)
    case Some(value) => Parsed(value)
    case None => Raw(data)
  }

  /** One event for each data line before the first done line. */
  function Events<J>(lang: Language, lines: seq<string>, parse: string -> Option<J>): seq<Event<J>> {
    if lines == [] || IsDone(lang, lines[0]) then []
    else (if IsData(lang, lines[0]) then [ToEvent(Data(lang, lines[0]), parse)] else []) + Events(lang, lines[1..], parse)
  }

  predicate HasDone(lang: Language, lines: seq<string>) {
    exists i :: 0 <= i < |lines| && IsDone(lang, lines[i])
  }

  /** The unterminated tail is dropped. */
  function StreamEvents<J>(lang: Language, text: string, parse: string -> Option<J>): seq<Event<J>> {
    Events(lang, Complete(text), parse)
  }

  // ----- chunk by chunk -----

  /** The chunks up to the first empty one, which ends a Python stream. */
  function UntilEmpty(chunks: seq<string>): seq<string> {
    if chunks == [] || chunks[0] == "" then [] else [chunks[0]] + UntilEmpty(chunks[1..])
  }

  method PythonStream<J>(chunks: seq<string>, parse: string -> Option<J>) returns (events: seq<Event<J>>)
    ensures events == StreamEvents(Python, Concat(UntilEmpty(chunks)), parse)
  {
    hide IsDone, IsData, Split;
    var whole := Concat(UntilEmpty(chunks));
    events := [];
    var buffer := "";
    EmptyText();
    var k := 0;
    ghost var seen := "";
    while true
      invariant 0 <= k <= |chunks|
      invariant whole == seen + Concat(UntilEmpty(chunks[k..]))
      invariant buffer == Tail(seen) && events == Events(Python, Complete(seen), parse) && !HasDone(Python, Complete(seen))
      decreases |chunks| - k
    {
      if k == |chunks| || chunks[k] == "" {
        break;
      }
      NextChunk(chunks, k, seen);
      var chunk := chunks[k];
      MoreText(seen, chunk);
      ghost var before := Complete(seen);
      seen := seen + chunk;
      buffer := buffer + chunk;
      var lines := Split(buffer);
      buffer := lines[|lines| - 1];
      lines := lines[..|lines| - 1];
      assert before + lines[..0] == before;
      for i := 0 to |lines|
        invariant !HasDone(Python, before + lines[..i])
        invariant events == Events(Python, before + lines[..i], parse)
      {
        OneMoreLine(Python, before, lines, i, parse);
        var line := TrimBy(PythonSpace, lines[i]);
        if PREFIX <= line {
          var data := line[6..];
          if data == DONE {
            StopsHere(Python, before, lines, i, parse);
            TextAfter(seen, Concat(UntilEmpty(chunks[k + 1..])), Python, parse);
            return;
          }
          events := events + [ToEvent(data, parse)];
        }
      }
      assert lines[..|lines|] == lines;
      k := k + 1;
    }
    assert UntilEmpty(chunks[k..]) == [];
    assert whole == seen;
  }

  method JavaScriptStream<J>(chunks: seq<string>, parse: string -> Option<J>) returns (events: seq<Event<J>>)
    ensures events == StreamEvents(JavaScript, Concat(chunks), parse)
  {
    hide IsDone, IsData, Split;
    events := [];
    var buffer := "";
    EmptyText();
    ghost var seen := "";
    for k := 0 to |chunks|
      invariant Concat(chunks) == seen + Concat(chunks[k..])
      invariant buffer == Tail(seen)
      invariant events == Events(JavaScript, Complete(seen), parse) && !HasDone(JavaScript, Complete(seen))
    {
      ghost var rest := Concat(chunks[k + 1..]);
      assert chunks[k..][1..] == chunks[k + 1..];
      Assoc(seen, chunks[k], rest);
      MoreText(seen, chunks[k]);
      ghost var before := Complete(seen);
      seen := seen + chunks[k];
      buffer := buffer + chunks[k];
      var lines := Split(buffer);
      buffer := lines[|lines| - 1];
      lines := lines[..|lines| - 1];
      assert before + lines[..0] == before;
      for i := 0 to |lines|
        invariant !HasDone(JavaScript, before + lines[..i])
        invariant events == Events(JavaScript, before + lines[..i], parse)
      {
        OneMoreLine(JavaScript, before, lines, i, parse);
        var line := TrimBy(JavaScriptSpace, lines[i]);
        if PREFIX <= line {
          var data := line[6..];
          if data == DONE {
            StopsHere(JavaScript, before, lines, i, parse);
            TextAfter(seen, rest, JavaScript, parse);
            return;
          }
          events := events + [ToEvent(data, parse)];
        }
      }
      assert lines[..|lines|] == lines;
    }
    assert chunks[|chunks|..] == [];
    assert seen + "" == seen;
  }

  // ----- lines over chunk borders -----

  lemma EmptyText()
    ensures Tail("") == "" && Complete("") == []
  {
  }

  /** The complete lines only grow, and the tail is all that a later chunk can still change. */
  lemma {:induction false} MoreText(a: string, b: string)
    ensures Complete(a + b) == Complete(a) + Complete(Tail(a) + b)
    ensures Tail(a + b) == Tail(Tail(a) + b)
  {
    hide Split;
    if a == "" {
      EmptyText();
      assert a + b == b && Tail(a) + b == b;
    } else {
      var t := a[1..];
      assert (a + b)[1..] == t + b;
      MoreText(t, b);
      SplitHead(a);
      SplitHead(a + b);
      if a[0] != '\n' && |Split(t)| == 1 {
        Assoc([a[0]], Tail(t), b);
        SplitHead(Tail(a) + b);
        assert (Tail(a) + b)[1..] == Tail(t) + b;
        assert Complete(t) + Complete(Tail(t) + b) == Complete(Tail(t) + b);
      }
    }
  }

  /** The lines of a text from those of its rest. */
  lemma SplitHead(t: string)
    requires t != ""
    ensures var r := t[1..];
            if t[0] == '\n' then Complete(t) == [""] + Complete(r) && Tail(t) == Tail(r)
            else if |Split(r)| == 1 then |Split(t)| == 1 && Complete(t) == [] && Complete(r) == [] && Tail(t) == [t[0]] + Tail(r)
            else
              && |Split(t)| == |Split(r)| && Tail(t) == Tail(r)
              && Complete(r) != [] && Complete(t) == [[t[0]] + Complete(r)[0]] + Complete(r)[1..]
  {
    var r := Split(t[1..]);
    if t[0] == '\n' {
      assert Split(t) == [""] + r;
    } else {
      assert Split(t) == [[t[0]] + r[0]] + r[1..];
    }
  }

  lemma NextChunk(chunks: seq<string>, k: nat, seen: string)
    requires k < |chunks| && chunks[k] != ""
    ensures seen + Concat(UntilEmpty(chunks[k..])) == seen + chunks[k] + Concat(UntilEmpty(chunks[k + 1..]))
  {
    assert chunks[k..][1..] == chunks[k + 1..];
    var rest := UntilEmpty(chunks[k + 1..]);
    assert UntilEmpty(chunks[k..]) == [chunks[k]] + rest;
    assert ([chunks[k]] + rest)[1..] == rest;
    Assoc(seen, chunks[k], Concat(rest));
  }

  // ----- events over chunk borders -----

  /** Events of more lines are more events, unless a done line came first. */
  lemma {:induction false} EventsAppend<J>(lang: Language, a: seq<string>, b: seq<string>, parse: string -> Option<J>)
    ensures Events(lang, a + b, parse) ==
            if HasDone(lang, a) then Events(lang, a, parse) else Events(lang, a, parse) + Events(lang, b, parse)
  {
    hide IsDone, IsData, HasDone, ToEvent;
    HasDoneCons(lang, a);
    if a == [] {
      assert a + b == b;
    } else {
      assert (a + b)[1..] == a[1..] + b;
      EventsAppend(lang, a[1..], b, parse);
    }
  }

  lemma HasDoneCons(lang: Language, a: seq<string>)
    ensures HasDone(lang, a) <==> a != [] && (IsDone(lang, a[0]) || HasDone(lang, a[1..]))
  {
    hide IsDone;
    if HasDone(lang, a) {
      var i :| 0 <= i < |a| && IsDone(lang, a[i]);
      assert i > 0 ==> a[1..][i - 1] == a[i];
    }
    if a != [] && HasDone(lang, a[1..]) {
      var i :| 0 <= i < |a[1..]| && IsDone(lang, a[1..][i]);
      assert a[i + 1] == a[1..][i];
    }
  }

  lemma OneMoreLine<J>(lang: Language, before: seq<string>, lines: seq<string>, i: nat, parse: string -> Option<J>)
    requires i < |lines| && !HasDone(lang, before + lines[..i])
    ensures var line := lines[i];
            && HasDone(lang, before + lines[..i + 1]) == IsDone(lang, line)
            && IsDone(lang, line) == (PREFIX <= Strip(lang, line) && Strip(lang, line)[6..] == DONE)
            && (IsDone(lang, line) ||
                Events(lang, before + lines[..i + 1], parse) ==
                Events(lang, before + lines[..i], parse) +
                if PREFIX <= Strip(lang, line) then [ToEvent(Strip(lang, line)[6..], parse)] else [])
  {
    var sofar, line := before + lines[..i], lines[i];
    assert before + lines[..i + 1] == sofar + [line];
    EventsAppend(lang, sofar, [line], parse);
    assert [line][1..] == [];
    assert (sofar + [line])[|sofar|] == line;
  }

  lemma StopsHere<J>(lang: Language, before: seq<string>, lines: seq<string>, i: nat, parse: string -> Option<J>)
    requires i < |lines| && IsDone(lang, lines[i]) && !HasDone(lang, before + lines[..i])
    ensures HasDone(lang, before + lines)
    ensures Events(lang, before + lines, parse) == Events(lang, before + lines[..i], parse)
  {
    hide IsDone, IsData;
    assert before + lines == before + lines[..i] + lines[i..];
    EventsAppend(lang, before + lines[..i], lines[i..], parse);
    assert (before + lines)[|before| + i] == lines[i];
  }

  lemma TextAfter<J>(seen: string, rest: string, lang: Language, parse: string -> Option<J>)
    requires HasDone(lang, Complete(seen))
    ensures StreamEvents(lang, seen + rest, parse) == StreamEvents(lang, seen, parse)
  {
    MoreText(seen, rest);
    EventsAppend(lang, Complete(seen), Complete(Tail(seen) + rest), parse);
  }

  // ----- the two languages -----

  /** The six characters that one language strips and the other does not. */
  predicate StrippedByOne(c: char) {
    PythonSpace(c) != JavaScriptSpace(c)
  }

  predicate EitherSpace(c: char) {
    PythonSpace(c) || JavaScriptSpace(c)
  }

  /** The character has nothing but whitespace, of either language, on one side. */
  predicate Outer(line: string, i: nat)
    requires i < |line|
  {
    (forall k :: 0 <= k <= i ==> EitherSpace(line[k])) || (forall k :: i <= k < |line| ==> EitherSpace(line[k]))
  }

  /** The two languages strip a line alike exactly when none of the six characters is in its outer whitespace. */
  lemma SameStripIff(line: string)
    ensures Strip(Python, line) == Strip(JavaScript, line)
       <==> forall i :: 0 <= i < |line| && Outer(line, i) ==> !StrippedByOne(line[i])
  {
    hide PythonSpace, JavaScriptSpace, TrimBy;
    if i :| 0 <= i < |line| && Outer(line, i) && StrippedByOne(line[i]) {
      if forall k :: 0 <= k <= i ==> EitherSpace(line[k]) {
        LeftDiffers(line, i);
      } else {
        RightDiffers(line, i);
      }
    } else {
      OuterIsCommon(line);
    }
  }

  lemma OuterIsCommon(line: string)
    requires forall i :: 0 <= i < |line| && Outer(line, i) ==> !StrippedByOne(line[i])
    ensures TrimBy(PythonSpace, line) == TrimBy(JavaScriptSpace, line)
  {
    hide PythonSpace, JavaScriptSpace, TrimBy;
    var pre, post := TrimSplits(EitherSpace, line);
    var m := TrimBy(EitherSpace, line);
    assert line == pre + (m + post);
    forall c | c in pre || c in post ensures PythonSpace(c) && JavaScriptSpace(c) {
      OuterChar(line, pre, m, post, c);
    }
    TrimIs(PythonSpace, line, pre, m, post);
    TrimIs(JavaScriptSpace, line, pre, m, post);
  }

  lemma OuterChar(line: string, pre: string, m: string, post: string, c: char)
    requires line == pre + (m + post) && forall c :: c in pre + post ==> EitherSpace(c)
    requires c in pre || c in post
    ensures EitherSpace(c) && exists i :: 0 <= i < |line| && Outer(line, i) && line[i] == c
  {
    hide EitherSpace;
    assert forall k :: 0 <= k < |pre| ==> line[k] == pre[k] && pre[k] in pre + post;
    var n := |pre| + |m|;
    assert forall k :: n <= k < |line| ==> line[k] == post[k - n] && post[k - n] in pre + post;
    if c in pre {
      var i :| 0 <= i < |pre| && pre[i] == c;
      assert line[i] == c && Outer(line, i);
    } else {
      var i :| 0 <= i < |post| && post[i] == c;
      assert line[n + i] == c && Outer(line, n + i);
    }
  }

  lemma {:induction false} LeftDiffers(line: string, i: nat)
    requires i < |line| && StrippedByOne(line[i]) && forall k :: 0 <= k <= i ==> EitherSpace(line[k])
    ensures TrimBy(PythonSpace, line) != TrimBy(JavaScriptSpace, line)
  {
    hide PythonSpace, JavaScriptSpace, TrimBy;
    if StrippedByOne(line[0]) {
      EndsDiffer(PythonSpace, JavaScriptSpace, line);
      EndsDiffer(JavaScriptSpace, PythonSpace, line);
    } else {
      LeftDiffers(line[1..], i - 1);
      assert line == [line[0]] + (line[1..] + "");
      TrimAround(PythonSpace, [line[0]], line[1..], "");
      TrimAround(JavaScriptSpace, [line[0]], line[1..], "");
    }
  }

  lemma {:induction false} RightDiffers(line: string, i: nat)
    requires i < |line| && StrippedByOne(line[i]) && forall k :: i <= k < |line| ==> EitherSpace(line[k])
    ensures TrimBy(PythonSpace, line) != TrimBy(JavaScriptSpace, line)
  {
    hide PythonSpace, JavaScriptSpace, TrimBy;
    var n := |line| - 1;
    if StrippedByOne(line[n]) {
      EndsDiffer(PythonSpace, JavaScriptSpace, line);
      EndsDiffer(JavaScriptSpace, PythonSpace, line);
    } else {
      RightDiffers(line[..n], i);
      assert line == "" + (line[..n] + [line[n]]);
      TrimAround(PythonSpace, "", line[..n], [line[n]]);
      TrimAround(JavaScriptSpace, "", line[..n], [line[n]]);
    }
  }

  /** A character at an end of the line that only one trimming removes. */
  lemma EndsDiffer(ws1: char -> bool, ws2: char -> bool, line: string)
    ensures line != "" && ((ws1(line[0]) && !ws2(line[0])) || (ws1(line[|line| - 1]) && !ws2(line[|line| - 1]))) ==>
              TrimBy(ws1, line) != TrimBy(ws2, line)
  {
    hide TrimBy;
    var pre1, post1 := TrimSplits(ws1, line);
    var pre, post := TrimSplits(ws2, line);
    var t := TrimBy(ws2, line);
    if line != "" && ws1(line[0]) && !ws2(line[0]) {
      assert (pre + post) != "" ==> (pre + post)[0] in pre + post;
      assert pre == "" && t != "" && t[0] == line[0];
    } else if line != "" && ws1(line[|line| - 1]) && !ws2(line[|line| - 1]) {
      var n := |pre + post|;
      assert n > 0 ==> (pre + post)[n - 1] in pre + post;
      assert post == "" && t != "" && t[|t| - 1] == line[|line| - 1];
    }
  }

  /**
   * Where none of those characters is in the outer whitespace of a complete line, the two SDKs yield the same
   * events, whatever stands inside the lines.
   */
  lemma LanguagesAgree<J>(text: string, parse: string -> Option<J>)
    requires forall j, i :: 0 <= j < |Complete(text)| && 0 <= i < |Complete(text)[j]| && Outer(Complete(text)[j], i) ==>
               !StrippedByOne(Complete(text)[j][i])
    ensures StreamEvents(Python, text, parse) == StreamEvents(JavaScript, text, parse)
  {
    hide Outer, StrippedByOne;
    var lines := Complete(text);
    forall j | 0 <= j < |lines| ensures Strip(Python, lines[j]) == Strip(JavaScript, lines[j]) {
      SameStripIff(lines[j]);
    }
    SameEvents(lines, parse);
  }

  lemma {:induction false} SameEvents<J>(lines: seq<string>, parse: string -> Option<J>)
    requires forall i :: 0 <= i < |lines| ==> Strip(Python, lines[i]) == Strip(JavaScript, lines[i])
    ensures Events(Python, lines, parse) == Events(JavaScript, lines, parse)
  {
    hide Strip;
    if lines != [] {
      SameEvents(lines[1..], parse);
    }
  }

  /** Each of those characters, put before a data line, makes the line an event in one language only. */
  lemma LanguagesDiffer<J>(c: char, parse: string -> Option<J>)
    requires StrippedByOne(c)
    ensures StreamEvents(Python, [c] + "data: x\n", parse) != StreamEvents(JavaScript, [c] + "data: x\n", parse)
  {
    var line := [c] + "data: x";
    var text := [c] + "data: x\n";
    assert text == line + "\n";
    OneLine(line);
    assert [line, ""][..1] == [line];
    assert Complete(text) == [line];
    StripOne(Python, c);
    StripOne(JavaScript, c);
    assert c != 'd' && line[0] == c && "data: x"[..6] == PREFIX && "data: x"[6..] == "x";
    EventsOfOne(Python, line, parse);
    EventsOfOne(JavaScript, line, parse);
  }

  lemma EventsOfOne<J>(lang: Language, line: string, parse: string -> Option<J>)
    ensures |Events(lang, [line], parse)| == if IsData(lang, line) && !IsDone(lang, line) then 1 else 0
  {
    assert [line][1..] == [];
  }

  lemma StripOne(lang: Language, c: char)
    ensures var ws := if lang.Python? then PythonSpace(c) else JavaScriptSpace(c);
            Strip(lang, [c] + "data: x") == if ws then "data: x" else [c] + "data: x"
  {
    match lang
    case Python => TrimDataLine(PythonSpace, c);
    case JavaScript => TrimDataLine(JavaScriptSpace, c);
  }

  lemma TrimDataLine(ws: char -> bool, c: char)
    requires !ws('d') && !ws('x')
    ensures TrimBy(ws, [c] + "data: x") == if ws(c) then "data: x" else [c] + "data: x"
  {
    var line := [c] + "data: x";
    if ws(c) {
      TrimStartIs(ws, line, [c], "data: x");
      TrimEndIs(ws, "data: x", "data: x", "");
    } else {
      TrimStartIs(ws, line, "", line);
      TrimEndIs(ws, line, line, "");
    }
  }

  lemma {:induction false} OneLine(line: string)
    requires '\n' !in line
    ensures Split(line + "\n") == [line, ""]
  {
    if line != "" {
      assert (line + "\n")[1..] == line[1..] + "\n";
      OneLine(line[1..]);
      assert [line[0]] + line[1..] == line;
    } else {
      assert line + "\n" == "\n" && "\n"[1..] == "";
    }
  }

  /** Against the White_Space property: Python adds the four separators, JavaScript drops NEL and adds the byte order mark. */
  lemma SpacesAgainstUnicode(c: char)
    ensures PythonSpace(c) <==> IsWhitespace(c) || c in "\U{001C}\U{001D}\U{001E}\U{001F}"
    ensures JavaScriptSpace(c) <==> (IsWhitespace(c) && c != '\U{0085}') || c == '\U{FEFF}'
    ensures StrippedByOne(c) <==> c in "\U{001C}\U{001D}\U{001E}\U{001F}\U{0085}\U{FEFF}"
  {
  }

  /** A Python stream ends at the first empty chunk, and at the end of the chunks otherwise. */
  lemma {:induction false} PythonEnds(before: seq<string>, after: seq<string>)
    requires "" !in before
    ensures UntilEmpty(before + [""] + after) == before == UntilEmpty(before)
  {
    var all := before + [""] + after;
    if before != [] {
      assert before[0] in before;
      assert all[1..] == before[1..] + [""] + after;
      PythonEnds(before[1..], after);
      assert [before[0]] + before[1..] == before;
    }
  }

  // ----- what comes out of a line -----

  predicate Space(lang: Language, c: char) {
    match lang
    case Python => PythonSpace(c)
    case JavaScript => JavaScriptSpace(c)
  }

  lemma FirstLine(line: string, rest: string)
    requires '\n' !in line
    ensures Complete(line + "\n" + rest) == [line] + Complete(rest)
  {
    hide Split;
    OneLine(line);
    MoreText(line + "\n", rest);
    assert [line, ""][..1] == [line];
    assert "" + rest == rest;
  }

  lemma FirstEvent<J>(lang: Language, line: string, rest: string, parse: string -> Option<J>)
    requires '\n' !in line
    ensures StreamEvents(lang, line + "\n" + rest, parse) ==
            if IsDone(lang, line) then []
            else (if IsData(lang, line) then [ToEvent(Data(lang, line), parse)] else []) + StreamEvents(lang, rest, parse)
  {
    hide IsDone, IsData, Complete;
    FirstLine(line, rest);
    assert ([line] + Complete(rest))[1..] == Complete(rest);
  }

  ghost predicate Spaces(lang: Language, s: string) {
    forall c :: c in s ==> Space(lang, c)
  }

  /** A data line: the parsed value, the raw data where it does not parse, or the end of the stream. */
  lemma DataLine<J>(lang: Language, lead: string, d: string, trail: string, rest: string, parse: string -> Option<J>)
    requires '\n' !in lead + d + trail && d != "" && !Space(lang, d[|d| - 1]) && Spaces(lang, lead) && Spaces(lang, trail)
    ensures StreamEvents(lang, lead + (("data: " + d) + trail) + "\n" + rest, parse) ==
            if d == "[DONE]" then []
            else [if parse(d).Some? then Parsed(parse(d).value) else Raw(d)] + StreamEvents(lang, rest, parse)
  {
    hide StreamEvents, PythonSpace, JavaScriptSpace;
    var line: string := lead + (("data: " + d) + trail);
    SpaceOrNot();
    match lang {
      case Python => TrimIs(PythonSpace, line, lead, "data: " + d, trail);
      case JavaScript => TrimIs(JavaScriptSpace, line, lead, "data: " + d, trail);
    }
    assert Strip(lang, line) == "data: " + d;
    assert ("data: " + d)[6..] == d && ("data: " + d)[..6] == "data: ";
    FirstEvent(lang, line, rest, parse);
  }

  lemma SpaceOrNot()
    ensures !PythonSpace('d') && !JavaScriptSpace('d') && !PythonSpace(':') && !JavaScriptSpace(':')
    ensures PythonSpace(' ') && JavaScriptSpace(' ')
  {
  }

  /** Any other line, a data line with nothing but whitespace in it included, is nothing. */
  lemma OtherLine<J>(lang: Language, lead: string, line: string, rest: string, parse: string -> Option<J>)
    requires '\n' !in lead + line && Spaces(lang, lead) && (line != "" ==> !Space(lang, line[0]))
    requires "data: " <= line ==> Spaces(lang, line[6..])
    ensures StreamEvents(lang, lead + line + "\n" + rest, parse) == StreamEvents(lang, rest, parse)
  {
    hide StreamEvents, PythonSpace, JavaScriptSpace;
    SpaceOrNot();
    assert lead + line == lead + (line + "");
    match lang {
      case Python =>
        NoData(PythonSpace, line);
        TrimAround(PythonSpace, lead, line, "");
      case JavaScript =>
        NoData(JavaScriptSpace, line);
        TrimAround(JavaScriptSpace, lead, line, "");
    }
    FirstEvent(lang, lead + line, rest, parse);
    assert [] + StreamEvents(lang, rest, parse) == StreamEvents(lang, rest, parse);
  }

  lemma NoData(ws: char -> bool, line: string)
    requires (line != "" ==> !ws(line[0])) && ("data: " <= line ==> forall c :: c in line[6..] ==> ws(c))
    requires ws(' ') && !ws('d') && !ws(':')
    ensures !("data: " <= TrimBy(ws, line))
  {
    hide TrimBy;
    if "data: " <= line {
      var trail := " " + line[6..];
      assert line == "" + ("data:" + trail);
      TrimIs(ws, line, "", "data:", trail);
    } else if line == "" {
      assert line == "" + ("" + "");
      TrimIs(ws, line, "", "", "");
    } else {
      KeepsStart(ws, line);
    }
  }

  lemma KeepsStart(ws: char -> bool, line: string)
    requires line != "" && !ws(line[0])
    ensures TrimBy(ws, line) <= line
  {
    var post := TrimEndSplits(ws, line);
  }

  /** A line without its line feed is nothing yet. */
  lemma NoLineYet<J>(lang: Language, tail: string, parse: string -> Option<J>)
    requires '\n' !in tail
    ensures StreamEvents(lang, tail, parse) == []
  {
    NoSplit(tail);
  }

  lemma {:induction false} NoSplit(tail: string)
    requires '\n' !in tail
    ensures Split(tail) == [tail]
  {
    if tail != "" {
      NoSplit(tail[1..]);
      assert [tail[0]] + tail[1..] == tail;
    }
  }
}
