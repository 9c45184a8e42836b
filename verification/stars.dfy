// Single stars in the channel formatter: the Telegram italic toggle
// (crates/clawreform-channels/src/formatter.rs:37-59) and the plain-text star removal (lines 148-167).

module Stars {
  import opened Text

  /** A star with no star next to it. */
  predicate Isolated(s: string, i: nat)
    requires i < |s|
  {
    s[i] == '*' && (i == 0 || s[i - 1] != '*') && (i + 1 >= |s| || s[i + 1] != '*')
  }

  // ----- italic -----

  datatype Token = Plain(c: char) | Open | Close

  function IsolatedBefore(s: string, i: nat): nat
    requires i <= |s|
  {
    if i == 0 then 0 else IsolatedBefore(s, i - 1) + if Isolated(s, i - 1) then 1 else 0
  }

  /** An isolated star opens when an even number of them came before, and closes otherwise. */
  function TokenAt(s: string, i: nat): Token
    requires i < |s|
  {
    if !Isolated(s, i) then Plain(s[i]) else if IsolatedBefore(s, i) % 2 == 0 then Open else Close
  }

  function Tokens(s: string, i: nat): (tokens: seq<Token>)
    requires i <= |s|
    ensures |tokens| == i
    ensures forall k :: 0 <= k < i ==> tokens[k] == TokenAt(s, k)
  {
    if i == 0 then [] else Tokens(s, i - 1) + [TokenAt(s, i - 1)]
  }

  function Render(tokens: seq<Token>): string {
    if tokens == [] then ""
    else Render(tokens[..|tokens| - 1]) + Shown(tokens[|tokens| - 1])
  }

  function Shown(t: Token): string {
    match t
    case Plain(c) => [c]
    case Open => "<i>"
    case Close => "</i>"
  }

  method Italicize(text: string) returns (out: string)
    ensures out == Render(Tokens(text, |text|))
  {
    hide Render, Tokens;
    out := "";
    RenderNothing(text);
    var i, inItalic := 0, false;
    while i < |text|
      invariant 0 <= i <= |text|
      invariant inItalic == (IsolatedBefore(text, i) % 2 == 1)
      invariant out == Render(Tokens(text, i))
    {
      RenderNext(text, i);
      if text[i] == '*' && (i == 0 || text[i - 1] != '*') && (i + 1 >= |text| || text[i + 1] != '*') {
        if inItalic {
          out := out + "</i>";
        } else {
          out := out + "<i>";
        }
        inItalic := !inItalic;
      } else {
        out := out + [text[i]];
      }
      i := i + 1;
    }
  }

  lemma RenderNext(s: string, i: nat)
    requires i < |s|
    ensures Render(Tokens(s, i + 1)) == Render(Tokens(s, i)) + Shown(TokenAt(s, i))
  {
    var tokens := Tokens(s, i);
    assert (tokens + [TokenAt(s, i)])[..i] == tokens;
  }

  lemma RenderNothing(s: string)
    ensures Render(Tokens(s, 0)) == ""
  {
  }

  ghost predicate NoStarAlone(s: string) {
    forall k :: 0 <= k < |s| && s[k] == '*' ==> StarBeside(s, k)
  }

  predicate StarBeside(s: string, k: nat)
    requires k < |s|
  {
    (k > 0 && s[k - 1] == '*') || (k + 1 < |s| && s[k + 1] == '*')
  }

  /** Where every star has a star beside it, the text stays as it is. */
  lemma {:induction false} StarRunsStay(s: string, i: nat)
    requires i <= |s| && NoStarAlone(s)
    ensures Render(Tokens(s, i)) == s[..i]
  {
    hide Render, Tokens;
    if i == 0 {
      RenderNothing(s);
    } else {
      StarRunsStay(s, i - 1);
      RenderNext(s, i - 1);
      assert s[..i] == s[..i - 1] + [s[i - 1]];
      assert TokenAt(s, i - 1) == Plain(s[i - 1]) by {
        assert s[i - 1] == '*' ==> StarBeside(s, i - 1);
      }
    }
  }

  /** Open tags after the tokens; -1 once a tag is closed that was not open or opened twice. */
  function Depth(tokens: seq<Token>): int {
    if tokens == [] then 0
    else
      var d := Depth(tokens[..|tokens| - 1]);
      match tokens[|tokens| - 1]
      case Plain(_) => d
      case Open => if d == 0 then 1 else -1
      case Close => if d == 1 then 0 else -1
  }

  /** Italic tags never overlap, and one is left open exactly when the text has an odd number of isolated stars. */
  lemma {:induction false} ItalicNests(s: string, i: nat)
    requires i <= |s|
    ensures Depth(Tokens(s, i)) == IsolatedBefore(s, i) % 2
  {
    if i > 0 {
      ItalicNests(s, i - 1);
      var before := Tokens(s, i - 1);
      assert (before + [TokenAt(s, i - 1)])[..i - 1] == before;
    }
  }

  /** Only stars that are not isolated are shown as stars, and other characters are all shown. */
  lemma {:induction false} ItalicCounts(s: string, i: nat, d: char)
    requires i <= |s| && d !in "<i>" && d !in "</i>"
    ensures Count(d, Render(Tokens(s, i))) == if d == '*' then StarsLeft(s, i) else Count(d, s[..i])
  {
    hide Count, Render, Tokens;
    if i > 0 {
      ItalicCounts(s, i - 1, d);
      RenderNext(s, i - 1);
      CountConcat(d, Render(Tokens(s, i - 1)), Shown(TokenAt(s, i - 1)));
      assert s[..i] == s[..i - 1] + [s[i - 1]];
      CountConcat(d, s[..i - 1], [s[i - 1]]);
      CountSingle(d, s[i - 1]);
      ShownCount(s, i - 1, d);
    } else {
      RenderNothing(s);
      CountAbsent(d, "");
    }
  }

  lemma ShownCount(s: string, i: nat, d: char)
    requires i < |s| && d !in "<i>" && d !in "</i>"
    ensures Count(d, Shown(TokenAt(s, i))) == if s[i] == d && !Isolated(s, i) then 1 else 0
  {
    hide Count;
    CountAbsent(d, "<i>");
    CountAbsent(d, "</i>");
    CountSingle(d, s[i]);
  }

  lemma CountSingle(d: char, c: char)
    ensures Count(d, [c]) == if c == d then 1 else 0
  {
    assert [c][1..] == "";
  }

  /** Stars among the first `i` characters that have a star next to them. */
  function StarsLeft(s: string, i: nat): nat
    requires i <= |s|
  {
    if i == 0 then 0 else StarsLeft(s, i - 1) + if s[i - 1] == '*' && !Isolated(s, i - 1) then 1 else 0
  }

  /** When all double stars start at `k` or right after it, at most three stars have a neighbour. */
  lemma {:induction false} FewStarsLeft(s: string, k: nat, i: nat)
    requires i <= |s|
    requires forall j :: 0 <= j < |s| - 1 && s[j] == '*' && s[j + 1] == '*' ==> k <= j <= k + 1
    ensures StarsLeft(s, i) <= (if i <= k then 0 else if i >= k + 3 then 3 else i - k)
  {
    if i > 0 {
      FewStarsLeft(s, k, i - 1);
    }
  }

  // ----- removing single stars -----

  /** `str::replace` with a nonempty pattern: left to right, without overlaps. */
  function ReplaceAll(s: string, p: string, put: string): string
    requires p != ""
    decreases |s|
  {
    if s == "" then ""
    else if p <= s then put + ReplaceAll(s[|p|..], p, put)
    else [s[0]] + ReplaceAll(s[1..], p, put)
  }

  /** The first `i` characters of `s` without the isolated stars. */
  function WithoutIsolated(s: string, i: nat): string
    requires i <= |s|
  {
    if i == 0 then "" else WithoutIsolated(s, i - 1) + if Isolated(s, i - 1) then "" else [s[i - 1]]
  }

  method RemoveIsolated(text: string) returns (out: string)
    ensures out == WithoutIsolated(text, |text|)
  {
    out := "";
    for i := 0 to |text|
      invariant out == WithoutIsolated(text, i)
    {
      var ch := text[i];
      if ch == '*' && (i == 0 || text[i - 1] != '*') && (i + 1 >= |text| || text[i + 1] != '*') {
        continue;
      }
      out := out + [ch];
    }
  }

  predicate NoDoubleStar(s: string) {
    forall i :: 0 <= i < |s| - 1 ==> !(s[i] == '*' && s[i + 1] == '*')
  }

  /** Taking double stars away leaves no double star, and no run is joined to the next. */
  lemma {:induction false} DoubleStarsRemoved(s: string)
    ensures var t := ReplaceAll(s, "**", "");
            NoDoubleStar(t) && Without('*', t) == Without('*', s) && (t != "" && t[0] == '*' ==> s[0] == '*')
    decreases |s|
  {
    if s != "" {
      assert |s| > 1 && s[0] == '*' && s[1] == '*' ==> s[..2] == "**";
      if "**" <= s {
        DoubleStarsRemoved(s[2..]);
        assert s == "**" + s[2..];
        assert Without('*', s) == Without('*', s[1..]) == Without('*', s[2..]) by { assert s[1..][1..] == s[2..]; }
        assert "" + ReplaceAll(s[2..], "**", "") == ReplaceAll(s[2..], "**", "");
      } else {
        var rest := ReplaceAll(s[1..], "**", "");
        DoubleStarsRemoved(s[1..]);
        var t := [s[0]] + rest;
        assert t[1..] == rest;
        assert forall i :: 0 < i < |t| ==> t[i] == rest[i - 1];
      }
    }
  }

  /** Without double stars every star is isolated, so removing the isolated ones removes all. */
  lemma {:induction false} AllIsolated(s: string, i: nat)
    requires i <= |s| && NoDoubleStar(s)
    ensures WithoutIsolated(s, i) == Without('*', s[..i])
  {
    if i > 0 {
      AllIsolated(s, i - 1);
      assert s[..i] == s[..i - 1] + [s[i - 1]];
      WithoutConcat('*', s[..i - 1], [s[i - 1]]);
      assert Isolated(s, i - 1) <==> s[i - 1] == '*' by {
        if i > 1 { assert !(s[i - 2] == '*' && s[i - 1] == '*'); }
        if i < |s| { assert !(s[i - 1] == '*' && s[i] == '*'); }
      }
      assert [s[i - 1]][1..] == "";
    }
  }

  /** The two star removals together delete every star and nothing else. */
  lemma StarsRemoved(s: string)
    ensures var t := ReplaceAll(s, "**", ""); WithoutIsolated(t, |t|) == Without('*', s)
  {
    var t := ReplaceAll(s, "**", "");
    DoubleStarsRemoved(s);
    AllIsolated(t, |t|);
    assert t[..|t|] == t;
  }

  /** Replacing one character by nothing is deleting it. */
  lemma {:induction false} ReplaceOne(s: string, c: char)
    ensures ReplaceAll(s, [c], "") == Without(c, s)
  {
    if s != "" {
      ReplaceOne(s[1..], c);
      assert [c] <= s <==> s[0] == c;
    }
  }
}
