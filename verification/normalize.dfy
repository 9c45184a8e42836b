// Text normalisation for duplicate detection (crates/clawreform-api/src/stream_dedup.rs:77-95).

module Normalization {
  import opened Text

  /** First character of the lowercase form, on ASCII; other characters are left alone. */
  function Lower(c: char): char {
    if 'A' <= c <= 'Z' then (c as int + 32) as char else c
  }

  function LowerAll(s: string): string {
    if s == "" then "" else [Lower(s[0])] + LowerAll(s[1..])
  }

  // ----- the specification: words, lowercased, joined with single spaces -----

  /** The maximal runs of non-whitespace characters. */
  function Words(t: string): (words: seq<string>)
    ensures t != "" && !IsWhitespace(t[0]) ==> words != []
  {
    if t == "" then []
    else if IsWhitespace(t[0]) then Words(t[1..])
    else if t[1..] == "" || IsWhitespace(t[1]) then [[t[0]]] + Words(t[1..])
    else [[t[0]] + Words(t[1..])[0]] + Words(t[1..])[1..]
  }

  function LowerWords(words: seq<string>): seq<string> {
    if words == [] then [] else [LowerAll(words[0])] + LowerWords(words[1..])
  }

  function Normalize(t: string): string {
    Join(" ", LowerWords(Words(t)))
  }

  predicate IsWord(w: string) {
    w != "" && forall c :: c in w ==> !IsWhitespace(c)
  }

  // ----- the loop: collapse whitespace on the way, trim at the end -----

  /** What the loop still writes for `t`, given whether the last thing written was a space. */
  function Collapse(t: string, lastWasSpace: bool): string {
    if t == "" then ""
    else if IsWhitespace(t[0]) then (if lastWasSpace then "" else " ") + Collapse(t[1..], true)
    else [Lower(t[0])] + Collapse(t[1..], false)
  }

  method NormalizeText(text: string) returns (r: string)
    ensures r == Normalize(text)
  {
    var result, lastWasSpace := "", false;
    for i := 0 to |text|
      invariant result + Collapse(text[i..], lastWasSpace) == Collapse(text, false)
    {
      var ch := text[i];
      CollapseStep(text, i, lastWasSpace, result);
      if IsWhitespace(ch) {
        if !lastWasSpace {
          result := result + " ";
          lastWasSpace := true;
        }
      } else {
        result := result + [Lower(ch)];
        lastWasSpace := false;
      }
    }
    assert text[|text|..] == "" && result + "" == result;
    CollapseTrimmed(text);
    r := Trim(result);
  }

  lemma CollapseStep(text: string, i: nat, lastWasSpace: bool, result: string)
    requires i < |text|
    ensures result + Collapse(text[i..], lastWasSpace)
         == if !IsWhitespace(text[i]) then result + [Lower(text[i])] + Collapse(text[i + 1..], false)
            else if lastWasSpace then result + Collapse(text[i + 1..], true)
            else result + " " + Collapse(text[i + 1..], true)
  {
    assert text[i..][0] == text[i] && text[i..][1..] == text[i + 1..];
  }

  // ----- the loop computes the specification -----

  lemma LowerKeepsWhitespace(c: char)
    ensures IsWhitespace(Lower(c)) == IsWhitespace(c)
    ensures Lower(Lower(c)) == Lower(c)
  {
  }

  /** The trailing space the loop leaves. */
  function Tail(t: string): string {
    if Words(t) != [] && IsWhitespace(t[|t| - 1]) then " " else ""
  }

  lemma {:induction false} CollapseIs(t: string)
    ensures Collapse(t, true) == Normalize(t) + Tail(t)
    ensures Words(t) == [] <==> Blank(t)
    ensures t != "" && !IsWhitespace(t[0]) ==> Normalize(t) != "" && Normalize(t)[0] == Lower(t[0])
    decreases |t|
  {
    if t != "" {
      var rest := t[1..];
      CollapseIs(rest);
      LowerKeepsWhitespace(t[0]);
      assert forall c :: c in t <==> c == t[0] || c in rest;
      if rest != "" {
        assert rest[|rest| - 1] == t[|t| - 1];
      }
      if !IsWhitespace(t[0]) {
        CollapseWord(t);
      }
    }
  }

  /** The step of the previous proof at the start or inside of a word. */
  lemma {:induction false} CollapseWord(t: string)
    requires t != "" && !IsWhitespace(t[0])
    requires Collapse(t[1..], true) == Normalize(t[1..]) + Tail(t[1..])
    requires Words(t[1..]) == [] <==> Blank(t[1..])
    ensures Collapse(t, true) == Normalize(t) + Tail(t)
    ensures Normalize(t) != "" && Normalize(t)[0] == Lower(t[0])
  {
    var rest := t[1..];
    CollapseLetter(t);
    if rest == "" {
      assert t == [t[0]];
      NormalizeLetter(t[0]);
    } else {
      TailStep(t);
      if IsWhitespace(rest[0]) {
        NormalizeWordEnd(t);
        Regroup([Lower(t[0])], " ", Normalize(rest), Tail(rest));
      } else {
        NormalizeWordOn(t);
        Regroup([Lower(t[0])], "", Normalize(rest), Tail(rest));
      }
    }
  }

  lemma Regroup(a: string, b: string, c: string, d: string)
    ensures a + (b + (c + d)) == a + (b + c) + d
    ensures b == "" ==> a + (c + d) == a + c + d
  {
  }

  lemma CollapseLetter(t: string)
    requires t != "" && !IsWhitespace(t[0])
    ensures var rest := t[1..];
            Collapse(t, true) ==
            [Lower(t[0])] + if rest != "" && IsWhitespace(rest[0]) then " " + Collapse(rest, true) else Collapse(rest, true)
  {
    var rest := t[1..];
    if rest != "" {
      assert Collapse(rest, false) == if IsWhitespace(rest[0]) then " " + Collapse(rest, true) else Collapse(rest, true);
    }
  }

  lemma TailStep(t: string)
    requires |t| > 1 && !IsWhitespace(t[0])
    requires Words(t[1..]) == [] <==> Blank(t[1..])
    ensures Tail(t) == if Words(t[1..]) == [] then " " else Tail(t[1..])
  {
    var rest := t[1..];
    assert Words(t) != [] && t[|t| - 1] == rest[|rest| - 1];
    assert rest[|rest| - 1] in rest;
  }

  lemma NormalizeLetter(c: char)
    requires !IsWhitespace(c)
    ensures Normalize([c]) == [Lower(c)]
  {
    assert [c][1..] == "";
    assert Words([c]) == [[c]] && [[c]][1..] == [];
    LowerOne(c);
    assert LowerWords([[c]]) == [[Lower(c)]];
  }

  lemma LowerOne(c: char)
    ensures LowerAll([c]) == [Lower(c)]
  {
    assert [c][1..] == "";
  }

  lemma NormalizeWordEnd(t: string)
    requires |t| > 1 && !IsWhitespace(t[0]) && IsWhitespace(t[1])
    ensures Normalize(t) == [Lower(t[0])] + if Words(t[1..]) == [] then "" else " " + Normalize(t[1..])
  {
    var words := Words(t[1..]);
    assert Words(t) == [[t[0]]] + words && Words(t)[1..] == words;
    LowerOne(t[0]);
    assert LowerWords(Words(t)) == [[Lower(t[0])]] + LowerWords(words);
    assert LowerWords(Words(t))[1..] == LowerWords(words);
  }

  lemma {:induction false} NormalizeWordOn(t: string)
    requires |t| > 1 && !IsWhitespace(t[0]) && !IsWhitespace(t[1])
    ensures Normalize(t) == [Lower(t[0])] + Normalize(t[1..])
    ensures Words(t[1..]) != [] && Words(t) != []
  {
    var words := Words(t[1..]);
    assert Words(t) == Longer(t[0], words);
    LowerLonger(t[0], words);
    JoinLonger(Lower(t[0]), LowerWords(words));
  }

  /** The words with one more character at the front of the first. */
  function Longer(c: char, words: seq<string>): seq<string>
    requires words != []
  {
    [[c] + words[0]] + words[1..]
  }

  lemma LowerLonger(c: char, words: seq<string>)
    requires words != []
    ensures LowerWords(words) != [] && LowerWords(Longer(c, words)) == Longer(Lower(c), LowerWords(words))
  {
    var w := [c] + words[0];
    assert LowerAll(w) == [Lower(c)] + LowerAll(words[0]) by { assert w[1..] == words[0]; }
    assert Longer(c, words)[1..] == words[1..];
    assert LowerWords(words)[1..] == LowerWords(words[1..]);
  }

  lemma JoinLonger(c: char, words: seq<string>)
    requires words != []
    ensures Join(" ", Longer(c, words)) == [c] + Join(" ", words)
  {
    if |words| > 1 {
      assert Longer(c, words)[1..] == words[1..];
      assert ([c] + words[0]) + " " + Join(" ", words[1..]) == [c] + (words[0] + " " + Join(" ", words[1..]));
    }
  }

  predicate AllWords(words: seq<string>) {
    forall i :: 0 <= i < |words| ==> IsWord(words[i])
  }

  lemma {:induction false} WordsAreWords(t: string)
    ensures AllWords(Words(t))
  {
    if t != "" {
      WordsAreWords(t[1..]);
    }
  }

  lemma {:induction false} LowerWordsAreWords(words: seq<string>)
    requires AllWords(words)
    ensures AllWords(LowerWords(words)) && |LowerWords(words)| == |words|
  {
    if words != [] {
      LowerIsWord(words[0]);
      LowerWordsAreWords(words[1..]);
    }
  }

  lemma {:induction false} LowerIsWord(w: string)
    ensures |LowerAll(w)| == |w|
    ensures IsWord(w) ==> IsWord(LowerAll(w))
    ensures LowerAll(LowerAll(w)) == LowerAll(w)
  {
    if w != "" {
      LowerKeepsWhitespace(w[0]);
      LowerIsWord(w[1..]);
      assert LowerAll(w)[1..] == LowerAll(w[1..]);
      if IsWord(w) && w[1..] != "" {
        assert forall c :: c in w[1..] ==> c in w;
        assert IsWord(w[1..]);
      }
    }
  }

  /** Words joined with spaces begin and end with a word. */
  lemma {:induction false} JoinedEnds(words: seq<string>)
    requires AllWords(words) && words != []
    ensures var j := Join(" ", words); j != "" && !IsWhitespace(j[0]) && !IsWhitespace(j[|j| - 1])
  {
    if |words| > 1 {
      JoinedEnds(words[1..]);
    }
  }

  lemma CollapseTrimmed(t: string)
    ensures Trim(Collapse(t, false)) == Normalize(t)
  {
    var words := LowerWords(Words(t));
    CollapseIs(t);
    WordsAreWords(t);
    LowerWordsAreWords(Words(t));
    var lead := if t != "" && IsWhitespace(t[0]) then " " else "";
    assert Collapse(t, false) == lead + (Normalize(t) + Tail(t));
    if words == [] {
      assert Collapse(t, false) == lead + "" == lead;
      TrimStartIs(IsWhitespace, lead, lead, "");
    } else {
      JoinedEnds(words);
      TrimStartIs(IsWhitespace, Collapse(t, false), lead, Normalize(t) + Tail(t));
      TrimEndIs(IsWhitespace, Normalize(t) + Tail(t), Normalize(t), Tail(t));
    }
  }

  // ----- what normalisation forgets, and nothing else -----

  /** A nonempty whitespace run separates the words on its two sides. */
  lemma {:induction false} WordsApart(a: string, run: string, b: string)
    requires run != "" && Blank(run)
    ensures Words(a + run + b) == Words(a) + Words(b)
    decreases |a| + |run|
  {
    hide IsWhitespace;
    if a != "" {
      WordsApart(a[1..], run, b);
      assert (a + run + b)[1..] == a[1..] + run + b;
      if !IsWhitespace(a[0]) && a[1..] == "" {
        assert (a + run + b)[1] == run[0] && run[0] in run;
      }
    } else {
      assert a + run + b == run + b && run[0] in run;
      assert (run + b)[1..] == run[1..] + b;
      if run[1..] == "" {
        assert run[1..] + b == b;
      } else {
        assert forall c :: c in run[1..] ==> c in run;
        WordsApart("", run[1..], b);
        assert "" + run[1..] + b == run[1..] + b;
      }
    }
  }

  lemma {:induction false} WordsOfWord(w: string)
    requires IsWord(w)
    ensures Words(w) == [w]
  {
    assert w[0] in w;
    if w[1..] == "" {
      assert w == [w[0]];
    } else {
      assert forall c :: c in w[1..] ==> c in w;
      assert w[1] in w;
      WordsOfWord(w[1..]);
      assert [w[0]] + w[1..] == w;
    }
  }

  /** Splitting undoes joining. */
  lemma {:induction false} WordsOfJoined(words: seq<string>)
    requires AllWords(words)
    ensures Words(Join(" ", words)) == words
  {
    if words == [] {
    } else if |words| == 1 {
      WordsOfWord(words[0]);
    } else {
      WordsApart(words[0], " ", Join(" ", words[1..]));
      WordsOfWord(words[0]);
      WordsOfJoined(words[1..]);
    }
  }

  lemma {:induction false} LowerWordsTwice(words: seq<string>)
    ensures LowerWords(LowerWords(words)) == LowerWords(words)
  {
    if words != [] {
      LowerIsWord(words[0]);
      LowerWordsTwice(words[1..]);
    }
  }

  lemma WordsOfNormal(t: string)
    ensures Words(Normalize(t)) == LowerWords(Words(t))
  {
    WordsAreWords(t);
    LowerWordsAreWords(Words(t));
    WordsOfJoined(LowerWords(Words(t)));
  }

  lemma NormalizeIdempotent(t: string)
    ensures Normalize(Normalize(t)) == Normalize(t)
  {
    WordsOfNormal(t);
    LowerWordsTwice(Words(t));
  }

  /** Two texts share a normal form exactly when they have the same words up to case. */
  lemma SameNormalForm(a: string, b: string)
    ensures Normalize(a) == Normalize(b) <==> LowerWords(Words(a)) == LowerWords(Words(b))
  {
    WordsOfNormal(a);
    WordsOfNormal(b);
  }

  /** Any nonempty whitespace run may be replaced by another. */
  lemma WhitespaceRunsAreAlike(a: string, run1: string, run2: string, b: string)
    requires run1 != "" && run2 != "" && Blank(run1) && Blank(run2)
    ensures Normalize(a + run1 + b) == Normalize(a + run2 + b)
  {
    WordsApart(a, run1, b);
    WordsApart(a, run2, b);
  }

  // ----- case -----

  const UPPERCASE: string := "ABCDEFGHIJKLMNOPQRSTUVWXYZ"
  const LOWERCASE: string := "abcdefghijklmnopqrstuvwxyz"

  /** Lowercasing first and splitting then is the same. */
  lemma {:induction false} WordsOfLower(t: string)
    ensures Words(LowerAll(t)) == LowerWords(Words(t))
  {
    hide IsWhitespace;
    if t != "" {
      var rest := t[1..];
      WordsOfLower(rest);
      LowerKeepsWhitespace(t[0]);
      assert LowerAll(t)[1..] == LowerAll(rest);
      if !IsWhitespace(t[0]) {
        if rest == "" || IsWhitespace(rest[0]) {
          LowerOne(t[0]);
          LowerKeepsWhitespace(if rest == "" then ' ' else rest[0]);
          assert ([[t[0]]] + Words(rest))[1..] == Words(rest);
        } else {
          LowerKeepsWhitespace(rest[0]);
          LowerLonger(t[0], Words(rest));
        }
      }
    }
  }

  lemma {:induction false} LowerAllAppend(a: string, b: string)
    ensures LowerAll(a + b) == LowerAll(a) + LowerAll(b)
  {
    if a == "" {
      assert a + b == b;
    } else {
      assert (a + b)[1..] == a[1..] + b;
      LowerAllAppend(a[1..], b);
    }
  }

  /** A capital letter and its small letter are alike, wherever they stand. */
  lemma CaseIsIgnored(a: string, i: nat, b: string)
    requires i < |UPPERCASE| == |LOWERCASE|
    ensures Normalize(a + [UPPERCASE[i]] + b) == Normalize(a + [LOWERCASE[i]] + b)
  {
    var c, d := UPPERCASE[i], LOWERCASE[i];
    SmallLetter(i);
    WordsOfLower(a + [c] + b);
    WordsOfLower(a + [d] + b);
    LowerAllAppend(a + [c], b);
    LowerAllAppend(a + [d], b);
    LowerAllAppend(a, [c]);
    LowerAllAppend(a, [d]);
    LowerOne(c);
    LowerOne(d);
  }

  lemma SmallLetter(i: nat)
    requires i < |UPPERCASE| == |LOWERCASE|
    ensures Lower(UPPERCASE[i]) == LOWERCASE[i] == Lower(LOWERCASE[i])
  {
  }

  /** Words without capital letters, with single spaces between them, are a normal form; so no other characters are alike. */
  lemma NormalAlready(words: seq<string>)
    requires AllWords(words) && forall i, j :: 0 <= i < |words| && 0 <= j < |words[i]| ==> words[i][j] !in UPPERCASE
    ensures Normalize(Join(" ", words)) == Join(" ", words)
  {
    WordsOfJoined(words);
    NoCapitals(words);
  }

  lemma {:induction false} NoCapitals(words: seq<string>)
    requires forall i, j :: 0 <= i < |words| && 0 <= j < |words[i]| ==> words[i][j] !in UPPERCASE
    ensures LowerWords(words) == words
  {
    if words != [] {
      assert forall i :: 0 <= i < |words[1..]| ==> words[1..][i] == words[i + 1];
      assert words == [words[0]] + words[1..];
      NoCapitals(words[1..]);
      NoCapitalsIn(words[0]);
    }
  }

  lemma {:induction false} NoCapitalsIn(w: string)
    requires forall j :: 0 <= j < |w| ==> w[j] !in UPPERCASE
    ensures LowerAll(w) == w
  {
    if w != "" {
      NotCapital(w[0]);
      NoCapitalsIn(w[1..]);
    }
  }

  lemma NotCapital(c: char)
    ensures c !in UPPERCASE ==> Lower(c) == c
  {
    if 'A' <= c <= 'Z' {
      assert UPPERCASE[c as int - 65] == c;
    }
  }
}
