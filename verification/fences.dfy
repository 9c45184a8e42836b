// How many code-fence lines a text holds, and how that number behaves under concatenation.

module Fences {
  import opened Text

  const FENCE: string := "```"

  /** What a forced close writes after the buffered text. */
  const CLOSING: string := "\n```\n"

  /** What the buffer holds right after a forced close. */
  const REOPENING: string := "```\n"

  /** A line piece that opens or closes a fence. */
  predicate IsFenceLine(piece: string) {
    FENCE <= Trim(piece)
  }

  function FencesIn(piece: string): nat {
    if IsFenceLine(piece) then 1 else 0
  }

  function CountFences(pieces: seq<string>): nat {
    if pieces == [] then 0 else FencesIn(pieces[0]) + CountFences(pieces[1..])
  }

  function FenceLines(t: string): nat {
    CountFences(SplitInclusive(t))
  }

  function SumFenceLines(texts: seq<string>): nat {
    if texts == [] then 0 else FenceLines(texts[0]) + SumFenceLines(texts[1..])
  }

  predicate EndsLine(t: string) {
    t == "" || t[|t| - 1] == '\n'
  }

  predicate HasNoNewline(t: string) {
    '\n' !in t
  }

  predicate Odd(n: nat) {
    n % 2 == 1
  }

  lemma OddSum(m: nat, n: nat)
    ensures Odd(m + n) == (Odd(m) != Odd(n))
  {
  }

  lemma {:induction false} CountFencesAppend(a: seq<string>, b: seq<string>)
    ensures CountFences(a + b) == CountFences(a) + CountFences(b)
  {
    if a == [] {
      assert a + b == b;
    } else {
      assert (a + b)[1..] == a[1..] + b;
      CountFencesAppend(a[1..], b);
    }
  }

  lemma CountFencesOne(piece: string)
    ensures CountFences([piece]) == FencesIn(piece)
  {
    assert [piece][1..] == [];
  }

  lemma {:induction false} SumFenceLinesAppend(a: seq<string>, b: seq<string>)
    ensures SumFenceLines(a + b) == SumFenceLines(a) + SumFenceLines(b)
  {
    if a == [] {
      assert a + b == b;
    } else {
      assert (a + b)[1..] == a[1..] + b;
      SumFenceLinesAppend(a[1..], b);
    }
  }

  lemma SumFenceLinesOne(t: string)
    ensures SumFenceLines([t]) == FenceLines(t)
  {
    assert [t][1..] == [];
  }

  // ----- a fence line is recognised by its start -----

  lemma {:induction false} TrimEndKeepsStart(ws: char -> bool, s: string)
    requires forall c :: c in FENCE ==> !ws(c)
    ensures FENCE <= TrimEnd(ws, s) <==> FENCE <= s
  {
    if s != "" && ws(s[|s| - 1]) {
      TrimEndKeepsStart(ws, s[..|s| - 1]);
      if FENCE <= s {
        assert s[2] in FENCE;
        assert |s| > 3;
      }
    }
  }

  lemma FenceLineByStart(s: string)
    ensures IsFenceLine(s) <==> FENCE <= TrimStart(IsWhitespace, s)
  {
    TrimEndKeepsStart(IsWhitespace, TrimStart(IsWhitespace, s));
  }

  /** A fence line has three backticks behind nothing but whitespace. */
  lemma FenceLineIff(line: string)
    ensures IsFenceLine(line) <==> exists k: nat :: OccursAt(line, "```", k) && forall i :: 0 <= i < k ==> IsWhitespace(line[i])
  {
    hide IsWhitespace, Trim;
    FenceLineByStart(line);
    var pre := TrimStartSplits(IsWhitespace, line);
    var rest := TrimStart(IsWhitespace, line);
    assert forall i :: 0 <= i < |pre| ==> line[i] == pre[i];
    assert !IsWhitespace('`') by { BacktickIsNoSpace(); }
    if "```" <= rest {
      assert line[|pre|..|pre| + 3] == rest[..3];
      assert OccursAt(line, "```", |pre|);
    }
    if k: nat :| OccursAt(line, "```", k) && forall i :: 0 <= i < k ==> IsWhitespace(line[i]) {
      assert line[k..k + 3][0] == '`';
      TrimStartIs(IsWhitespace, line, line[..k], line[k..]);
      assert line[k..][..3] == line[k..k + 3];
    }
  }

  lemma BacktickIsNoSpace()
    ensures !IsWhitespace('`')
  {
  }

  lemma {:induction false} TrimStartNewline(s: string)
    ensures FENCE <= TrimStart(IsWhitespace, s + "\n") <==> FENCE <= TrimStart(IsWhitespace, s)
  {
    if s == "" {
      assert s + "\n" == "\n" && "\n"[1..] == "";
      assert TrimStart(IsWhitespace, "\n") == TrimStart(IsWhitespace, "");
    } else if IsWhitespace(s[0]) {
      assert (s + "\n")[1..] == s[1..] + "\n";
      TrimStartNewline(s[1..]);
    } else {
      if FENCE <= s + "\n" {
        assert (s + "\n")[2] == FENCE[2];
        assert (s + "\n")[..3] == s[..3];
      }
    }
  }

  lemma FenceLineNewline(s: string)
    ensures IsFenceLine(s + "\n") == IsFenceLine(s)
  {
    FenceLineByStart(s + "\n");
    FenceLineByStart(s);
    TrimStartNewline(s);
  }

  lemma BlankIsNoFence()
    ensures !IsFenceLine("") && !IsFenceLine("\n")
  {
    FenceLineNewline("");
    assert "" + "\n" == "\n";
  }

  // ----- counting over concatenation -----

  /** Ending the last line does not change the count. */
  lemma FenceLinesNewline(a: string)
    ensures FenceLines(a + "\n") == FenceLines(a)
  {
    var p := SplitInclusive(a);
    SplitInclusiveNewline(a);
    if EndsLine(a) {
      CountFencesAppend(p, ["\n"]);
      CountFencesOne("\n");
      BlankIsNoFence();
    } else {
      var n := |p| - 1;
      assert p == p[..n] + [p[n]];
      CountFencesAppend(p[..n], [p[n]]);
      CountFencesAppend(p[..n], [p[n] + "\n"]);
      CountFencesOne(p[n]);
      CountFencesOne(p[n] + "\n");
      FenceLineNewline(p[n]);
    }
  }

  /** A newline separates: the two sides are counted on their own. */
  lemma FenceLinesAcrossNewline(a: string, b: string)
    ensures FenceLines(a + "\n" + b) == FenceLines(a) + FenceLines(b)
  {
    SplitInclusiveCut(a, b);
    CountFencesAppend(SplitInclusive(a + "\n"), SplitInclusive(b));
    FenceLinesNewline(a);
  }

  /** Text that ends its line can be counted apart from what follows. */
  lemma FenceLinesConcat(a: string, b: string)
    requires EndsLine(a)
    ensures FenceLines(a + b) == FenceLines(a) + FenceLines(b)
  {
    if a == "" {
      assert a + b == b;
    } else {
      var a' := a[..|a| - 1];
      assert a == a' + "\n";
      FenceLinesAcrossNewline(a', b);
      FenceLinesNewline(a');
    }
  }

  /** A text without newlines is one line. */
  lemma FenceLinesOfLine(t: string)
    requires HasNoNewline(t)
    ensures FenceLines(t) == FencesIn(t)
  {
    BlankIsNoFence();
    if t != "" {
      SplitOneLine(t);
      CountFencesOne(t);
    }
  }

  lemma {:induction false} SplitOneLine(t: string)
    requires HasNoNewline(t) && t != ""
    ensures SplitInclusive(t) == [t]
  {
    if t[1..] == "" {
      assert [t[0]] == t;
    } else {
      SplitOneLine(t[1..]);
      assert [t[0]] + t[1..] == t;
    }
  }

  lemma FenceConstants()
    ensures FenceLines(FENCE) == 1
    ensures FenceLines("") == 0
  {
    assert TrimStart(IsWhitespace, FENCE) == FENCE;
    FenceLineByStart(FENCE);
    FenceLinesOfLine(FENCE);
  }

  /** A closing fence written after any text adds one fence line. */
  lemma FenceLinesClosed(a: string)
    ensures FenceLines(a + CLOSING) == FenceLines(a) + 1
  {
    assert a + CLOSING == a + "\n" + (FENCE + "\n");
    FenceLinesAcrossNewline(a, FENCE + "\n");
    FenceLinesNewline(FENCE);
    FenceConstants();
  }

  /** Closing and reopening a fence between two texts adds two fence lines, whatever the texts. */
  lemma FenceLinesReopened(a: string, b: string)
    ensures FenceLines(a + CLOSING + REOPENING + b) == FenceLines(a) + 2 + FenceLines(b)
  {
    var front := a + CLOSING + FENCE;
    assert a + CLOSING + REOPENING + b == front + "\n" + b;
    FenceLinesAcrossNewline(front, b);
    FenceLinesConcat(a + CLOSING, FENCE);
    FenceLinesClosed(a);
    FenceConstants();
  }

  /** Texts with a close and reopen between neighbours: two more fence lines at each seam. */
  lemma {:induction false} FenceLinesJoin(texts: seq<string>)
    requires texts != []
    ensures FenceLines(Join(CLOSING + REOPENING, texts)) == SumFenceLines(texts) + 2 * (|texts| - 1)
  {
    if |texts| == 1 {
      assert texts == [texts[0]];
      SumFenceLinesOne(texts[0]);
    } else {
      var rest := Join(CLOSING + REOPENING, texts[1..]);
      assert texts[0] + (CLOSING + REOPENING) + rest == texts[0] + CLOSING + REOPENING + rest;
      FenceLinesReopened(texts[0], rest);
      FenceLinesJoin(texts[1..]);
    }
  }

  /** Where a line is cut in two, the count changes by what the cut makes or breaks. */
  lemma FenceLinesCutLine(before: string, tail: string, head: string, after: string)
    requires EndsLine(before) && HasNoNewline(tail) && HasNoNewline(head)
    requires after == "" || after[0] == '\n'
    ensures FenceLines(before + tail + (head + after)) + FencesIn(tail) + FencesIn(head)
         == FenceLines(before + tail) + FenceLines(head + after) + FencesIn(tail + head)
  {
    var line := tail + head;
    assert FenceLines(before + tail + (head + after)) == FenceLines(before) + FenceLines(line) + FenceLines(after) by {
      assert before + tail + (head + after) == before + (line + after);
      FenceLinesConcat(before, line + after);
      FenceLinesThenRest(line, after);
    }
    FenceLinesConcat(before, tail);
    FenceLinesThenRest(head, after);
    FenceLinesOfLine(line);
    FenceLinesOfLine(tail);
    FenceLinesOfLine(head);
  }

  lemma FenceLinesThenRest(a: string, after: string)
    requires after == "" || after[0] == '\n'
    ensures FenceLines(a + after) == FenceLines(a) + FenceLines(after)
  {
    FenceConstants();
    if after == "" {
      assert a + after == a;
    } else {
      assert a + after == a + "\n" + after[1..];
      assert after == "" + "\n" + after[1..];
      FenceLinesAcrossNewline(a, after[1..]);
      FenceLinesAcrossNewline("", after[1..]);
    }
  }

  // ----- prefixes -----

  /** The unfinished last line of a text. */
  lemma {:induction false} LastLine(t: string) returns (before: string, tail: string)
    ensures t == before + tail && EndsLine(before) && HasNoNewline(tail)
  {
    before, tail := t, "";
    if !EndsLine(t) {
      var n := |t| - 1;
      var b, l := LastLine(t[..n]);
      before, tail := b, l + [t[n]];
      assert t == t[..n] + [t[n]];
    }
  }

  lemma {:induction false} TrimStartExtend(s: string, c: char)
    requires FENCE <= TrimStart(IsWhitespace, s)
    ensures FENCE <= TrimStart(IsWhitespace, s + [c])
  {
    if IsWhitespace(s[0]) {
      assert (s + [c])[1..] == s[1..] + [c];
      TrimStartExtend(s[1..], c);
    } else {
      assert (s + [c])[..3] == s[..3];
    }
  }

  /** One more character makes at most one more fence line, and unmakes none. */
  lemma FenceLinesOneMore(t: string, c: char)
    ensures FenceLines(t) <= FenceLines(t + [c]) <= FenceLines(t) + 1
  {
    if c == '\n' {
      FenceLinesNewline(t);
      assert t + [c] == t + "\n";
    } else {
      var before, tail := LastLine(t);
      assert t + [c] == before + (tail + [c]);
      FenceLinesConcat(before, tail);
      FenceLinesConcat(before, tail + [c]);
      FenceLinesOfLine(tail);
      FenceLinesOfLine(tail + [c]);
      FenceLineByStart(tail);
      FenceLineByStart(tail + [c]);
      if IsFenceLine(tail) {
        TrimStartExtend(tail, c);
      }
    }
  }

  lemma {:induction false} FenceLinesOfPrefix(t: string, k: nat)
    requires k <= |t|
    ensures FenceLines(t[..k]) <= FenceLines(t)
  {
    if k == |t| {
      assert t[..k] == t;
    } else {
      var n := |t| - 1;
      FenceLinesOfPrefix(t[..n], k);
      assert t[..n][..k] == t[..k] && t[..n] + [t[n]] == t;
      FenceLinesOneMore(t[..n], t[n]);
    }
  }

  /** A text with fence lines has a prefix with exactly one. */
  lemma {:induction false} FirstFenceLine(t: string) returns (k: nat)
    requires FenceLines(t) > 0
    ensures k <= |t| && FenceLines(t[..k]) == 1
  {
    FenceConstants();
    var n := |t| - 1;
    assert t[..n] + [t[n]] == t;
    FenceLinesOneMore(t[..n], t[n]);
    if FenceLines(t[..n]) == 0 {
      k := |t|;
      assert t[..k] == t;
    } else {
      k := FirstFenceLine(t[..n]);
      assert t[..n][..k] == t[..k];
    }
  }

  // ----- cutting a text anywhere -----

  /** The last line of a text, as far as it goes. */
  function Unfinished(t: string): string {
    if EndsLine(t) then "" else Unfinished(t[..|t| - 1]) + [t[|t| - 1]]
  }

  /** The text up to its first newline. */
  function FirstLine(t: string): string {
    if t == "" || t[0] == '\n' then "" else [t[0]] + FirstLine(t[1..])
  }

  lemma {:induction false} UnfinishedIs(t: string)
    ensures |Unfinished(t)| <= |t| && HasNoNewline(Unfinished(t))
    ensures var n := |t| - |Unfinished(t)|; t == t[..n] + Unfinished(t) && EndsLine(t[..n])
  {
    if !EndsLine(t) {
      var front := t[..|t| - 1];
      UnfinishedIs(front);
      var n := |front| - |Unfinished(front)|;
      assert t == front + [t[|t| - 1]] && t[..n] == front[..n];
    } else {
      assert t[..|t|] == t;
    }
  }

  lemma {:induction false} FirstLineIs(t: string)
    ensures |FirstLine(t)| <= |t| && HasNoNewline(FirstLine(t))
    ensures var after := t[|FirstLine(t)|..]; t == FirstLine(t) + after && (after == "" || after[0] == '\n')
  {
    if t != "" && t[0] != '\n' {
      FirstLineIs(t[1..]);
      assert t == [t[0]] + t[1..] && t[|FirstLine(t)|..] == t[1..][|FirstLine(t[1..])|..];
    }
  }

  /**
   * The fence lines that are not out yet when `front` is out and `back` is not: those that begin in `back`, after
   * the cut line, and the cut line itself when only its second half makes it one.
   */
  function FencesBehind(front: string, back: string): nat {
    var head, tail := FirstLine(back), Unfinished(front);
    FirstLineIs(back);
    FenceLines(back[|head|..]) + if IsFenceLine(tail + head) && !IsFenceLine(tail) then 1 else 0
  }

  lemma BehindCounts(front: string, back: string)
    ensures FenceLines(front + back) == FenceLines(front) + FencesBehind(front, back)
  {
    hide FenceLines, IsFenceLine;
    var tail, head := Unfinished(front), FirstLine(back);
    UnfinishedIs(front);
    FirstLineIs(back);
    var before, after := front[..|front| - |tail|], back[|head|..];
    var line := tail + head;
    assert FenceLines(front + back) == FenceLines(before) + FenceLines(line) + FenceLines(after) by {
      assert front + back == before + (line + after);
      FenceLinesConcat(before, line + after);
      FenceLinesThenRest(line, after);
    }
    FenceLinesConcat(before, tail);
    FenceLinesOfLine(line);
    FenceLinesOfLine(tail);
    assert line[..|tail|] == tail;
    FenceLinesOfPrefix(line, |tail|);
  }

  /** When the cut ends a line, they are simply the fence lines of what stays behind. */
  lemma BehindLineEnd(front: string, back: string)
    requires EndsLine(front)
    ensures FencesBehind(front, back) == FenceLines(back)
  {
    hide FenceLines;
    BehindCounts(front, back);
    FenceLinesConcat(front, back);
  }
}
