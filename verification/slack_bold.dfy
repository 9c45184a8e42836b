// Slack bold writes the very character it searches for (crates/clawreform-channels/src/formatter.rs:107-116).

module SlackBold {
  import opened Text
  import opened MarkerPairs
  import opened OnePassPairs

  function Bold(s: string): string {
    SlackMarking();
    Rescan(s, SLACK_BOLD)
  }

  lemma SlackMarking()
    ensures SLACK_BOLD.Valid()
  {
    TelegramMarkings();
  }

  lemma WithoutAround(p: Pair, first: string, second: string)
    requires Without('*', first) == "" && Without('*', second) == ""
    ensures Without('*', Around(p, first, second)) == Without('*', p.before) + (Without('*', p.inner) + Without('*', p.after))
  {
    hide Without;
    WithoutConcat('*', second, p.after);
    WithoutConcat('*', p.inner, second + p.after);
    WithoutConcat('*', first, p.inner + (second + p.after));
    WithoutConcat('*', p.before, first + (p.inner + (second + p.after)));
  }

  /** One round keeps all the text and takes two stars. */
  lemma RoundKeepsText(s: string)
    requires FirstPair(s, SLACK_BOLD).Some?
    ensures var t := Replaced(FirstPair(s, SLACK_BOLD).value, SLACK_BOLD);
            Without('*', t) == Without('*', s) && Count('*', t) + 2 == Count('*', s)
  {
    hide Find, FirstPair, Count;
    var p := FirstPair(s, SLACK_BOLD).value;
    FirstPairParts(s, SLACK_BOLD);
    assert Without('*', "*") == "" && Without('*', "**") == "" by {
      assert "**"[1..] == "*" && "*"[1..] == "";
    }
    WithoutAround(p, "**", "**");
    WithoutAround(p, "*", "*");
    RoundCounts(s, SLACK_BOLD, '*');
    CountUniform('*', "**");
    CountUniform('*', "*");
  }

  /** The whole loop keeps every character that is not a star, in order, and takes stars two by two. */
  lemma {:induction false} BoldKeepsText(s: string)
    ensures Without('*', Bold(s)) == Without('*', s)
    ensures Count('*', Bold(s)) <= Count('*', s) && Count('*', Bold(s)) % 2 == Count('*', s) % 2
    decreases Count('*', s)
  {
    hide Find, FirstPair;
    SlackMarking();
    if FirstPair(s, SLACK_BOLD).Some? {
      var t := Replaced(FirstPair(s, SLACK_BOLD).value, SLACK_BOLD);
      RoundKeepsText(s);
      BoldKeepsText(t);
    }
  }

  /** No text is left with two markers, and running the loop again changes nothing. */
  lemma BoldIsNormal(s: string)
    ensures NoPair(Bold(s), SLACK_BOLD) && Bold(Bold(s)) == Bold(s)
  {
    SlackMarking();
    RescanIsNormal(s, SLACK_BOLD);
    RescanIdempotent(s, SLACK_BOLD);
  }

  // ----- what the loop computes, on every text -----

  function StarRun(n: nat): string {
    if n == 0 then "" else "*" + StarRun(n - 1)
  }

  /** The length of the run of stars that a text begins with. */
  function RunLength(s: string): (n: nat)
    ensures n <= |s| && s == StarRun(n) + s[n..] && (n < |s| ==> s[n] != '*')
  {
    if s == "" || s[0] != '*' then 0
    else
      var n := RunLength(s[1..]);
      OneMoreStar(s, n);
      n + 1
  }

  lemma OneMoreStar(s: string, n: nat)
    requires s != "" && s[0] == '*' && n < |s| && s[1..] == StarRun(n) + s[1..][n..]
    ensures s == StarRun(n + 1) + s[n + 1..]
  {
    assert s[1..][n..] == s[n + 1..];
    Assoc("*", StarRun(n), s[n + 1..]);
    assert s == "*" + s[1..];
  }

  /**
   * One pass. The first run of two or more stars opens: it shrinks to two or three stars, of the same parity.
   */
  function Paired(s: string): string
    decreases |s|
  {
    match Find(s, "**")
    case None => s
    case Some(k) =>
      var n := RunLength(s[k..]);
      RunIsLong(s, k);
      s[..k] + Opened(if n % 2 == 0 then 2 else 3, s[k + n..])
  }

  /**
   * An open run of `run` stars before `rest`: the next marker loses a star and so does the open run; once the
   * open run is a single star, the pass goes on with what is left of that marker.
   */
  function Opened(run: nat, rest: string): string
    requires 2 <= run <= 3
    decreases |rest|
  {
    match Find(rest, "**")
    case None => StarRun(run) + rest
    case Some(b) => if run == 2 then "*" + (rest[..b] + Paired(rest[b + 1..])) else Opened(2, rest[..b] + rest[b + 1..])
  }

  lemma RunIsLong(s: string, k: nat)
    requires OccursAt(s, "**", k)
    ensures RunLength(s[k..]) >= 2
  {
    OccursChar(s, "**", k, 0);
    OccursChar(s, "**", k, 1);
    hide StarRun;
    var t := s[k..];
    assert t[0] == '*' && t[1..][0] == '*';
    assert RunLength(t) == RunLength(t[1..]) + 1;
  }

  /** Text that the loop has left behind: no marker in it and none across its end. */
  ghost predicate Settled(done: string, s: string) {
    NoMarker(done, SLACK_BOLD) && Seam(done, s, '*')
  }

  /** Two markers side by side leave two stars less. */
  lemma {:induction false} Collapse(done: string, n: nat, rest: string)
    requires n >= 2 && Settled(done, "*")
    ensures Bold(done + (StarRun(n) + rest)) == Bold(done + (StarRun(if n % 2 == 0 then 2 else 3) + rest))
  {
    hide Find, FirstPair, NoMarker;
    SlackMarking();
    if n >= 4 {
      var p := Pair(done, "", StarRun(n - 4) + rest);
      NoCharNoMarker("", SLACK_BOLD);
      FirstPairIs(p, SLACK_BOLD);
      FourStars(n - 4, rest);
      assert Rescan(done + (StarRun(n) + rest), SLACK_BOLD) == Rescan(Replaced(p, SLACK_BOLD), SLACK_BOLD);
      Collapse(done, n - 2, rest);
    }
  }

  lemma FourStars(n: nat, rest: string)
    ensures StarRun(n + 4) + rest == "**" + ("" + ("**" + (StarRun(n) + rest)))
    ensures StarRun(n + 2) + rest == "*" + ("" + ("*" + (StarRun(n) + rest)))
  {
    assert StarRun(n + 1) == "*" + StarRun(n);
    assert StarRun(n + 2) == "*" + StarRun(n + 1);
    assert StarRun(n + 3) == "*" + StarRun(n + 2);
    assert StarRun(n + 4) == "*" + StarRun(n + 3);
  }

  lemma ShortRuns()
    ensures StarRun(1) == "*" && StarRun(2) == "**" && StarRun(3) == "***"
  {
    assert StarRun(1) == "*" + StarRun(0);
    assert StarRun(2) == "*" + StarRun(1);
    assert StarRun(3) == "*" + StarRun(2);
  }

  /** The marker found first in a text that does not begin with a star. */
  lemma CutAtMarker(rest: string, b: nat)
    requires Find(rest, "**") == Some(b) && (rest == "" || rest[0] != '*')
    ensures b > 0 && b + 2 <= |rest|
    ensures rest[b + 1..] == "*" + rest[b + 2..]
    ensures NoMarker(rest[..b], SLACK_BOLD) && rest[b - 1] != '*' && rest[..b][0] != '*'
    ensures rest == rest[..b] + ("**" + rest[b + 2..])
  {
    hide Find, NoMarker;
    OccursChar(rest, "**", b, 0);
    OccursChar(rest, "**", b, 1);
    BeforeFirst(rest, SLACK_BOLD, b);
    CutAround(rest, "**", b);
  }

  /** The opener with two stars meets a marker. */
  lemma CloseTwo(done: string, rest: string, b: nat)
    requires Settled(done, "*") && Find(rest, "**") == Some(b) && (rest == "" || rest[0] != '*')
    ensures b > 0 && b < |rest|
    ensures var done' := done + ("*" + rest[..b]);
            Bold(done + ("**" + rest)) == Bold(done' + rest[b + 1..]) && Settled(done', rest[b + 1..])
  {
    hide Find, FirstPair, NoMarker;
    SlackMarking();
    CutAtMarker(rest, b);
    var inner, after := rest[..b], rest[b + 2..];
    var p := Pair(done, inner, after);
    FirstPairIs(p, SLACK_BOLD);
    Assoc(done, "*" + inner, "*" + after);
    Assoc("*", inner, "*" + after);
    OneStarNoMarker();
    NoMarkerConcat("*", inner, SLACK_BOLD);
    NoMarkerConcat(done, "*" + inner, SLACK_BOLD);
  }

  /** The opener with three stars meets a marker. */
  lemma CloseThree(done: string, rest: string, b: nat)
    requires Settled(done, "*") && Find(rest, "**") == Some(b) && (rest == "" || rest[0] != '*')
    ensures b > 0 && b < |rest|
    ensures var rest' := rest[..b] + rest[b + 1..];
            Bold(done + ("***" + rest)) == Bold(done + ("**" + rest')) && rest'[0] != '*'
  {
    hide Find, FirstPair, NoMarker;
    SlackMarking();
    CutAtMarker(rest, b);
    var inner, after := rest[..b], rest[b + 2..];
    var p := Pair(done, "*" + inner, after);
    OneStarNoMarker();
    NoMarkerConcat("*", inner, SLACK_BOLD);
    FirstPairIs(p, SLACK_BOLD);
    assert "***" == "**" + "*" && "**" == "*" + "*";
    Assoc("**", "*", rest);
    Assoc("*", inner, "**" + after);
    Assoc("*", "*", inner + ("*" + after));
    Assoc("*", inner, "*" + after);
  }

  lemma OneStarNoMarker()
    ensures NoMarker("*", SLACK_BOLD)
  {
    hide Find;
    FindNone("*", "**");
  }

  /** An opener that meets no marker. */
  lemma StaysOpen(done: string, run: nat, rest: string)
    requires 2 <= run <= 3 && Settled(done, "*") && NoMarker(rest, SLACK_BOLD) && (rest == "" || rest[0] != '*')
    ensures Bold(done + (StarRun(run) + rest)) == done + (StarRun(run) + rest)
  {
    hide Find, FirstPair, NoMarker;
    SlackMarking();
    ShortRuns();
    OneStarNoMarker();
    NoMarkerConcat("*", rest, SLACK_BOLD);
    var tail := if run == 2 then rest else "*" + rest;
    assert StarRun(run) + rest == "**" + tail;
    FindBetween(done, SLACK_BOLD, tail);
    NoSecondMarker(done + ("**" + tail), |done|, tail);
  }

  lemma NoSecondMarker(s: string, k: nat, tail: string)
    requires Find(s, "**") == Some(k) && s[k + 2..] == tail && NoMarker(tail, SLACK_BOLD)
    ensures FirstPair(s, SLACK_BOLD).None?
  {
    hide Find;
  }

  lemma {:induction false} OpenedIs(done: string, run: nat, rest: string)
    requires 2 <= run <= 3 && Settled(done, "*") && (rest == "" || rest[0] != '*')
    ensures Bold(done + (StarRun(run) + rest)) == done + Opened(run, rest)
    decreases |rest|
  {
    hide Find, NoMarker, Bold, Paired, Opened, Settled, StarRun;
    ShortRuns();
    OpenedUnfolds(run, rest);
    var marker := Find(rest, "**");
    if marker.None? {
      NoneIsNoMarker(rest);
      StaysOpen(done, run, rest);
    } else if run == 2 {
      var b := marker.value;
      CloseTwo(done, rest, b);
      PairedIs(done + ("*" + rest[..b]), rest[b + 1..]);
      Assoc(done, "*" + rest[..b], Paired(rest[b + 1..]));
      Assoc("*", rest[..b], Paired(rest[b + 1..]));
    } else {
      var b := marker.value;
      CloseThree(done, rest, b);
      OpenedIs(done, 2, rest[..b] + rest[b + 1..]);
    }
  }

  lemma OpenedUnfolds(run: nat, rest: string)
    requires 2 <= run <= 3
    ensures var b := Find(rest, "**");
            Opened(run, rest) ==
            if b.None? then StarRun(run) + rest
            else if run == 2 then "*" + (rest[..b.value] + Paired(rest[b.value + 1..]))
            else Opened(2, rest[..b.value] + rest[b.value + 1..])
  {
    hide Find, Paired;
  }

  lemma NoneIsNoMarker(s: string)
    ensures NoMarker(s, SLACK_BOLD) <==> Find(s, "**").None?
  {
    hide Find;
  }

  lemma {:induction false} PairedIs(done: string, s: string)
    requires Settled(done, s)
    ensures Bold(done + s) == done + Paired(s)
    decreases |s|
  {
    hide Find, NoMarker, Bold, Opened, RunLength, StarRun;
    var first := Find(s, "**");
    NoneIsNoMarker(s);
    if first.None? {
      NoMarkerConcat(done, s, SLACK_BOLD);
      NothingToDo(done + s);
    } else {
      var k := first.value;
      var before, n := s[..k], RunLength(s[k..]);
      var rest, run := s[k + n..], if n % 2 == 0 then 2 else 3;
      CutAtRun(done, s, k);
      Assoc(done, before, StarRun(n) + rest);
      Collapse(done + before, n, rest);
      OpenedIs(done + before, run, rest);
      Assoc(done, before, Opened(run, rest));
    }
  }

  /** The text at its first run of two or more stars. */
  lemma CutAtRun(done: string, s: string, k: nat)
    requires Settled(done, s) && Find(s, "**") == Some(k)
    ensures var n := RunLength(s[k..]);
            && n >= 2 && k + n <= |s|
            && s == s[..k] + (StarRun(n) + s[k + n..])
            && (k + n < |s| ==> s[k + n] != '*')
            && Settled(done + s[..k], "*")
  {
    hide Find, NoMarker, RunLength;
    var n := RunLength(s[k..]);
    RunIsLong(s, k);
    assert s[k..][n..] == s[k + n..];
    assert s == s[..k] + s[k..];
    BeforeFirst(s, SLACK_BOLD, k);
    NoMarkerConcat(done, s[..k], SLACK_BOLD);
  }

  lemma NothingToDo(s: string)
    requires NoMarker(s, SLACK_BOLD)
    ensures Bold(s) == s
  {
    hide Find;
  }

  /** On every text the loop computes the single pass over runs of stars. */
  lemma BoldIsPaired(s: string)
    ensures Bold(s) == Paired(s)
  {
    hide Find, Bold, Paired;
    NoCharNoMarker("", SLACK_BOLD);
    PairedIs("", s);
    assert "" + s == s && "" + Paired(s) == Paired(s);
  }

  /** Where no three stars stand in a row, the loop is a single pass. */
  lemma BoldIsOnePass(s: string)
    requires NoTriple(s)
    ensures Bold(s) == OnePass(s, SLACK_BOLD)
  {
    SlackMarking();
    RescanIsOnePass(s, SLACK_BOLD);
  }

  /** With three stars in a row it need not be: the stars it writes are read again. */
  lemma BoldReadsItsOutput()
    ensures Bold("***a***") == "*a*" && OnePass("***a***", SLACK_BOLD) == "**a**"
  {
    hide Find, FirstPair, NoMarker, Seam, Around;
    SlackMarking();
    SmallTexts();
    FirstPairIs(Pair("", "*a", "*"), SLACK_BOLD);
    FirstPairIs(Pair("", "a", ""), SLACK_BOLD);
    assert Rescan("***a***", SLACK_BOLD) == Rescan("**a**", SLACK_BOLD) == Rescan("*a*", SLACK_BOLD) == "*a*";
    assert OnePass("*", SLACK_BOLD) == "*";
  }

  lemma SmallTexts()
    ensures NoMarker("", SLACK_BOLD) && NoMarker("*", SLACK_BOLD) && NoMarker("a", SLACK_BOLD) && NoMarker("*a", SLACK_BOLD)
    ensures Seam("", "**", '*') && Seam("a", "**", '*') && Seam("*a", "**", '*')
    ensures Around(Pair("", "*a", "*"), "**", "**") == "***a***" && Around(Pair("", "*a", "*"), "*", "*") == "**a**"
    ensures Around(Pair("", "a", ""), "**", "**") == "**a**" && Around(Pair("", "a", ""), "*", "*") == "*a*"
    ensures FirstPair("*a*", SLACK_BOLD).None? && FirstPair("*", SLACK_BOLD).None?
  {
    hide Find;
    NoCharNoMarker("", SLACK_BOLD);
    NoCharNoMarker("a", SLACK_BOLD);
    FindNone("*", "**");
    NoMarkerConcat("*", "a", SLACK_BOLD);
    NoMarkerConcat("*a", "*", SLACK_BOLD);
    assert "*" + "a" == "*a" && "*a" + "*" == "*a*";
  }
}
