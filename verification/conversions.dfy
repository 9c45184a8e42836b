// What the channel formatter is for (crates/clawreform-channels/src/formatter.rs:3-6): a message of plain, bold, italic,
// code and link passages comes out with every passage in the channel's own notation.

module Conversions {
  import opened Text
  import opened MarkerPairs
  import opened OnePassPairs
  import opened Formatter
  import SlackBold
  import Stars
  import Links

  // ----- messages and notations -----

  datatype Segment =
    | Words(text: string)
    | Bold(text: string)
    | Italic(text: string)
    | Code(text: string)
    | Link(text: string, url: string)

  /** What stands around the text and the URL of a link, and which of the two comes first. */
  datatype LinkMarks = LinkMarks(open: string, middle: string, close: string, urlFirst: bool)

  /** What stands around a passage. */
  datatype Notation = Notation(
    boldOpen: string, boldClose: string, italicOpen: string, italicClose: string, codeOpen: string, codeClose: string,
    link: LinkMarks)

  const BRACKETED: LinkMarks := LinkMarks("[", "](", ")", false)

  const MARKDOWN: Notation := Notation("**", "**", "*", "*", "`", "`", BRACKETED)
  const TELEGRAM: Notation := Notation("<b>", "</b>", "<i>", "</i>", "<code>", "</code>", LinkMarks("<a href=\"", "\">", "</a>", true))
  const SLACK: Notation := Notation("*", "*", "*", "*", "`", "`", LinkMarks("<", "|", ">", true))
  const PLAIN: Notation := Notation("", "", "", "", "", "", LinkMarks("", " (", ")", false))

  function Written(seg: Segment, n: Notation): string {
    match seg
    case Words(text) => text
    case Bold(text) => n.boldOpen + (text + n.boldClose)
    case Italic(text) => n.italicOpen + (text + n.italicClose)
    case Code(text) => n.codeOpen + (text + n.codeClose)
    case Link(text, url) =>
      if n.link.urlFirst then n.link.open + (url + (n.link.middle + (text + n.link.close)))
      else n.link.open + (text + (n.link.middle + (url + n.link.close)))
  }

  function Message(segs: seq<Segment>, n: Notation): string {
    if segs == [] then "" else Written(segs[0], n) + Message(segs[1..], n)
  }

  /** No star, no backtick, no opening bracket. */
  predicate Unmarked(s: string) {
    '*' !in s && '`' !in s && '[' !in s
  }

  predicate WellFormed(seg: Segment) {
    && Unmarked(seg.text)
    && (seg.Words? || seg.Bold? || seg.Italic? ==> seg.text != "")
    && (seg.Link? ==> Unmarked(seg.url) && ']' !in seg.text && ')' !in seg.url)
  }

  predicate Starred(seg: Segment) {
    seg.Bold? || seg.Italic?
  }

  /** The passages contain no marks themselves, and two starred ones are never neighbours. */
  predicate WellMarked(segs: seq<Segment>) {
    && (forall i :: 0 <= i < |segs| ==> WellFormed(segs[i]))
    && (forall i :: 0 < i < |segs| ==> !(Starred(segs[i - 1]) && Starred(segs[i])))
  }

  lemma TailIsWellMarked(segs: seq<Segment>)
    requires WellMarked(segs) && segs != []
    ensures WellMarked(segs[1..]) && WellFormed(segs[0])
    ensures |segs| > 1 ==> !(Starred(segs[0]) && Starred(segs[1..][0]))
  {
    assert forall i :: 0 <= i < |segs[1..]| ==> segs[1..][i] == segs[i + 1];
  }

  // ----- stars at the ends -----

  /** In these notations stars stand around bold and italic only, and every passage leaves something. */
  predicate StarsAround(n: Notation) {
    && (n.boldOpen == n.boldClose == "**" || ('*' !in n.boldOpen && '*' !in n.boldClose))
    && n.italicOpen == n.italicClose == "*"
    && n.codeOpen != "" && n.codeClose != "" && '*' !in n.codeOpen && '*' !in n.codeClose
    && n.link == BRACKETED
  }

  lemma WrittenEnds(seg: Segment, n: Notation)
    requires WellFormed(seg) && StarsAround(n)
    ensures var w := Written(seg, n);
            w != "" && (w[0] == '*' || w[|w| - 1] == '*' ==> Starred(seg))
  {
  }

  /** Where the last passage and the next one meet, no two stars meet. */
  lemma SeamAfter(a: string, segs: seq<Segment>, n: Notation)
    requires WellMarked(segs) && StarsAround(n) && segs != [] && Seam(a, Message(segs, n), '*')
    ensures var w, rest := Written(segs[0], n), Message(segs[1..], n);
            && Seam(a, w, '*') && Seam(w, rest, '*') && Seam(a + w, rest, '*')
            && w != ""
  {
    hide Written;
    TailIsWellMarked(segs);
    WrittenEnds(segs[0], n);
    if |segs| > 1 {
      TailIsWellMarked(segs[1..]);
      WrittenEnds(segs[1], n);
    }
  }

  // ----- the paired markers -----

  /** The passages of one marking change from one notation to the other, and the rest has no such marker. */
  ghost predicate Converts(seg: Segment, m: Marking, n: Notation, to: Notation) {
    if (m.c == '*' && seg.Bold?) || (m.c == '`' && seg.Code?) then
      && m.c !in seg.text
      && Written(seg, n) == m.marker + (seg.text + m.marker) && Written(seg, to) == m.open + (seg.text + m.close)
    else NoMarker(Written(seg, n), m) && Written(seg, to) == Written(seg, n)
  }

  /** Between neighbours no marker arises; behind a code passage a backtick is no matter. */
  ghost predicate Seams(segs: seq<Segment>, c: char, n: Notation) {
    segs != [] ==>
      && ((c == '`' && segs[0].Code?) || (Seam(Written(segs[0], n), Message(segs[1..], n), c) && Written(segs[0], n) != ""))
      && Seams(segs[1..], c, n)
  }

  /** One pass over the message, after a text without markers. */
  lemma {:induction false} PassOver(done: string, segs: seq<Segment>, m: Marking, n: Notation, to: Notation)
    requires m.Uniform() && forall i :: 0 <= i < |segs| ==> Converts(segs[i], m, n, to)
    requires Seams(segs, m.c, n) && NoMarker(done, m) && Seam(done, Message(segs, n), m.c)
    ensures OnePass(done + Message(segs, n), m) == done + Message(segs, to)
    decreases |segs|
  {
    hide NoMarker, Written, FirstPair, OnePass;
    if segs == [] {
      assert done + "" == done;
      NothingLeft(done, m);
    } else {
      var seg, w, rest := segs[0], Written(segs[0], n), Message(segs[1..], n);
      assert forall i :: 0 <= i < |segs[1..]| ==> segs[1..][i] == segs[i + 1];
      assert Converts(seg, m, n, to);
      if (m.c == '*' && seg.Bold?) || (m.c == '`' && seg.Code?) {
        NothingLeft("", m);
        PassOver("", segs[1..], m, n, to);
        assert "" + rest == rest && "" + Message(segs[1..], to) == Message(segs[1..], to);
        PairFirst(done, seg.text, rest, m);
        Regroup(m.marker, seg.text, m.marker, rest);
        Regroup(m.open, seg.text, m.close, Message(segs[1..], to));
      } else {
        NoMarkerConcat(done, w, m);
        PassOver(done + w, segs[1..], m, n, to);
        Assoc(done, w, rest);
        Assoc(done, w, Message(segs[1..], to));
      }
    }
  }

  lemma Regroup(a: string, b: string, c: string, d: string)
    ensures (a + (b + c)) + d == a + (b + (c + d))
  {
  }

  lemma NothingLeft(s: string, m: Marking)
    requires m.Uniform()
    ensures NoMarker(s, m) ==> OnePass(s, m) == s
    ensures NoMarker("", m)
  {
    hide Find;
    NoCharNoMarker("", m);
  }

  lemma PairFirst(done: string, text: string, rest: string, m: Marking)
    requires m.Uniform() && NoMarker(done, m) && m.c !in text
    requires Seam(done, (m.marker + (text + m.marker)) + rest, m.c)
    ensures OnePass(done + (m.marker + (text + (m.marker + rest))), m)
         == done + (m.open + (text + (m.close + OnePass(rest, m))))
  {
    hide Find, FirstPair, NoMarker;
    NoCharNoMarker(text, m);
    FirstPairIs(Pair(done, text, rest), m);
  }

  /** No marker in any passage and none between them. */
  lemma {:induction false} NoMarkerInside(segs: seq<Segment>, m: Marking, n: Notation)
    requires m.Uniform() && m.c == '*' && Seams(segs, m.c, n) && forall i :: 0 <= i < |segs| ==> NoMarker(Written(segs[i], n), m)
    ensures NoMarker(Message(segs, n), m)
  {
    hide NoMarker, Written;
    if segs == [] {
      NothingLeft("", m);
    } else {
      assert forall i :: 0 <= i < |segs[1..]| ==> segs[1..][i] == segs[i + 1];
      NoMarkerInside(segs[1..], m, n);
      NoMarkerConcat(Written(segs[0], n), Message(segs[1..], n), m);
    }
  }

  lemma {:induction false} StarSeams(segs: seq<Segment>, n: Notation)
    requires WellMarked(segs) && StarsAround(n)
    ensures Seams(segs, '*', n)
  {
    hide Written;
    if segs != [] {
      TailIsWellMarked(segs);
      StarSeams(segs[1..], n);
      SeamAfter("", segs, n);
    }
  }

  /** Three stars in a row are nowhere in a well-marked message. */
  const TRIPLE: Marking := Marking('*', "***", "", "")

  lemma StarMarkers(seg: Segment)
    requires WellFormed(seg)
    ensures NoMarker(Written(seg, MARKDOWN), TRIPLE)
    ensures !seg.Bold? ==> NoMarker(Written(seg, MARKDOWN), SLACK_BOLD)
  {
    hide NoMarker;
    var text := seg.text;
    NoCharNoMarker(text, TRIPLE);
    NoCharNoMarker(text, SLACK_BOLD);
    FewStars();
    if seg.Bold? {
      NoMarkerConcat(text, "**", TRIPLE);
      NoMarkerConcat("**", text + "**", TRIPLE);
    } else if seg.Italic? {
      NoMarkerConcat(text, "*", TRIPLE);
      NoMarkerConcat("*", text + "*", TRIPLE);
      NoMarkerConcat(text, "*", SLACK_BOLD);
      NoMarkerConcat("*", text + "*", SLACK_BOLD);
    } else {
      NoCharNoMarker(Written(seg, MARKDOWN), TRIPLE);
      NoCharNoMarker(Written(seg, MARKDOWN), SLACK_BOLD);
    }
  }

  lemma FewStars()
    ensures NoMarker("*", TRIPLE) && NoMarker("**", TRIPLE) && NoMarker("*", SLACK_BOLD)
  {
    hide Find;
    FindNone("*", "***");
    FindNone("**", "***");
    FindNone("*", "**");
  }

  const BOLD_DONE: Notation := MARKDOWN.(boldOpen := "<b>", boldClose := "</b>")
  const ITALIC_DONE: Notation := BOLD_DONE.(italicOpen := "<i>", italicClose := "</i>")
  const CODE_DONE: Notation := ITALIC_DONE.(codeOpen := "<code>", codeClose := "</code>")
  const SLACK_BOLD_DONE: Notation := MARKDOWN.(boldOpen := "*", boldClose := "*")

  lemma BoldPasses(segs: seq<Segment>)
    requires WellMarked(segs)
    ensures TelegramBold(Message(segs, MARKDOWN)) == Message(segs, BOLD_DONE)
    ensures SlackBold.Bold(Message(segs, MARKDOWN)) == Message(segs, SLACK_BOLD_DONE)
  {
    hide NoMarker, Find, OnePass, Rescan, Message, Converts, Seams, Written;
    var s := Message(segs, MARKDOWN);
    forall i | 0 <= i < |segs|
      ensures Converts(segs[i], TELEGRAM_BOLD, MARKDOWN, BOLD_DONE) && Converts(segs[i], SLACK_BOLD, MARKDOWN, SLACK_BOLD_DONE)
      ensures NoMarker(Written(segs[i], MARKDOWN), TRIPLE)
    {
      BoldConverts(segs[i]);
      StarMarkers(segs[i]);
    }
    StarSeams(segs, MARKDOWN);
    NothingLeft("", TELEGRAM_BOLD);
    NothingLeft("", SLACK_BOLD);
    PassOver("", segs, TELEGRAM_BOLD, MARKDOWN, BOLD_DONE);
    PassOver("", segs, SLACK_BOLD, MARKDOWN, SLACK_BOLD_DONE);
    assert "" + s == s && "" + Message(segs, BOLD_DONE) == Message(segs, BOLD_DONE);
    assert "" + Message(segs, SLACK_BOLD_DONE) == Message(segs, SLACK_BOLD_DONE);
    TelegramIsOnePass(s);
    NoMarkerInside(segs, TRIPLE, MARKDOWN);
    IsNoTriple(s);
    SlackBold.BoldIsOnePass(s);
  }

  lemma IsNoTriple(s: string)
    ensures NoTriple(s) <==> NoMarker(s, TRIPLE)
  {
    hide Find;
  }

  lemma BoldConverts(seg: Segment)
    requires WellFormed(seg)
    ensures Converts(seg, TELEGRAM_BOLD, MARKDOWN, BOLD_DONE) && Converts(seg, SLACK_BOLD, MARKDOWN, SLACK_BOLD_DONE)
  {
    hide Find;
    StarMarkers(seg);
  }

  lemma CodePass(segs: seq<Segment>)
    requires WellMarked(segs)
    ensures TelegramCode(Message(segs, ITALIC_DONE)) == Message(segs, CODE_DONE)
  {
    hide NoMarker, Find, OnePass, Rescan, Message;
    var s := Message(segs, ITALIC_DONE);
    forall i | 0 <= i < |segs| ensures Converts(segs[i], TELEGRAM_CODE, ITALIC_DONE, CODE_DONE) {
      CodeConverts(segs[i]);
    }
    CodeSeams(segs);
    NothingLeft("", TELEGRAM_CODE);
    PassOver("", segs, TELEGRAM_CODE, ITALIC_DONE, CODE_DONE);
    assert "" + s == s && "" + Message(segs, CODE_DONE) == Message(segs, CODE_DONE);
    TelegramIsOnePass(s);
  }

  lemma {:induction false} CodeSeams(segs: seq<Segment>)
    requires WellMarked(segs)
    ensures Seams(segs, '`', ITALIC_DONE)
  {
    if segs != [] {
      TailIsWellMarked(segs);
      CodeSeams(segs[1..]);
    }
  }

  lemma CodeConverts(seg: Segment)
    requires WellFormed(seg)
    ensures Converts(seg, TELEGRAM_CODE, ITALIC_DONE, CODE_DONE)
  {
    hide Find;
    if !seg.Code? {
      NoCharNoMarker(Written(seg, ITALIC_DONE), TELEGRAM_CODE);
    }
  }

  // ----- italic -----

  lemma {:induction false} NoStarsStay(s: string, i: nat, j: nat)
    requires i <= j <= |s| && forall k :: i <= k < j ==> s[k] != '*'
    ensures Stars.Render(Stars.Tokens(s, j)) == Stars.Render(Stars.Tokens(s, i)) + s[i..j]
    ensures Stars.IsolatedBefore(s, j) == Stars.IsolatedBefore(s, i)
  {
    hide Stars.Render, Stars.Tokens;
    if i < j {
      NoStarsStay(s, i, j - 1);
      Stars.RenderNext(s, j - 1);
      assert s[i..j] == s[i..j - 1] + [s[j - 1]];
      Assoc(Stars.Render(Stars.Tokens(s, i)), s[i..j - 1], [s[j - 1]]);
    }
  }

  /** The passages before `a` are shown; an even number of isolated stars means that no tag is open. */
  lemma {:induction false} ItalicPassages(s: string, a: string, segs: seq<Segment>)
    requires s == a + Message(segs, BOLD_DONE) && WellMarked(segs)
    requires Seam(a, Message(segs, BOLD_DONE), '*') && Stars.IsolatedBefore(s, |a|) % 2 == 0
    ensures Stars.Render(Stars.Tokens(s, |s|)) == Stars.Render(Stars.Tokens(s, |a|)) + Message(segs, ITALIC_DONE)
    decreases |segs|
  {
    hide Stars.Render, Stars.Tokens, Stars.IsolatedBefore, Seam, Written;
    var shown := Stars.Render(Stars.Tokens(s, |a|));
    if segs == [] {
      assert a + "" == a && shown + "" == shown;
    } else {
      var seg, w, rest := segs[0], Written(segs[0], BOLD_DONE), Message(segs[1..], BOLD_DONE);
      TailIsWellMarked(segs);
      SeamAfter(a, segs, BOLD_DONE);
      Assoc(a, w, rest);
      OnePassage(a, seg, rest);
      ItalicPassages(s, a + w, segs[1..]);
      Assoc(shown, Written(seg, ITALIC_DONE), Message(segs[1..], ITALIC_DONE));
    }
  }

  lemma OnePassage(a: string, seg: Segment, rest: string)
    requires WellFormed(seg) && Seam(a, Written(seg, BOLD_DONE), '*') && Seam(Written(seg, BOLD_DONE), rest, '*')
    requires Stars.IsolatedBefore(a + (Written(seg, BOLD_DONE) + rest), |a|) % 2 == 0
    ensures var w := Written(seg, BOLD_DONE);
            var s := a + (w + rest);
            && Stars.Render(Stars.Tokens(s, |a + w|)) == Stars.Render(Stars.Tokens(s, |a|)) + Written(seg, ITALIC_DONE)
            && Stars.IsolatedBefore(s, |a + w|) % 2 == 0
  {
    hide Stars.Render, Stars.Tokens, Stars.IsolatedBefore;
    if seg.Italic? {
      OneItalic(a, seg.text, rest);
    } else {
      var w := Written(seg, BOLD_DONE);
      var s := a + (w + rest);
      NoStarInside(seg);
      assert s[|a|..|a + w|] == w;
      assert forall k :: |a| <= k < |a + w| ==> s[k] == w[k - |a|];
      NoStarsStay(s, |a|, |a + w|);
    }
  }

  lemma NoStarInside(seg: Segment)
    requires WellFormed(seg) && !seg.Italic?
    ensures '*' !in Written(seg, BOLD_DONE) && Written(seg, ITALIC_DONE) == Written(seg, BOLD_DONE)
  {
  }

  lemma {:induction false} OneItalic(a: string, text: string, rest: string)
    requires text != "" && '*' !in text
    requires Seam(a, "*", '*') && Seam("*" + (text + "*"), rest, '*')
    requires Stars.IsolatedBefore(a + (("*" + (text + "*")) + rest), |a|) % 2 == 0
    ensures var s, end := a + (("*" + (text + "*")) + rest), |a| + |text| + 2;
            && Stars.Render(Stars.Tokens(s, end)) == Stars.Render(Stars.Tokens(s, |a|)) + ("<i>" + (text + "</i>"))
            && Stars.IsolatedBefore(s, end) % 2 == 0
  {
    hide Stars.Render, Stars.Tokens, Stars.IsolatedBefore, Seam;
    var s, i, j := a + (("*" + (text + "*")) + rest), |a|, |a| + 1 + |text|;
    InItalic(a, text, rest);
    ItalicAt(s, i, j);
    Regrouped(Stars.Render(Stars.Tokens(s, i)), "<i>", text, "</i>");
  }

  lemma Regrouped(a: string, b: string, c: string, d: string)
    ensures a + b + c + d == a + (b + (c + d))
  {
  }

  lemma ItalicAt(s: string, i: nat, j: nat)
    requires i + 1 < j < |s| && s[i] == s[j] == '*' && forall k :: i < k < j ==> s[k] != '*'
    requires (i > 0 ==> s[i - 1] != '*') && (j + 1 < |s| ==> s[j + 1] != '*')
    requires Stars.IsolatedBefore(s, i) % 2 == 0
    ensures Stars.Render(Stars.Tokens(s, j + 1)) == Stars.Render(Stars.Tokens(s, i)) + "<i>" + s[i + 1..j] + "</i>"
    ensures Stars.IsolatedBefore(s, j + 1) % 2 == 0
  {
    hide Stars.Render, Stars.Tokens;
    NoStarsStay(s, i + 1, j);
    assert Stars.Isolated(s, i) && Stars.Isolated(s, j);
    Stars.RenderNext(s, i);
    Stars.RenderNext(s, j);
  }

  lemma InItalic(a: string, text: string, rest: string)
    requires text != "" && '*' !in text
    requires Seam(a, "*", '*') && Seam("*" + (text + "*"), rest, '*')
    ensures var s, i, j := a + (("*" + (text + "*")) + rest), |a|, |a| + 1 + |text|;
            && s[i] == s[j] == '*' && s[i + 1..j] == text
            && (i > 0 ==> s[i - 1] != '*') && (j + 1 < |s| ==> s[j + 1] != '*')
            && forall k :: i < k < j ==> s[k] != '*'
  {
    var s, i, j := a + (("*" + (text + "*")) + rest), |a|, |a| + 1 + |text|;
    assert forall k :: i < k < j ==> s[k] == text[k - i - 1];
    var w := "*" + (text + "*");
    assert w[|w| - 1] == '*';
  }

  lemma ItalicPass(segs: seq<Segment>)
    requires WellMarked(segs)
    ensures TelegramItalic(Message(segs, BOLD_DONE)) == Message(segs, ITALIC_DONE)
  {
    hide Stars.Render, Stars.Tokens;
    var s := Message(segs, BOLD_DONE);
    assert "" + s == s;
    ItalicPassages(s, "", segs);
    Stars.RenderNothing(s);
    assert "" + Message(segs, ITALIC_DONE) == Message(segs, ITALIC_DONE);
  }

  // ----- links -----

  lemma NoBracketStays(s: string, style: Links.Style)
    requires '[' !in s
    ensures Links.Rescan(s, style) == s
  {
    hide Links.FirstLink;
    Links.FirstLinkAfter(s, "");
    assert s + "" == s;
    EmptyHasNoLink();
  }

  lemma EmptyHasNoLink()
    ensures Links.FirstLink("").None?
  {
  }

  lemma FindClose(a: string, c: char, d: string, b: string)
    requires c !in a && d != "" && d[0] == c
    ensures Find(a + (d + b), d) == Some(|a|)
  {
    hide Find;
    var s := a + (d + b);
    assert s[|a|..|a| + |d|] == d;
    forall j | 0 <= j < |a| ensures !OccursAt(s, d, j) {
      assert s[j] == a[j];
      if OccursAt(s, d, j) {
        OccursChar(s, d, j, 0);
      }
    }
    FindIs(s, d, |a|);
  }

  /** A text cut at a link is cut at its first link when the brackets are where they seem to be. */
  lemma FirstLinkIs(l: Links.Link)
    requires '[' !in l.before && ']' !in l.text && ')' !in l.url
    ensures Links.FirstLink(Links.Source(l)) == Some(l)
  {
    hide Find, OccursAt, Links.FirstLink;
    var s := Links.Source(l);
    var tail := l.url + (")" + l.after);
    var start := |l.before|;
    FindClose(l.before, '[', "[", l.text + ("](" + tail));
    CutConcat(l.before, "[", l.text + ("](" + tail));
    var from := s[start..];
    assert from == ("[" + l.text) + ("](" + tail);
    FindClose("[" + l.text, ']', "](", tail);
    var end := start + 1 + |l.text|;
    CutConcat("[" + l.text, "](", tail);
    assert s[end + 2..] == from[|l.text| + 3..] == tail;
    FindClose(l.url, ')', ")", l.after);
    CutConcat(l.url, ")", l.after);
    assert s[start + 1..end] == from[1..|l.text| + 1] == l.text;
    assert s[end + 2..end + 2 + |l.url|] == tail[..|l.url|] == l.url;
    assert s[end + 2 + |l.url| + 1..] == tail[|l.url| + 1..] == l.after;
    FirstLinkAt(s, start, 1 + |l.text|, |l.url|);
  }

  lemma FirstLinkAt(s: string, start: nat, len: nat, urlLen: nat)
    requires Find(s, "[") == Some(start) && Find(s[start..], "](") == Some(len)
    requires Find(s[start + len + 2..], ")") == Some(urlLen)
    ensures var end, close := start + len, start + len + 2 + urlLen;
            len > 0 && Links.FirstLink(s) == Some(Links.Link(s[..start], s[start + 1..end], s[end + 2..close], s[close + 1..]))
  {
    hide Find;
    Links.BracketBeforeEnd(s, start);
  }

  /** The marks of a link in each channel. */
  function Marks(style: Links.Style): LinkMarks {
    match style
    case TelegramLink => TELEGRAM.link
    case SlackLink => SLACK.link
    case PlainLink => PLAIN.link
  }

  lemma {:induction false} LinkPass(done: string, segs: seq<Segment>, n: Notation, style: Links.Style)
    requires WellMarked(segs) && '[' !in done && n.link == BRACKETED && NoBrackets(n)
    ensures Links.Rescan(done + Message(segs, n), style) == done + Message(segs, n.(link := Marks(style)))
    decreases |segs|
  {
    hide Links.Rescan, Links.Show, Written;
    var to := n.(link := Marks(style));
    if segs == [] {
      assert done + "" == done;
      NoBracketStays(done, style);
    } else {
      var seg, rest, shown := segs[0], Message(segs[1..], n), Written(segs[0], to);
      TailIsWellMarked(segs);
      PassageLinks(seg, n, style);
      if seg.Link? {
        OneLink(done, seg.text, seg.url, rest, style);
        assert Written(seg, n) + rest == Bracketed(seg.text, seg.url) + rest;
      }
      LinkPass(done + shown, segs[1..], n, style);
      Assoc(done, shown, rest);
      Assoc(done, shown, Message(segs[1..], to));
    }
  }

  predicate NoBrackets(n: Notation) {
    && '[' !in n.boldOpen && '[' !in n.boldClose && '[' !in n.italicOpen && '[' !in n.italicClose
    && '[' !in n.codeOpen && '[' !in n.codeClose
  }

  function Bracketed(text: string, url: string): string {
    "[" + (text + ("](" + (url + ")")))
  }

  lemma PassageLinks(seg: Segment, n: Notation, style: Links.Style)
    requires WellFormed(seg) && n.link == BRACKETED && NoBrackets(n)
    ensures var to := n.(link := Marks(style));
            && '[' !in Written(seg, to)
            && (seg.Link? ==> Written(seg, n) == Bracketed(seg.text, seg.url) && Written(seg, to) == Links.Show(style, seg.text, seg.url))
            && (!seg.Link? ==> Written(seg, to) == Written(seg, n))
  {
    if seg.Link? {
      hide Links.Show, Marks;
      Links.ShowHasNoBracket(style, seg.text, seg.url);
      ShownAs(style, seg.text, seg.url);
    }
  }

  /** What the loop writes for a link has the channel's marks around its parts, in the channel's order. */
  lemma ShownAs(style: Links.Style, text: string, url: string)
    ensures Links.Show(style, text, url) ==
            var m := Marks(style);
            if m.urlFirst then m.open + (url + (m.middle + (text + m.close))) else m.open + (text + (m.middle + (url + m.close)))
  {
    assert "" + (text + (" (" + (url + ")"))) == text + (" (" + (url + ")"));
  }

  lemma OneLink(done: string, text: string, url: string, rest: string, style: Links.Style)
    requires '[' !in done && ']' !in text && ')' !in url
    ensures Links.Rescan(done + (Bracketed(text, url) + rest), style)
         == Links.Rescan(done + (Links.Show(style, text, url) + rest), style)
  {
    hide Links.FirstLink, Links.Show;
    var l := Links.Link(done, text, url, rest);
    FirstLinkIs(l);
    assert Links.Source(l) == done + (Bracketed(text, url) + rest);
    Links.LinkShrinks(Links.Source(l), style);
  }

  // ----- plain text -----

  lemma {:induction false} WithoutPass(c: char, segs: seq<Segment>, n: Notation, to: Notation)
    requires forall i :: 0 <= i < |segs| ==> Without(c, Written(segs[i], n)) == Written(segs[i], to)
    ensures Without(c, Message(segs, n)) == Message(segs, to)
  {
    hide Written;
    if segs != [] {
      assert forall i :: 0 <= i < |segs[1..]| ==> segs[1..][i] == segs[i + 1];
      WithoutPass(c, segs[1..], n, to);
      WithoutConcat(c, Written(segs[0], n), Message(segs[1..], n));
    }
  }

  const STARS_GONE: Notation := Notation("", "", "", "", "`", "`", BRACKETED)
  const MARKS_GONE: Notation := Notation("", "", "", "", "", "", BRACKETED)

  lemma WithoutMarks(seg: Segment)
    requires WellFormed(seg)
    ensures Without('*', Written(seg, MARKDOWN)) == Written(seg, STARS_GONE)
    ensures Without('`', Written(seg, STARS_GONE)) == Written(seg, MARKS_GONE)
  {
    hide Without, Count;
    var text := seg.text;
    if seg.Bold? {
      WithoutAround(text, "**", '*');
    } else if seg.Italic? {
      WithoutAround(text, "*", '*');
    } else if seg.Code? {
      WithoutAround(text, "`", '`');
    }
    if !Starred(seg) {
      Untouched('*', Written(seg, MARKDOWN));
    }
    if !seg.Code? {
      Untouched('`', Written(seg, STARS_GONE));
    }
    assert "" + (text + "") == text;
  }

  lemma Untouched(c: char, s: string)
    requires c !in s
    ensures Without(c, s) == s
  {
    CountAbsent(c, s);
    CountZero(c, s);
  }

  lemma {:induction false} WithoutAround(text: string, marker: string, c: char)
    requires c !in text && forall i :: 0 <= i < |marker| ==> marker[i] == c
    ensures Without(c, marker + (text + marker)) == text
  {
    hide Without, Count;
    WithoutConcat(c, text, marker);
    WithoutConcat(c, marker, text + marker);
    CountUniform(c, marker);
    CountZero(c, marker);
    Untouched(c, text);
    assert "" + (text + "") == text;
  }

  // ----- the three formats -----

  /** A message comes out passage by passage, each one in the channel's notation. */
  lemma ConvertsMessage(segs: seq<Segment>)
    requires WellMarked(segs)
    ensures Telegram(Message(segs, MARKDOWN)) == Message(segs, TELEGRAM)
    ensures Slack(Message(segs, MARKDOWN)) == Message(segs, SLACK)
    ensures Plain(Message(segs, MARKDOWN)) == Message(segs, PLAIN)
  {
    hide Written, Rescan, Links.Rescan, Stars.Render, Stars.Tokens, Without, Message, WellMarked;
    BoldPasses(segs);
    ItalicPass(segs);
    CodePass(segs);
    LinksOnly(segs, CODE_DONE, Links.TelegramLink);
    LinksOnly(segs, SLACK_BOLD_DONE, Links.SlackLink);
    MarksDeleted(segs);
    LinksOnly(segs, MARKS_GONE, Links.PlainLink);
  }

  lemma LinksOnly(segs: seq<Segment>, n: Notation, style: Links.Style)
    requires WellMarked(segs) && n.link == BRACKETED && NoBrackets(n)
    ensures Links.Rescan(Message(segs, n), style) == Message(segs, n.(link := Marks(style)))
  {
    hide Links.Rescan, Message;
    LinkPass("", segs, n, style);
    assert "" + Message(segs, n) == Message(segs, n);
    assert "" + Message(segs, n.(link := Marks(style))) == Message(segs, n.(link := Marks(style)));
  }

  lemma MarksDeleted(segs: seq<Segment>)
    requires WellMarked(segs)
    ensures Without('`', Without('*', Message(segs, MARKDOWN))) == Message(segs, MARKS_GONE)
  {
    hide Written, Without, Message;
    forall i | 0 <= i < |segs|
      ensures Without('*', Written(segs[i], MARKDOWN)) == Written(segs[i], STARS_GONE)
      ensures Without('`', Written(segs[i], STARS_GONE)) == Written(segs[i], MARKS_GONE)
    {
      WithoutMarks(segs[i]);
    }
    WithoutPass('*', segs, MARKDOWN, STARS_GONE);
    WithoutPass('`', segs, STARS_GONE, MARKS_GONE);
  }

  // ----- one passage among words -----

  /** The message of one passage between two stretches of words, either of which may be empty. */
  function Among(pre: string, seg: Segment, post: string): seq<Segment> {
    (if pre == "" then [] else [Words(pre)]) + ([seg] + if post == "" then [] else [Words(post)])
  }

  lemma {:induction false} MessageAppend(a: seq<Segment>, b: seq<Segment>, n: Notation)
    ensures Message(a + b, n) == Message(a, n) + Message(b, n)
  {
    hide Written;
    if a == [] {
      assert a + b == b;
    } else {
      assert (a + b)[1..] == a[1..] + b;
      MessageAppend(a[1..], b, n);
    }
  }

  lemma MessageOne(seg: Segment, n: Notation)
    ensures Message([seg], n) == Written(seg, n) && Message([], n) == ""
  {
    assert [seg][1..] == [];
  }

  lemma MessageAmong(pre: string, seg: Segment, post: string, n: Notation)
    ensures Message(Among(pre, seg, post), n) == pre + Written(seg, n) + post
  {
    hide Message;
    var a, b := if pre == "" then [] else [Words(pre)], if post == "" then [] else [Words(post)];
    MessageOne(Words(pre), n);
    MessageOne(Words(post), n);
    MessageOne(seg, n);
    MessageAppend([seg], b, n);
    MessageAppend(a, [seg] + b, n);
  }

  lemma ConvertsAmong(pre: string, seg: Segment, post: string)
    requires WellFormed(seg) && Unmarked(pre) && Unmarked(post)
    ensures var s := pre + Written(seg, MARKDOWN) + post;
            && Telegram(s) == pre + Written(seg, TELEGRAM) + post
            && Slack(s) == pre + Written(seg, SLACK) + post
            && Plain(s) == pre + Written(seg, PLAIN) + post
  {
    hide Written, Message, Telegram, Slack, Plain;
    ConvertsMessage(Among(pre, seg, post));
    MessageAmong(pre, seg, post, MARKDOWN);
    MessageAmong(pre, seg, post, TELEGRAM);
    MessageAmong(pre, seg, post, SLACK);
    MessageAmong(pre, seg, post, PLAIN);
  }

  /** `**t**`, `*t*` and `` `t` `` among any words. */
  lemma ConvertsMarks(pre: string, t: string, post: string)
    requires Unmarked(pre) && Unmarked(t) && Unmarked(post) && t != ""
    ensures Telegram(pre + ("**" + (t + "**")) + post) == pre + ("<b>" + (t + "</b>")) + post
    ensures Slack(pre + ("**" + (t + "**")) + post) == pre + ("*" + (t + "*")) + post
    ensures Telegram(pre + ("*" + (t + "*")) + post) == pre + ("<i>" + (t + "</i>")) + post
    ensures Slack(pre + ("*" + (t + "*")) + post) == pre + ("*" + (t + "*")) + post
    ensures Telegram(pre + ("`" + (t + "`")) + post) == pre + ("<code>" + (t + "</code>")) + post
    ensures Slack(pre + ("`" + (t + "`")) + post) == pre + ("`" + (t + "`")) + post
    ensures Plain(pre + ("**" + (t + "**")) + post) == Plain(pre + ("*" + (t + "*")) + post)
         == Plain(pre + ("`" + (t + "`")) + post) == pre + t + post
  {
    hide Telegram, Slack, Plain;
    ConvertsAmong(pre, Bold(t), post);
    ConvertsAmong(pre, Italic(t), post);
    ConvertsAmong(pre, Code(t), post);
    assert "" + (t + "") == t;
  }

  /** `[text](url)` among any words. */
  lemma ConvertsLink(pre: string, text: string, url: string, post: string)
    requires Unmarked(pre) && Unmarked(text) && Unmarked(url) && Unmarked(post) && ']' !in text && ')' !in url
    ensures var s := pre + ("[" + (text + ("](" + (url + ")")))) + post;
            && Telegram(s) == pre + ("<a href=\"" + (url + ("\">" + (text + "</a>")))) + post
            && Slack(s) == pre + ("<" + (url + ("|" + (text + ">")))) + post
            && Plain(s) == pre + (text + (" (" + (url + ")"))) + post
  {
    hide Telegram, Slack, Plain;
    ConvertsAmong(pre, Link(text, url), post);
    assert "" + (text + (" (" + (url + ")"))) == text + (" (" + (url + ")"));
  }

  // ----- the order of the passes -----

  lemma PairOnce(before: string, inner: string, after: string, m: Marking)
    requires m == TELEGRAM_BOLD || m == TELEGRAM_CODE
    requires m.Valid() && NoMarker(before, m) && NoMarker(inner, m) && NoMarker(after, m)
    requires Seam(before, m.marker, m.c) && Seam(inner, m.marker, m.c)
    ensures Rescan(before + (m.marker + (inner + (m.marker + after))), m) == before + (m.open + (inner + (m.close + after)))
  {
    hide NoMarker, FirstPair, Rescan, OnePass, Seam;
    TelegramIsOnePass(before + (m.marker + (inner + (m.marker + after))));
    FirstPairIs(Pair(before, inner, after), m);
    OnPair(Pair(before, inner, after), m);
    NothingLeft(after, m);
  }

  lemma OnPair(p: Pair, m: Marking)
    requires m.Uniform() && FirstPair(Around(p, m.marker, m.marker), m) == Some(p)
    ensures OnePass(Around(p, m.marker, m.marker), m) == Around(p.(after := OnePass(p.after, m)), m.open, m.close)
  {
  }

  lemma NoMarkerStays(s: string, m: Marking)
    requires m.Valid() && NoMarker(s, m)
    ensures Rescan(s, m) == s
  {
    hide Find;
  }

  lemma {:induction false} Untokened(s: string, i: nat)
    requires i <= |s| && '*' !in s[..i]
    ensures Stars.Render(Stars.Tokens(s, i)) == s[..i] && Stars.IsolatedBefore(s, i) == 0
  {
    hide Stars.Render, Stars.Tokens;
    assert forall k :: 0 <= k < i ==> s[k] == s[..i][k];
    NoStarsStay(s, 0, i);
    Stars.RenderNothing(s);
    assert s[0..i] == s[..i];
  }

  /** Two stars, each alone. */
  lemma ItalicOnce(a: string, text: string, rest: string)
    requires '*' !in a && '*' !in text && '*' !in rest && text != ""
    ensures TelegramItalic(a + ("*" + (text + ("*" + rest)))) == a + ("<i>" + (text + ("</i>" + rest)))
  {
    hide Stars.Render, Stars.Tokens, Stars.IsolatedBefore;
    var s := a + ("*" + (text + ("*" + rest)));
    assert s == a + (("*" + (text + "*")) + rest);
    assert s[..|a|] == a;
    Untokened(s, |a|);
    OneItalic(a, text, rest);
    var end := |a| + |text| + 2;
    assert s[end..|s|] == rest;
    assert forall k :: end <= k < |s| ==> s[k] == rest[k - end];
    NoStarsStay(s, end, |s|);
    assert a + ("<i>" + (text + "</i>")) + rest == a + ("<i>" + (text + ("</i>" + rest)));
  }

  lemma ItalicStays(s: string)
    requires '*' !in s
    ensures TelegramItalic(s) == s
  {
    hide Stars.Render, Stars.Tokens;
    assert s[..|s|] == s;
    Untokened(s, |s|);
  }

  lemma CodeStays(s: string)
    requires '`' !in s
    ensures TelegramCode(s) == s
  {
    hide NoMarker, Rescan;
    TelegramMarkings();
    NoCharNoMarker(s, TELEGRAM_CODE);
    NoMarkerStays(s, TELEGRAM_CODE);
  }

  /** Bold comes before italic: of three stars the outer two are bold. */
  lemma ThreeStars(t: string)
    requires Unmarked(t) && t != ""
    ensures Telegram("**" + (("*" + t) + ("**" + "*"))) == "<b>" + ("<i>" + ((t + "</b>") + "</i>"))
  {
    hide NoMarker, Rescan, Links.Rescan, TelegramItalic, TelegramCode;
    BoldOfThree(t);
    ItalicOnce("<b>", t + "</b>", "");
    assert "<b>" + ("*" + ((t + "</b>") + ("*" + ""))) == "<b>" + (("*" + t) + ("</b>" + "*"));
    var italic := "<b>" + ("<i>" + ((t + "</b>") + "</i>"));
    assert "<b>" + ("<i>" + ((t + "</b>") + ("</i>" + ""))) == italic;
    CodeStays(italic);
    NoBracketStays(italic, Links.TelegramLink);
  }

  lemma BoldOfThree(t: string)
    requires Unmarked(t) && t != ""
    ensures TelegramBold("**" + (("*" + t) + ("**" + "*"))) == "<b>" + (("*" + t) + ("</b>" + "*"))
  {
    hide NoMarker, Rescan;
    TelegramMarkings();
    OneStar();
    NoCharNoMarker("", TELEGRAM_BOLD);
    NoCharNoMarker(t, TELEGRAM_BOLD);
    NoMarkerConcat("*", t, TELEGRAM_BOLD);
    PairOnce("", "*" + t, "*", TELEGRAM_BOLD);
    assert "" + ("**" + (("*" + t) + ("**" + "*"))) == "**" + (("*" + t) + ("**" + "*"));
    assert "" + ("<b>" + (("*" + t) + ("</b>" + "*"))) == "<b>" + (("*" + t) + ("</b>" + "*"));
  }

  lemma OneStar()
    ensures NoMarker("*", TELEGRAM_BOLD)
  {
    hide Find;
    FindNone("*", "**");
  }

  /** A link with one mark at the start of its text and one at the end of its URL. */
  function Crossed(open: string, t: string, u: string, close: string): string {
    "[" + (open + ((t + ("](" + u)) + (close + ")")))
  }

  /** The links come last: marks that pair up across the parts of a link are replaced before the parts change places. */
  lemma MarksBeforeLinks(t: string, u: string)
    requires Unmarked(t) && Unmarked(u) && ']' !in t && ')' !in u
    ensures Telegram("[" + ("**" + ((t + ("](" + u)) + ("**" + ")"))))
         == "<a href=\"" + ((u + "</b>") + ("\">" + (("<b>" + t) + "</a>")))
    ensures Telegram("[" + ("*" + ((t + ("](" + u)) + ("*" + ")"))))
         == "<a href=\"" + ((u + "</i>") + ("\">" + (("<i>" + t) + "</a>")))
    ensures Telegram("[" + ("`" + ((t + ("](" + u)) + ("`" + ")"))))
         == "<a href=\"" + ((u + "</code>") + ("\">" + (("<code>" + t) + "</a>")))
  {
    hide TelegramBold, TelegramItalic, TelegramCode, Links.Rescan;
    var inner := t + ("](" + u);
    CrossedPasses(inner);
    CrossedLink("<b>", t, u, "</b>");
    CrossedLink("<i>", t, u, "</i>");
    CrossedLink("<code>", t, u, "</code>");
  }

  lemma CrossedLink(open: string, t: string, u: string, close: string)
    requires '[' !in open + t && '[' !in u + close && ']' !in open + t && ')' !in u + close
    ensures Links.Rescan(Crossed(open, t, u, close), Links.TelegramLink)
         == "<a href=\"" + ((u + close) + ("\">" + ((open + t) + "</a>")))
  {
    hide Links.Rescan, Links.Show;
    var text, url := open + t, u + close;
    OneLink("", text, url, "", Links.TelegramLink);
    assert "" + (Bracketed(text, url) + "") == Crossed(open, t, u, close);
    assert "" + (Links.Show(Links.TelegramLink, text, url) + "") == Links.Show(Links.TelegramLink, text, url);
    Links.ShowHasNoBracket(Links.TelegramLink, text, url);
    NoBracketStays(Links.Show(Links.TelegramLink, text, url), Links.TelegramLink);
    ShownAs(Links.TelegramLink, text, url);
  }

  /** What the three passes before the links make of such a text. */
  lemma CrossedPasses(inner: string)
    requires '*' !in inner && '`' !in inner && inner != ""
    ensures TelegramCode(TelegramItalic(TelegramBold("[" + ("**" + (inner + ("**" + ")"))))))
         == "[" + ("<b>" + (inner + ("</b>" + ")")))
    ensures TelegramCode(TelegramItalic(TelegramBold("[" + ("*" + (inner + ("*" + ")"))))))
         == "[" + ("<i>" + (inner + ("</i>" + ")")))
    ensures TelegramCode(TelegramItalic(TelegramBold("[" + ("`" + (inner + ("`" + ")"))))))
         == "[" + ("<code>" + (inner + ("</code>" + ")")))
  {
    hide NoMarker, Rescan, TelegramItalic;
    TelegramMarkings();
    NoCharNoMarker("[", TELEGRAM_BOLD);
    NoCharNoMarker(inner, TELEGRAM_BOLD);
    NoCharNoMarker(")", TELEGRAM_BOLD);
    PairOnce("[", inner, ")", TELEGRAM_BOLD);
    ItalicStays("[" + ("<b>" + (inner + ("</b>" + ")"))));
    CodeStays("[" + ("<b>" + (inner + ("</b>" + ")"))));
    NoBoldHere(inner);
    ItalicOnce("[", inner, ")");
    CodeStays("[" + ("<i>" + (inner + ("</i>" + ")"))));
    var code := "[" + ("`" + (inner + ("`" + ")")));
    NoCharNoMarker(code, TELEGRAM_BOLD);
    NoMarkerStays(code, TELEGRAM_BOLD);
    ItalicStays(code);
    NoCharNoMarker("[", TELEGRAM_CODE);
    NoCharNoMarker(inner, TELEGRAM_CODE);
    NoCharNoMarker(")", TELEGRAM_CODE);
    PairOnce("[", inner, ")", TELEGRAM_CODE);
  }

  lemma NoBoldHere(inner: string)
    requires '*' !in inner && inner != ""
    ensures TelegramBold("[" + ("*" + (inner + ("*" + ")")))) == "[" + ("*" + (inner + ("*" + ")")))
  {
    hide NoMarker, Rescan;
    var m := TELEGRAM_BOLD;
    OneStar();
    TelegramMarkings();
    NoCharNoMarker("[", m);
    NoCharNoMarker(")", m);
    NoCharNoMarker(inner, m);
    NoMarkerConcat("*", ")", m);
    NoMarkerConcat(inner, "*" + ")", m);
    NoMarkerConcat("*", inner + ("*" + ")"), m);
    NoMarkerConcat("[", "*" + (inner + ("*" + ")")), m);
    NoMarkerStays("[" + ("*" + (inner + ("*" + ")"))), m);
  }
}
