// The link loops of the channel formatter (crates/clawreform-channels/src/formatter.rs:77-98, 118-139, 169-190):
// the same search in all three, with a different rendering.

module Links {
  import opened Text

  datatype Style = TelegramLink | SlackLink | PlainLink

  function Show(style: Style, text: string, url: string): string {
    match style
    case TelegramLink => "<a href=\"" + (url + ("\">" + (text + "</a>")))
    case SlackLink => "<" + (url + ("|" + (text + ">")))
    case PlainLink => text + (" (" + (url + ")"))
  }

  /** The characters a rendering adds around the text and the URL. */
  function Frame(style: Style): string {
    match style
    case TelegramLink => "<a href=\"" + ("\">" + "</a>")
    case SlackLink => "<" + ("|" + ">")
    case PlainLink => " (" + ")"
  }

  /** A text cut at a link. */
  datatype Link = Link(before: string, text: string, url: string, after: string)

  function Source(l: Link): string {
    l.before + ("[" + (l.text + ("](" + (l.url + (")" + l.after)))))
  }

  function Shown(l: Link, style: Style): string {
    l.before + (Show(style, l.text, l.url) + l.after)
  }

  /** The first `[`, the first `](` from there, the first `)` from there. */
  function FirstLink(s: string): Option<Link> {
    match Find(s, "[")
    case None => None
    case Some(start) =>
      match Find(s[start..], "](")
      case None => None
      case Some(len) =>
        var end := start + len;
        match Find(s[end + 2..], ")")
        case None => None
        case Some(urlLen) =>
          BracketBeforeEnd(s, start);
          Some(Link(s[..start], s[start + 1..end], s[end + 2..end + 2 + urlLen], s[end + 2 + urlLen + 1..]))
  }

  lemma BracketBeforeEnd(s: string, start: nat)
    requires OccursAt(s, "[", start)
    ensures var r := Find(s[start..], "]("); r.Some? ==> r.value > 0
  {
    hide Find;
    var r := Find(s[start..], "](");
    OccursChar(s, "[", start, 0);
    if r.Some? {
      OccursChar(s[start..], "](", r.value, 0);
    }
  }

  lemma FirstLinkParts(s: string)
    requires FirstLink(s).Some?
    ensures s == Source(FirstLink(s).value)
    ensures '[' !in FirstLink(s).value.before
  {
    hide Find;
    var l := FirstLink(s).value;
    var start := Find(s, "[").value;
    BracketBeforeEnd(s, start);
    var len := Find(s[start..], "](").value;
    OccursInRest(s, "](", start, start + len);
    CutParts(s, start, start + len, Find(s[start + len + 2..], ")").value);
    FindFirst(s, "[");
    forall i | 0 <= i < |l.before| ensures l.before[i] != '[' {
      assert !OccursAt(s, "[", i) && s[i..i + 1] == [s[i]];
    }
  }

  lemma CutParts(s: string, start: nat, end: nat, urlLen: nat)
    requires start < end && OccursAt(s, "[", start) && OccursAt(s, "](", end)
    requires OccursAt(s[end + 2..], ")", urlLen)
    ensures var close := end + 2 + urlLen;
            s == s[..start] + ("[" + (s[start + 1..end] + ("](" + (s[end + 2..close] + (")" + s[close + 1..])))))
  {
    var tail := s[end + 2..];
    assert tail == tail[..urlLen] + (")" + tail[urlLen + 1..]);
    assert tail[..urlLen] == s[end + 2..end + 2 + urlLen] && tail[urlLen + 1..] == s[end + 2 + urlLen + 1..];
    assert s[end..] == "](" + tail;
    assert s[start..] == "[" + (s[start + 1..end] + s[end..]);
    assert s == s[..start] + s[start..];
  }

  // ----- counting -----

  lemma CountShow(d: char, style: Style, text: string, url: string)
    ensures Count(d, Show(style, text, url)) == Count(d, text) + Count(d, url) + Count(d, Frame(style))
  {
    hide Count;
    match style
    case TelegramLink =>
      CountConcat(d, text, "</a>");
      CountConcat(d, "\">", text + "</a>");
      CountConcat(d, url, "\">" + (text + "</a>"));
      CountConcat(d, "<a href=\"", url + ("\">" + (text + "</a>")));
      CountConcat(d, "\">", "</a>");
      CountConcat(d, "<a href=\"", "\">" + "</a>");
    case SlackLink =>
      CountConcat(d, text, ">");
      CountConcat(d, "|", text + ">");
      CountConcat(d, url, "|" + (text + ">"));
      CountConcat(d, "<", url + ("|" + (text + ">")));
      CountConcat(d, "|", ">");
      CountConcat(d, "<", "|" + ">");
    case PlainLink =>
      CountConcat(d, url, ")");
      CountConcat(d, " (", url + ")");
      CountConcat(d, text, " (" + (url + ")"));
      CountConcat(d, " (", ")");
  }

  const BRACKETS: string := "[" + ("](" + ")")

  lemma CountSource(d: char, l: Link)
    ensures Count(d, Source(l)) == Count(d, l.before) + Count(d, l.text) + Count(d, l.url) + Count(d, l.after) + Count(d, BRACKETS)
  {
    hide Count;
    CountConcat(d, ")", l.after);
    CountConcat(d, l.url, ")" + l.after);
    CountConcat(d, "](", l.url + (")" + l.after));
    CountConcat(d, l.text, "](" + (l.url + (")" + l.after)));
    CountConcat(d, "[", l.text + ("](" + (l.url + (")" + l.after))));
    CountConcat(d, l.before, "[" + (l.text + ("](" + (l.url + (")" + l.after)))));
    CountConcat(d, "](", ")");
    CountConcat(d, "[", "](" + ")");
  }

  /** One round replaces one set of brackets by one frame, in the number of any character. */
  lemma {:induction false} LinkCounts(s: string, style: Style, d: char)
    requires FirstLink(s).Some?
    ensures Count(d, Shown(FirstLink(s).value, style)) + Count(d, BRACKETS) == Count(d, s) + Count(d, Frame(style))
  {
    hide FirstLink, Count;
    var l := FirstLink(s).value;
    FirstLinkParts(s);
    CountSource(d, l);
    CountShow(d, style, l.text, l.url);
    CountConcat(d, Show(style, l.text, l.url), l.after);
    CountConcat(d, l.before, Show(style, l.text, l.url) + l.after);
  }

  lemma FrameHasNoBracket(style: Style)
    ensures Count('[', Frame(style)) == 0 && Count('[', BRACKETS) == 1
  {
    hide Count;
    assert '[' !in Frame(style) by {
      match style
      case TelegramLink => assert Frame(style) == "<a href=\"\"></a>";
      case SlackLink => assert Frame(style) == "<|>";
      case PlainLink => assert Frame(style) == " ()";
    }
    CountAbsent('[', Frame(style));
    CountConcat('[', "[", "](" + ")");
    assert "](" + ")" == "]()";
    CountAbsent('[', "]()");
    CountOne('[');
  }

  lemma CountOne(c: char)
    ensures Count(c, [c]) == 1
  {
    assert [c][1..] == "";
  }

  /** Every round leaves exactly one `[` less, whatever the link text and the URL contain. */
  lemma LinkShrinks(s: string, style: Style)
    requires FirstLink(s).Some?
    ensures Count('[', Shown(FirstLink(s).value, style)) == Count('[', s) - 1
  {
    hide FirstLink, Count;
    LinkCounts(s, style, '[');
    FrameHasNoBracket(style);
  }

  // ----- the loop -----

  function Rescan(s: string, style: Style): string
    decreases Count('[', s)
  {
    match FirstLink(s)
    case None => s
    case Some(l) =>
      LinkShrinks(s, style);
      Rescan(Shown(l, style), style)
  }

  method ConvertLinks(text: string, style: Style) returns (result: string)
    ensures result == Rescan(text, style)
  {
    hide Find, Show, Count;
    result := text;
    while true
      invariant Rescan(result, style) == Rescan(text, style)
      decreases Count('[', result)
    {
      var start := Find(result, "[");
      if start.None? {
        break;
      }
      var len := Find(result[start.value..], "](");
      if len.None? {
        break;
      }
      var end := start.value + len.value;
      var urlLen := Find(result[end + 2..], ")");
      if urlLen.None? {
        break;
      }
      BracketBeforeEnd(result, start.value);
      LinkShrinks(result, style);
      var linkText := result[start.value + 1..end];
      var url := result[end + 2..end + 2 + urlLen.value];
      result := result[..start.value] + (Show(style, linkText, url) + result[end + 2 + urlLen.value + 1..]);
    }
  }

  // ----- normal form -----

  /** No `[` with a `](` after it and a `)` after that. */
  ghost predicate NoLink(s: string) {
    forall i, j, k :: OccursAt(s, "[", i) && OccursAt(s, "](", j) && OccursAt(s, ")", k) && i <= j ==> k < j + 2
  }

  lemma StopsOnNoLink(s: string)
    ensures FirstLink(s).None? <==> NoLink(s)
  {
    hide Find;
    var a := Find(s, "[");
    FindFirst(s, "[");
    if a.Some? {
      var b := Find(s[a.value..], "](");
      FindFirst(s[a.value..], "](");
      if b.Some? {
        var end := a.value + b.value;
        OccursInRest(s, "](", a.value, end);
        var c := Find(s[end + 2..], ")");
        FindFirst(s[end + 2..], ")");
        if c.Some? {
          OccursInRest(s, ")", end + 2, end + 2 + c.value);
        }
      }
      if FirstLink(s).None? {
        forall i, j, k | OccursAt(s, "[", i) && OccursAt(s, "](", j) && OccursAt(s, ")", k) && i <= j ensures k < j + 2 {
          OccursInRest(s, "](", a.value, j);
          if k >= j + 2 {
            OccursInRest(s, ")", a.value + b.value + 2, k);
          }
        }
      }
    }
  }

  lemma {:induction false} RescanHasNoLink(s: string, style: Style)
    ensures NoLink(Rescan(s, style))
    decreases Count('[', s)
  {
    hide FirstLink, Shown;
    StopsOnNoLink(s);
    if FirstLink(s).Some? {
      LinkShrinks(s, style);
      RescanHasNoLink(Shown(FirstLink(s).value, style), style);
    }
  }

  /** Each link pass leaves no link, and running it again, in any style, changes nothing. */
  lemma LinksIdempotent(s: string, style: Style, again: Style)
    ensures NoLink(Rescan(s, style)) && Rescan(Rescan(s, style), again) == Rescan(s, style)
  {
    RescanHasNoLink(s, style);
    StopsOnNoLink(Rescan(s, style));
  }

  /**
   * What the whole loop does to the number of any character: for every `[` that went, one set of brackets has
   * become one frame. No character of a text or a URL is lost or doubled.
   */
  lemma {:induction false} LinksKeepText(s: string, style: Style, d: char)
    ensures Count('[', Rescan(s, style)) <= Count('[', s)
    ensures var links := Count('[', s) - Count('[', Rescan(s, style));
            Count(d, Rescan(s, style)) + links * Count(d, BRACKETS) == Count(d, s) + links * Count(d, Frame(style))
    decreases Count('[', s)
  {
    hide FirstLink, Shown, Frame;
    if FirstLink(s).Some? {
      var t := Shown(FirstLink(s).value, style);
      LinkShrinks(s, style);
      LinkCounts(s, style, d);
      LinksKeepText(t, style, d);
      var links := Count('[', t) - Count('[', Rescan(t, style));
      OneMore(links, Count(d, BRACKETS));
      OneMore(links, Count(d, Frame(style)));
    }
  }

  lemma OneMore(k: nat, x: nat)
    ensures (k + 1) * x == k * x + x
  {
  }

  // ----- plain links, one by one -----

  /** Every link rendered on the way from left to right; what is written is never read. */
  function OnePass(s: string, style: Style): string
    decreases Count('[', s)
  {
    match FirstLink(s)
    case None => s
    case Some(l) =>
      AfterShrinks(s);
      Shown(l.(after := OnePass(l.after, style)), style)
  }

  /** No link has a `[` in its text or its URL. */
  predicate Simple(s: string)
    decreases Count('[', s)
  {
    match FirstLink(s)
    case None => true
    case Some(l) => AfterShrinks(s); '[' !in l.text && '[' !in l.url && Simple(l.after)
  }

  lemma AfterShrinks(s: string)
    requires FirstLink(s).Some?
    ensures Count('[', FirstLink(s).value.after) < Count('[', s)
  {
    hide FirstLink, Count;
    var l := FirstLink(s).value;
    FirstLinkParts(s);
    CountSource('[', l);
    FrameHasNoBracket(PlainLink);
  }

  lemma FindAfterChar(a: string, b: string, c: char)
    requires c !in a
    ensures var r := Find(b, [c]); Find(a + b, [c]) == if r.Some? then Some(|a| + r.value) else None
  {
    hide Find;
    var r := Find(b, [c]);
    FindFirst(b, [c]);
    FindNone(a + b, [c]);
    assert (a + b)[|a|..] == b;
    forall j | (r.Some? ==> j < |a| + r.value) ensures !OccursAt(a + b, [c], j) {
      if j >= |a| {
        OccursInRest(a + b, [c], |a|, j);
      } else if 0 <= j {
        assert (a + b)[j..j + 1][0] == a[j];
      }
    }
    if r.Some? {
      OccursInRest(a + b, [c], |a|, |a| + r.value);
      FindIs(a + b, [c], |a| + r.value);
    }
  }

  lemma FirstLinkAfter(a: string, b: string)
    requires '[' !in a
    ensures FirstLink(a + b) == match FirstLink(b) case None => None case Some(l) => Some(l.(before := a + l.before))
  {
    hide Find;
    FindAfterChar(a, b, '[');
    var start := Find(b, "[");
    if start.Some? {
      var ab := a + b;
      assert ab[|a| + start.value..] == b[start.value..];
      var len := Find(b[start.value..], "](");
      if len.Some? {
        var end := start.value + len.value;
        assert ab[|a| + end + 2..] == b[end + 2..];
        var urlLen := Find(b[end + 2..], ")");
        if urlLen.Some? {
          BracketBeforeEnd(b, start.value);
          assert ab[..|a| + start.value] == a + b[..start.value];
          assert ab[|a| + start.value + 1..|a| + end] == b[start.value + 1..end];
          assert ab[|a| + end + 2..|a| + end + 2 + urlLen.value] == b[end + 2..end + 2 + urlLen.value];
          assert ab[|a| + end + 2 + urlLen.value + 1..] == b[end + 2 + urlLen.value + 1..];
        }
      }
    }
  }

  lemma {:induction false} RescanAfter(done: string, s: string, style: Style)
    requires '[' !in done && Simple(s)
    ensures Rescan(done + s, style) == done + OnePass(s, style)
    decreases Count('[', s)
  {
    hide FirstLink, Show;
    FirstLinkAfter(done, s);
    match FirstLink(s)
    case None =>
    case Some(l) =>
      AfterShrinks(s);
      FirstLinkParts(s);
      ShowHasNoBracket(style, l.text, l.url);
      var shown := Show(style, l.text, l.url);
      var done' := done + l.before + shown;
      Assoc(done + l.before, shown, l.after);
      Assoc(done + l.before, shown, OnePass(l.after, style));
      Assoc(done, l.before, shown + OnePass(l.after, style));
      RescanAfter(done', l.after, style);
  }

  lemma ShowHasNoBracket(style: Style, text: string, url: string)
    requires '[' !in text && '[' !in url
    ensures '[' !in Show(style, text, url)
  {
    hide Count, Show, Frame;
    CountZero('[', text);
    CountZero('[', url);
    CountShow('[', style, text, url);
    FrameHasNoBracket(style);
    CountZero('[', Show(style, text, url));
  }

  /** When no link text and no URL contains a `[`, every link is rendered once and the rest is left alone. */
  lemma LinksAreOnePass(s: string, style: Style)
    requires Simple(s)
    ensures Rescan(s, style) == OnePass(s, style)
  {
    RescanAfter("", s, style);
    assert "" + s == s && "" + OnePass(s, style) == OnePass(s, style);
  }
}
