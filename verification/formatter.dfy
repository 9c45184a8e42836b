// Channel-specific message formatting (crates/clawreform-channels/src/formatter.rs).

module Formatter {
  import opened Text
  import opened MarkerPairs
  import OnePassPairs
  import SlackBold
  import Stars
  import Links

  datatype OutputFormat = Markdown | TelegramHtml | SlackMrkdwn | PlainText

  // ----- what the three conversions compute -----

  function TelegramBold(s: string): string {
    OnePassPairs.TelegramMarkings();
    Rescan(s, TELEGRAM_BOLD)
  }

  function TelegramItalic(s: string): string {
    Stars.Render(Stars.Tokens(s, |s|))
  }

  function TelegramCode(s: string): string {
    OnePassPairs.TelegramMarkings();
    Rescan(s, TELEGRAM_CODE)
  }

  function Telegram(s: string): string {
    Links.Rescan(TelegramCode(TelegramItalic(TelegramBold(s))), Links.TelegramLink)
  }

  function Slack(s: string): string {
    Links.Rescan(SlackBold.Bold(s), Links.SlackLink)
  }

  /** All stars and backticks deleted, then the links. */
  function Plain(s: string): string {
    Links.Rescan(Without('`', Without('*', s)), Links.PlainLink)
  }

  // ----- the code -----

  method FormatForChannel(text: string, format: OutputFormat) returns (r: string)
    ensures r == match format
                 case Markdown => text
                 case TelegramHtml => Telegram(text)
                 case SlackMrkdwn => Slack(text)
                 case PlainText => Plain(text)
  {
    match format
    case Markdown => r := text;
    case TelegramHtml => r := MarkdownToTelegramHtml(text);
    case SlackMrkdwn => r := MarkdownToSlackMrkdwn(text);
    case PlainText => r := MarkdownToPlain(text);
  }

  method MarkdownToTelegramHtml(text: string) returns (result: string)
    ensures result == Telegram(text)
  {
    OnePassPairs.TelegramMarkings();
    result := ReplacePairs(text, TELEGRAM_BOLD);
    result := Stars.Italicize(result);
    result := ReplacePairs(result, TELEGRAM_CODE);
    result := Links.ConvertLinks(result, Links.TelegramLink);
  }

  method MarkdownToSlackMrkdwn(text: string) returns (result: string)
    ensures result == Slack(text)
  {
    SlackBold.SlackMarking();
    result := ReplacePairs(text, SLACK_BOLD);
    result := Links.ConvertLinks(result, Links.SlackLink);
  }

  method MarkdownToPlain(text: string) returns (result: string)
    ensures result == Plain(text)
  {
    Stars.StarsRemoved(text);
    result := Stars.ReplaceAll(text, "**", "");
    result := Stars.RemoveIsolated(result);
    Stars.ReplaceOne(result, '`');
    result := Stars.ReplaceAll(result, "`", "");
    result := Links.ConvertLinks(result, Links.PlainLink);
  }

  // ----- plain text -----

  /** A character that is in no bracket and no frame is as frequent after a link pass as before. */
  lemma LinksKeepCount(s: string, style: Links.Style, d: char)
    requires Count(d, Links.BRACKETS) == Count(d, Links.Frame(style)) == 0
    ensures Count(d, Links.Rescan(s, style)) == Count(d, s)
  {
    hide Count, Links.Rescan, Links.Frame;
    Links.LinksKeepText(s, style, d);
    var links := Count('[', s) - Count('[', Links.Rescan(s, style));
    assert links * Count(d, Links.BRACKETS) == 0 == links * Count(d, Links.Frame(style));
  }

  lemma NotInLinks(d: char, style: Links.Style)
    requires d !in "[]()" && d !in "<a href=\"\"></a>" && d !in "<|>"
    ensures Count(d, Links.BRACKETS) == 0 && (d != ' ' ==> Count(d, Links.Frame(style)) == 0)
  {
    hide Count;
    assert Links.BRACKETS == "[]()";
    CountAbsent(d, Links.BRACKETS);
    match style
    case TelegramLink => assert Links.Frame(style) == "<a href=\"\"></a>"; CountAbsent(d, Links.Frame(style));
    case SlackLink => assert Links.Frame(style) == "<|>"; CountAbsent(d, Links.Frame(style));
    case PlainLink => assert Links.Frame(style) == " ()"; if d != ' ' { CountAbsent(d, Links.Frame(style)); }
  }

  /** Plain text has no star, no backtick and no link left, and formatting it again changes nothing. */
  lemma PlainIsPlain(s: string)
    ensures '*' !in Plain(s) && '`' !in Plain(s) && Links.NoLink(Plain(s))
    ensures Plain(Plain(s)) == Plain(s)
  {
    hide Count, Without, Links.Rescan;
    var t := Without('`', Without('*', s));
    WithoutBoth(s);
    NotInLinks('*', Links.PlainLink);
    NotInLinks('`', Links.PlainLink);
    LinksKeepCount(t, Links.PlainLink, '*');
    LinksKeepCount(t, Links.PlainLink, '`');
    CountZero('*', Plain(s));
    CountZero('`', Plain(s));
    Links.LinksIdempotent(t, Links.PlainLink, Links.PlainLink);
  }

  lemma WithoutBoth(s: string)
    ensures Count('*', Without('`', Without('*', s))) == 0 && Count('`', Without('`', Without('*', s))) == 0
  {
    var u := Without('*', s);
    CountZero('*', s);
    CountZero('*', u);
    CountZero('`', u);
    CountZero('`', Without('`', u));
    WithoutOther(u, '`', '*');
  }

  lemma {:induction false} WithoutOther(s: string, c: char, d: char)
    requires c != d
    ensures Count(d, Without(c, s)) == Count(d, s)
  {
    if s != "" {
      WithoutOther(s[1..], c, d);
      CountConcat(d, if s[0] == c then "" else [s[0]], Without(c, s[1..]));
    }
  }

  /** The characters that plain formatting may add or take away. */
  const MARKS: string := "*`[]() "

  /** What is left of a text without the marks. */
  function Words(s: string): string {
    if s == "" then "" else (if s[0] in MARKS then "" else [s[0]]) + Words(s[1..])
  }

  lemma {:induction false} WordsConcat(a: string, b: string)
    ensures Words(a + b) == Words(a) + Words(b)
  {
    if a == "" {
      assert a + b == b;
    } else {
      assert (a + b)[1..] == a[1..] + b;
      WordsConcat(a[1..], b);
    }
  }

  lemma {:induction false} WordsOfMarks(s: string)
    requires forall c :: c in s ==> c in MARKS
    ensures Words(s) == ""
  {
    if s != "" {
      WordsOfMarks(s[1..]);
    }
  }

  lemma {:induction false} WordsWithout(s: string, c: char)
    requires c in MARKS
    ensures Words(Without(c, s)) == Words(s)
  {
    if s != "" {
      WordsWithout(s[1..], c);
      WordsConcat(if s[0] == c then "" else [s[0]], Without(c, s[1..]));
      assert [s[0]][1..] == "";
      assert Words([s[0]]) == (if s[0] in MARKS then "" else [s[0]]) + Words("");
    }
  }

  lemma WordsOfLink(l: Links.Link)
    ensures Words(Links.Source(l)) == Words(Links.Shown(l, Links.PlainLink))
  {
    hide Words;
    WordsOfMarks("[");
    WordsOfMarks("](");
    WordsOfMarks(")");
    WordsOfMarks(" (");
    var url := l.url + (")" + l.after);
    WordsConcat(l.before, "[" + (l.text + ("](" + url)));
    WordsConcat("[", l.text + ("](" + url));
    WordsConcat(l.text, "](" + url);
    WordsConcat("](", url);
    WordsConcat(" (", url);
    WordsConcat(l.text, " (" + url);
    WordsConcat(l.before, l.text + (" (" + url));
    PlainShown(l);
  }

  lemma PlainShown(l: Links.Link)
    ensures Links.Shown(l, Links.PlainLink) == l.before + (l.text + (" (" + (l.url + (")" + l.after))))
  {
    Assoc(l.text, " (" + (l.url + ")"), l.after);
    Assoc(" (", l.url + ")", l.after);
    Assoc(l.url, ")", l.after);
  }

  lemma {:induction false} LinksKeepWords(s: string)
    ensures Words(Links.Rescan(s, Links.PlainLink)) == Words(s)
    decreases Count('[', s)
  {
    hide Words, Links.FirstLink, Links.Shown, Links.Source;
    if Links.FirstLink(s).Some? {
      var l := Links.FirstLink(s).value;
      Links.FirstLinkParts(s);
      Links.LinkShrinks(s, Links.PlainLink);
      WordsOfLink(l);
      LinksKeepWords(Links.Shown(l, Links.PlainLink));
    }
  }

  /** Plain formatting keeps every other character, in order. */
  lemma PlainKeepsText(s: string)
    ensures Words(Plain(s)) == Words(s)
  {
    hide Words, Without, Links.Rescan;
    LinksKeepWords(Without('`', Without('*', s)));
    assert '`' in MARKS && '*' in MARKS;
    WordsWithout(Without('*', s), '`');
    WordsWithout(s, '*');
  }

  // ----- Telegram -----

  /** Backticks go in pairs: one is left exactly when the message has an odd number. */
  lemma {:induction false} TelegramBackticks(s: string)
    ensures Count('`', Telegram(s)) == Count('`', s) % 2
  {
    hide Count, Rescan, Links.Rescan, Stars.Render, Stars.Tokens;
    var bold := TelegramBold(s);
    var italic := TelegramItalic(bold);
    var code := TelegramCode(italic);
    OnePassPairs.TelegramMarkings();
    MarkingCounts('`');
    RescanKeepsCount(s, TELEGRAM_BOLD, '`');
    Stars.ItalicCounts(bold, |bold|, '`');
    assert bold[..|bold|] == bold;
    RescanParity(italic, TELEGRAM_CODE);
    RescanIsNormal(italic, TELEGRAM_CODE);
    NoPairOnce(code, TELEGRAM_CODE);
    NotInLinks('`', Links.TelegramLink);
    LinksKeepCount(code, Links.TelegramLink, '`');
  }

  lemma MarkingCounts(d: char)
    requires d !in "<b>" && d !in "</b>" && d !in "<code>" && d !in "</code>"
    ensures Count(d, "<b>") == Count(d, "</b>") == 0 && Count(d, "<code>") == Count(d, "</code>") == 0
    ensures d != '*' ==> Count(d, "**") == 0
    ensures d != '`' ==> Count(d, "`") == 0
  {
    hide Count;
    CountAbsent(d, "<b>");
    CountAbsent(d, "</b>");
    CountAbsent(d, "<code>");
    CountAbsent(d, "</code>");
    if d != '*' { CountAbsent(d, "**"); }
    if d != '`' { CountAbsent(d, "`"); }
  }

  /** At most three stars are left, and none unless the bold pass was left with a marker. */
  lemma TelegramStars(s: string)
    ensures Count('*', Telegram(s)) <= if OnePassPairs.NoMarker(TelegramBold(s), TELEGRAM_BOLD) then 0 else 3
  {
    hide Count, Rescan, Links.Rescan, Stars.Render, Stars.Tokens, Find;
    var bold := TelegramBold(s);
    var italic := TelegramItalic(bold);
    OnePassPairs.TelegramMarkings();
    MarkingCounts('*');
    RescanIsNormal(s, TELEGRAM_BOLD);
    StarsLeftByBold(bold);
    Stars.ItalicCounts(bold, |bold|, '*');
    RescanKeepsCount(italic, TELEGRAM_CODE, '*');
    NotInLinks('*', Links.TelegramLink);
    LinksKeepCount(TelegramCode(italic), Links.TelegramLink, '*');
  }

  lemma {:induction false} StarsLeftByBold(bold: string)
    requires NoPair(bold, TELEGRAM_BOLD)
    ensures Stars.StarsLeft(bold, |bold|) <= if OnePassPairs.NoMarker(bold, TELEGRAM_BOLD) then 0 else 3
  {
    hide Find;
    var first := Find(bold, "**");
    var k := if first.Some? then first.value else |bold|;
    FindFirst(bold, "**");
    forall j | 0 <= j < |bold| - 1 && bold[j] == '*' && bold[j + 1] == '*' ensures k <= j <= k + 1 {
      assert bold[j..j + 2] == "**";
      assert OccursAt(bold, "**", j);
    }
    Stars.FewStarsLeft(bold, k, |bold|);
  }

  /** A character of no marker and no tag is as frequent in the Telegram text as in the message. */
  lemma TelegramKeepsText(s: string, d: char)
    requires d !in "*`[]()" && d !in "<a href=\"\"></a>" && d !in "<|>"
    requires d !in "<b>" && d !in "</b>" && d !in "<code>" && d !in "</code>" && d !in "<i>" && d !in "</i>"
    ensures Count(d, Telegram(s)) == Count(d, s)
  {
    hide Count, Rescan, Links.Rescan, Stars.Render, Stars.Tokens;
    var bold := TelegramBold(s);
    var italic := TelegramItalic(bold);
    OnePassPairs.TelegramMarkings();
    MarkingCounts(d);
    RescanKeepsCount(s, TELEGRAM_BOLD, d);
    Stars.ItalicCounts(bold, |bold|, d);
    assert bold[..|bold|] == bold;
    RescanKeepsCount(italic, TELEGRAM_CODE, d);
    NotInLinks(d, Links.TelegramLink);
    LinksKeepCount(TelegramCode(italic), Links.TelegramLink, d);
  }
}
