// Text as the Rust, Python and JavaScript code sees it: searching, splitting, trimming.
// A string is a sequence of characters and lengths count characters.

module Text {

  datatype Option<+T> = None | Some(value: T) {
    function GetOr(default: T): T {
      if Some? then value else default
    }
  }

  // ----- occurrences -----

  predicate OccursAt(s: string, p: string, k: int) {
    0 <= k && k + |p| <= |s| && s[k..k + |p|] == p
  }

  /** `str::find`: the first occurrence. */
  function Find(s: string, p: string): (r: Option<nat>)
    ensures r.Some? ==> OccursAt(s, p, r.value)
  {
    FindFrom(s, p, 0)
  }

  function FindFrom(s: string, p: string, i: nat): (r: Option<nat>)
    requires i <= |s|
    ensures r.Some? ==> i <= r.value && OccursAt(s, p, r.value)
    decreases |s| - i
  {
    if OccursAt(s, p, i) then Some(i)
    else if i == |s| then None
    else FindFrom(s, p, i + 1)
  }

  lemma {:induction false} FindFromFirst(s: string, p: string, i: nat)
    requires i <= |s|
    ensures var r := FindFrom(s, p, i); forall j :: i <= j && (r.Some? ==> j < r.value) ==> !OccursAt(s, p, j)
    decreases |s| - i
  {
    if !OccursAt(s, p, i) && i < |s| {
      FindFromFirst(s, p, i + 1);
    }
  }

  /** Nothing occurs before the found position, and nothing at all when none is found. */
  lemma FindFirst(s: string, p: string)
    ensures var r := Find(s, p); forall j :: (r.Some? ==> j < r.value) ==> !OccursAt(s, p, j)
  {
    FindFromFirst(s, p, 0);
  }

  /** `str::rfind`: the last occurrence. */
  function RFind(s: string, p: string): (r: Option<nat>)
    ensures r.Some? ==> OccursAt(s, p, r.value) && forall j :: r.value < j ==> !OccursAt(s, p, j)
    ensures r.None? ==> forall j :: !OccursAt(s, p, j)
  {
    RFindUpTo(s, p, |s|)
  }

  function RFindUpTo(s: string, p: string, i: nat): (r: Option<nat>)
    requires i <= |s|
    ensures r.Some? ==> r.value <= i && OccursAt(s, p, r.value) && forall j :: r.value < j <= i ==> !OccursAt(s, p, j)
    ensures r.None? ==> forall j :: j <= i ==> !OccursAt(s, p, j)
  {
    if OccursAt(s, p, i) then Some(i)
    else if i == 0 then None
    else RFindUpTo(s, p, i - 1)
  }

  /** A found position is the only one with the properties `Find` promises. */
  lemma FindIs(s: string, p: string, k: nat)
    requires OccursAt(s, p, k)
    requires forall j :: 0 <= j < k ==> !OccursAt(s, p, j)
    ensures Find(s, p) == Some(k)
  {
    FindFirst(s, p);
    var r := Find(s, p);
    assert r.Some?;
  }

  lemma OccursInSlice(s: string, p: string, lo: nat, hi: nat, k: nat)
    requires lo <= hi <= |s|
    ensures OccursAt(s[lo..hi], p, k) <==> lo + k + |p| <= hi && OccursAt(s, p, lo + k)
  {
    if lo + k + |p| <= hi {
      var inSlice, inWhole := s[lo..hi][k..k + |p|], s[lo + k..lo + k + |p|];
      assert forall i :: 0 <= i < |p| ==> inSlice[i] == inWhole[i];
    }
  }

  lemma OccursInRest(s: string, p: string, from: nat, k: nat)
    requires from <= |s| && from <= k
    ensures OccursAt(s[from..], p, k - from) <==> OccursAt(s, p, k)
  {
    assert s[from..] == s[from..|s|];
    OccursInSlice(s, p, from, |s|, k - from);
  }

  /** No occurrence at all: nothing is found. */
  lemma FindNone(s: string, p: string)
    ensures Find(s, p).None? <==> forall j :: !OccursAt(s, p, j)
  {
    FindFirst(s, p);
  }

  lemma OccursChar(s: string, p: string, k: nat, i: nat)
    requires OccursAt(s, p, k) && i < |p|
    ensures s[k + i] == p[i]
  {
    assert s[k..k + |p|][i] == p[i];
  }

  // ----- counting and deleting one character -----

  function Count(c: char, s: string): nat {
    if s == "" then 0 else (if s[0] == c then 1 else 0) + Count(c, s[1..])
  }

  function Without(c: char, s: string): string {
    if s == "" then "" else (if s[0] == c then "" else [s[0]]) + Without(c, s[1..])
  }

  lemma {:induction false} CountConcat(c: char, a: string, b: string)
    ensures Count(c, a + b) == Count(c, a) + Count(c, b)
  {
    if a == "" {
      assert a + b == b;
    } else {
      assert (a + b)[1..] == a[1..] + b;
      CountConcat(c, a[1..], b);
    }
  }

  lemma {:induction false} WithoutConcat(c: char, a: string, b: string)
    ensures Without(c, a + b) == Without(c, a) + Without(c, b)
  {
    if a == "" {
      assert a + b == b;
    } else {
      assert (a + b)[1..] == a[1..] + b;
      WithoutConcat(c, a[1..], b);
    }
  }

  lemma {:induction false} CountZero(c: char, s: string)
    ensures Count(c, s) == 0 <==> c !in s
    ensures Count(c, s) == 0 <==> Without(c, s) == s
    ensures c !in Without(c, s)
    ensures |Without(c, s)| + Count(c, s) == |s|
  {
    if s != "" {
      CountZero(c, s[1..]);
      assert s == [s[0]] + s[1..];
    }
  }

  lemma CountAbsent(c: char, s: string)
    requires c !in s
    ensures Count(c, s) == 0
  {
    CountZero(c, s);
  }

  // ----- joining -----

  lemma Assoc(a: string, b: string, c: string)
    ensures (a + b) + c == a + (b + c)
  {
  }

  lemma CutConcat(a: string, b: string, c: string)
    ensures (a + (b + c))[..|a|] == a
    ensures (a + (b + c))[|a| + |b|..] == c
  {
    assert a + (b + c) == (a + b) + c;
  }

  function Concat(pieces: seq<string>): string {
    if pieces == [] then "" else pieces[0] + Concat(pieces[1..])
  }

  lemma {:induction false} ConcatAppend(a: seq<string>, b: seq<string>)
    ensures Concat(a + b) == Concat(a) + Concat(b)
  {
    if a == [] {
      assert a + b == b;
    } else {
      assert (a + b)[1..] == a[1..] + b;
      ConcatAppend(a[1..], b);
    }
  }

  lemma ConcatOne(s: string)
    ensures Concat([s]) == s
  {
    assert [s][1..] == [];
  }

  /** The pieces with `sep` between neighbours. */
  function Join(sep: string, pieces: seq<string>): string {
    if pieces == [] then ""
    else if |pieces| == 1 then pieces[0]
    else pieces[0] + sep + Join(sep, pieces[1..])
  }

  lemma {:induction false} JoinAppend(sep: string, pieces: seq<string>, last: string)
    requires pieces != []
    ensures Join(sep, pieces + [last]) == Join(sep, pieces) + sep + last
  {
    var both := pieces + [last];
    assert both[1..] == pieces[1..] + [last];
    if |pieces| == 1 {
      assert both[1..] == [last];
    } else {
      JoinAppend(sep, pieces[1..], last);
    }
  }

  // ----- lines -----

  /** `split_inclusive('\n')`: every piece but the last ends with its newline. */
  function SplitInclusive(t: string): (pieces: seq<string>)
    ensures t == "" <==> pieces == []
    ensures forall i :: 0 <= i < |pieces| ==> pieces[i] != ""
  {
    if t == "" then []
    else
      Prepend(t[0], SplitInclusive(t[1..]))
  }

  /** `c` joins the first piece, unless it ends a line. */
  function Prepend(c: char, rest: seq<string>): seq<string> {
    if c == '\n' || rest == [] then [[c]] + rest else [[c] + rest[0]] + rest[1..]
  }

  /** A newline stands exactly at the end of a piece, and only the last piece may lack it. */
  ghost predicate LinePieces(pieces: seq<string>) {
    && (forall i, j :: 0 <= i < |pieces| && 0 <= j < |pieces[i]| - 1 ==> pieces[i][j] != '\n')
    && (forall i :: 0 <= i < |pieces| - 1 ==> pieces[i] != "" && pieces[i][|pieces[i]| - 1] == '\n')
  }

  lemma PrependConcat(c: char, rest: seq<string>)
    ensures Concat(Prepend(c, rest)) == [c] + Concat(rest)
  {
    if c == '\n' || rest == [] {
      assert ([[c]] + rest)[1..] == rest;
    } else {
      assert ([[c] + rest[0]] + rest[1..])[1..] == rest[1..];
      Assoc([c], rest[0], Concat(rest[1..]));
    }
  }

  lemma PrependLinePieces(c: char, rest: seq<string>)
    requires LinePieces(rest) && (rest != [] ==> rest[0] != "")
    ensures LinePieces(Prepend(c, rest))
  {
    var p := Prepend(c, rest);
    if c == '\n' || rest == [] {
      assert forall i :: 0 < i < |p| ==> p[i] == rest[i - 1];
    } else {
      assert forall i :: 0 < i < |p| ==> p[i] == rest[i];
      assert forall j :: 0 < j < |p[0]| ==> p[0][j] == rest[0][j - 1];
    }
  }

  /** What the pieces are: they spell the text, cut after its newlines. */
  lemma {:induction false} SplitInclusiveIs(t: string)
    ensures Concat(SplitInclusive(t)) == t
    ensures LinePieces(SplitInclusive(t))
  {
    hide Prepend, LinePieces, Concat;
    if t == "" {
      NoPiece();
    } else {
      SplitInclusiveIs(t[1..]);
      PrependConcat(t[0], SplitInclusive(t[1..]));
      PrependLinePieces(t[0], SplitInclusive(t[1..]));
      assert t == [t[0]] + t[1..];
    }
  }

  lemma NoPiece()
    ensures Concat([]) == "" && LinePieces([])
  {
  }

  /** Cutting right after a newline cuts the pieces too. */
  lemma {:induction false} SplitInclusiveCut(a: string, b: string)
    ensures SplitInclusive(a + "\n" + b) == SplitInclusive(a + "\n") + SplitInclusive(b)
  {
    if a == "" {
      assert ("" + "\n" + b)[1..] == b;
      assert ("" + "\n")[1..] == "";
    } else {
      assert (a + "\n" + b)[1..] == a[1..] + "\n" + b;
      assert (a + "\n")[1..] == a[1..] + "\n";
      SplitInclusiveCut(a[1..], b);
    }
  }

  /** The pieces of a text that gets one more newline. */
  function EndLine(a: string, pieces: seq<string>): seq<string>
    requires a != "" ==> pieces != []
  {
    if a == "" || a[|a| - 1] == '\n' then pieces + ["\n"] else EndLast(pieces)
  }

  function EndLast(pieces: seq<string>): seq<string>
    requires pieces != []
  {
    pieces[..|pieces| - 1] + [pieces[|pieces| - 1] + "\n"]
  }

  /** Adding a newline ends the unfinished last piece, or adds a blank one. */
  lemma {:induction false} SplitInclusiveNewline(a: string)
    ensures SplitInclusive(a + "\n") == EndLine(a, SplitInclusive(a))
  {
    assert SplitInclusive("\n") == ["\n"] by { assert "\n"[1..] == ""; }
    if a == "" {
      assert a + "\n" == "\n";
    } else {
      var t := a[1..];
      assert (a + "\n")[1..] == t + "\n";
      SplitInclusiveNewline(t);
      if t == "" {
        assert a == [a[0]] && t + "\n" == "\n";
      } else {
        PrependEndLine(a, SplitInclusive(t));
      }
    }
  }

  lemma PrependEndLine(a: string, rest: seq<string>)
    requires |a| > 1 && rest != []
    ensures Prepend(a[0], EndLine(a[1..], rest)) == EndLine(a, Prepend(a[0], rest))
  {
    hide Prepend, EndLast;
    assert a[1..][|a| - 2] == a[|a| - 1];
    PrependAppend(a[0], rest, "\n");
    PrependEndLast(a[0], rest);
  }

  lemma PrependAppend(c: char, rest: seq<string>, piece: string)
    requires rest != []
    ensures Prepend(c, rest + [piece]) == Prepend(c, rest) + [piece]
  {
    if c != '\n' {
      assert (rest + [piece])[1..] == rest[1..] + [piece];
    }
  }

  lemma PrependEndLast(c: char, rest: seq<string>)
    requires rest != []
    ensures Prepend(c, EndLast(rest)) == EndLast(Prepend(c, rest))
  {
    var n := |rest| - 1;
    var front, last := rest[..n], rest[n];
    assert rest == front + [last];
    if c == '\n' {
      var all := [[c]] + rest;
      assert all[..n + 1] == [[c]] + front && all[n + 1] == last;
    } else if n == 0 {
      Assoc([c], last, "\n");
    } else {
      var all := [[c] + rest[0]] + rest[1..];
      assert all[..n] == [[c] + rest[0]] + front[1..] && all[n] == last;
      assert EndLast(rest)[1..] == front[1..] + [last + "\n"];
    }
  }

  // ----- trimming -----

  /** `char::is_whitespace`: the Unicode White_Space property. */
  predicate IsWhitespace(c: char) {
    || '\t' <= c <= '\r' || c == ' ' || c == '\U{0085}' || c == '\U{00A0}' || c == '\U{1680}'
    || '\U{2000}' <= c <= '\U{200A}' || c == '\U{2028}' || c == '\U{2029}' || c == '\U{202F}'
    || c == '\U{205F}' || c == '\U{3000}'
  }

  predicate Blank(s: string) {
    forall c :: c in s ==> IsWhitespace(c)
  }

  function TrimStart(ws: char -> bool, s: string): string {
    if s != "" && ws(s[0]) then TrimStart(ws, s[1..]) else s
  }

  function TrimEnd(ws: char -> bool, s: string): string {
    if s != "" && ws(s[|s| - 1]) then TrimEnd(ws, s[..|s| - 1]) else s
  }

  function TrimBy(ws: char -> bool, s: string): string {
    TrimEnd(ws, TrimStart(ws, s))
  }

  /** `str::trim`. */
  function Trim(s: string): string {
    TrimBy(IsWhitespace, s)
  }

  lemma {:induction false} TrimStartIs(ws: char -> bool, s: string, a: string, b: string)
    requires s == a + b && forall c :: c in a ==> ws(c)
    requires b == "" || !ws(b[0])
    ensures TrimStart(ws, s) == b
  {
    if a == "" {
      assert s == b;
    } else {
      assert s[0] == a[0] && s[1..] == a[1..] + b;
      TrimStartIs(ws, s[1..], a[1..], b);
    }
  }

  lemma {:induction false} TrimEndIs(ws: char -> bool, s: string, a: string, b: string)
    requires s == a + b && forall c :: c in b ==> ws(c)
    requires a == "" || !ws(a[|a| - 1])
    ensures TrimEnd(ws, s) == a
  {
    if b == "" {
      assert s == a;
    } else {
      assert s[|s| - 1] == b[|b| - 1] && s[..|s| - 1] == a + b[..|b| - 1];
      TrimEndIs(ws, s[..|s| - 1], a, b[..|b| - 1]);
    }
  }

  /** Trimming only removes whitespace at the two ends, and all of it. */
  lemma TrimSplits(ws: char -> bool, s: string) returns (pre: string, post: string)
    ensures s == pre + TrimBy(ws, s) + post
    ensures forall c :: c in pre + post ==> ws(c)
    ensures var t := TrimBy(ws, s); t != "" ==> !ws(t[0]) && !ws(t[|t| - 1])
  {
    pre := TrimStartSplits(ws, s);
    post := TrimEndSplits(ws, TrimStart(ws, s));
    var m, t := TrimStart(ws, s), TrimBy(ws, s);
    assert s == pre + (t + post) == pre + t + post;
    if t != "" {
      assert m[0] == t[0];
    }
  }

  lemma {:induction false} TrimStartSplits(ws: char -> bool, s: string) returns (pre: string)
    ensures s == pre + TrimStart(ws, s)
    ensures forall c :: c in pre ==> ws(c)
    ensures TrimStart(ws, s) != "" ==> !ws(TrimStart(ws, s)[0])
  {
    pre := "";
    if s != "" && ws(s[0]) {
      var p := TrimStartSplits(ws, s[1..]);
      pre := [s[0]] + p;
      assert s == [s[0]] + s[1..];
    }
  }

  lemma {:induction false} TrimEndSplits(ws: char -> bool, s: string) returns (post: string)
    ensures s == TrimEnd(ws, s) + post
    ensures forall c :: c in post ==> ws(c)
    ensures TrimEnd(ws, s) != "" ==> !ws(TrimEnd(ws, s)[|TrimEnd(ws, s)| - 1])
  {
    post := "";
    if s != "" && ws(s[|s| - 1]) {
      var p := TrimEndSplits(ws, s[..|s| - 1]);
      post := p + [s[|s| - 1]];
      assert s == s[..|s| - 1] + [s[|s| - 1]];
    }
  }

  /** Whatever lies between whitespace, itself not beginning or ending with whitespace, is what trimming leaves. */
  lemma TrimIs(ws: char -> bool, s: string, pre: string, m: string, post: string)
    requires s == pre + (m + post) && forall c :: c in pre || c in post ==> ws(c)
    requires m == "" || (!ws(m[0]) && !ws(m[|m| - 1]))
    ensures TrimBy(ws, s) == m
  {
    if m == "" {
      assert s == (pre + post) + "";
      TrimStartIs(ws, s, pre + post, "");
    } else {
      TrimStartIs(ws, s, pre, m + post);
      TrimEndIs(ws, m + post, m, post);
    }
  }

  /** Whitespace around a text makes no difference. */
  lemma TrimAround(ws: char -> bool, pre: string, s: string, post: string)
    requires forall c :: c in pre || c in post ==> ws(c)
    ensures TrimBy(ws, pre + (s + post)) == TrimBy(ws, s)
  {
    var p, q := TrimSplits(ws, s);
    var m := TrimBy(ws, s);
    assert pre + (s + post) == (pre + p) + (m + (q + post));
    TrimIs(ws, pre + (s + post), pre + p, m, q + post);
  }
}
