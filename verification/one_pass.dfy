// When reading the rewritten text again makes no difference: the splice-and-rescan loops against a single
// left-to-right pass (crates/clawreform-channels/src/formatter.rs:26-35, 61-75, 107-116).

module OnePassPairs {
  import opened Text
  import opened MarkerPairs

  /** Every pair replaced on the way from left to right; what is written is never read. */
  function OnePass(s: string, m: Marking): string
    requires m.Uniform()
    decreases |s|
  {
    match FirstPair(s, m)
    case None => s
    case Some(p) => Replaced(p.(after := OnePass(p.after, m)), m)
  }

  predicate NoMarker(s: string, m: Marking) {
    Find(s, m.marker).None?
  }

  /** No marker can lie across the seam. */
  predicate Seam(a: string, b: string, c: char) {
    a == "" || b == "" || a[|a| - 1] != c || b[0] != c
  }

  // ----- markers in a concatenation -----

  lemma OccursAcross(a: string, b: string, m: Marking, k: nat)
    requires m.Uniform() && Seam(a, b, m.c)
    ensures OccursAt(a + b, m.marker, k) <==> OccursAt(a, m.marker, k) || (k >= |a| && OccursAt(b, m.marker, k - |a|))
  {
    var mk, ab := m.marker, a + b;
    if k >= |a| {
      assert ab[|a|..] == b;
      OccursInRest(ab, mk, |a|, k);
    } else if k + |m.marker| <= |a| {
      assert ab[k..k + |m.marker|] == a[k..k + |m.marker|];
    } else if OccursAt(ab, mk, k) {
      var at := |a| - 1 - k;
      OccursChar(ab, mk, k, at);
      OccursChar(ab, mk, k, at + 1);
    }
  }

  lemma NoMarkerConcat(a: string, b: string, m: Marking)
    requires m.Uniform() && Seam(a, b, m.c)
    requires NoMarker(a, m) && NoMarker(b, m)
    ensures NoMarker(a + b, m)
  {
    hide Find;
    FindNone(a, m.marker);
    FindNone(b, m.marker);
    var r := Find(a + b, m.marker);
    if r.Some? {
      OccursAcross(a, b, m, r.value);
    }
  }

  /** The first marker after a text without markers. */
  lemma FindAfter(a: string, b: string, m: Marking)
    requires m.Uniform() && Seam(a, b, m.c) && NoMarker(a, m)
    ensures var r := Find(b, m.marker); Find(a + b, m.marker) == if r.Some? then Some(|a| + r.value) else None
  {
    hide Find;
    var r := Find(b, m.marker);
    if r.None? {
      NoMarkerConcat(a, b, m);
    } else {
      OccursAcross(a, b, m, |a| + r.value);
      FindNone(a, m.marker);
      FindFirst(b, m.marker);
      forall j | 0 <= j < |a| + r.value ensures !OccursAt(a + b, m.marker, j) {
        OccursAcross(a, b, m, j);
      }
      FindIs(a + b, m.marker, |a| + r.value);
    }
  }

  /** A text cut at two markers is cut at its first pair when no other marker comes in the way. */
  lemma FirstPairIs(p: Pair, m: Marking)
    requires m.Uniform() && NoMarker(p.before, m) && NoMarker(p.inner, m)
    requires Seam(p.before, m.marker, m.c) && Seam(p.inner, m.marker, m.c)
    ensures FirstPair(Around(p, m.marker, m.marker), m) == Some(p)
  {
    hide FirstPair, Find, NoMarker, OccursAt;
    var rest := p.inner + (m.marker + p.after);
    var s := p.before + (m.marker + rest);
    FindBetween(p.before, m, rest);
    FindBetween(p.inner, m, p.after);
    FirstPairAt(s, m, |p.before|, |p.inner|);
  }

  lemma FirstPairAt(s: string, m: Marking, start: nat, len: nat)
    requires Find(s, m.marker) == Some(start)
    requires Find(s[start + |m.marker|..], m.marker) == Some(len)
    ensures var rest := s[start + |m.marker|..];
            FirstPair(s, m) == Some(Pair(s[..start], rest[..len], rest[len + |m.marker|..]))
  {
    hide Find;
  }

  lemma FindBetween(a: string, m: Marking, b: string)
    requires m.Uniform() && NoMarker(a, m) && Seam(a, m.marker, m.c)
    ensures var s := a + (m.marker + b);
            Find(s, m.marker) == Some(|a|) && s[..|a|] == a && s[|a| + |m.marker|..] == b
  {
    hide Find;
    FindAtFront(m.marker, b);
    FindAfter(a, m.marker + b, m);
    CutConcat(a, m.marker, b);
  }

  lemma FindAtFront(p: string, rest: string)
    ensures Find(p + rest, p) == Some(0)
  {
    assert (p + rest)[0..|p|] == p;
  }

  lemma NoFirstPairAfter(a: string, b: string, m: Marking)
    requires m.Uniform() && Seam(a, b, m.c) && NoMarker(a, m) && FirstPair(b, m).None?
    ensures FirstPair(a + b, m).None?
  {
    hide Find;
    FindAfter(a, b, m);
    var r := Find(b, m.marker);
    if r.Some? {
      assert (a + b)[|a| + r.value + |m.marker|..] == b[r.value + |m.marker|..];
    }
  }

  lemma FirstPairAfter(a: string, b: string, m: Marking)
    requires m.Uniform() && Seam(a, b, m.c) && NoMarker(a, m) && FirstPair(b, m).Some?
    ensures var p := FirstPair(b, m).value; FirstPair(a + b, m) == Some(p.(before := a + p.before))
  {
    hide Find;
    var p := FirstPair(b, m).value;
    PairParts(b, m);
    NoMarkerConcat(a, p.before, m);
    var q := p.(before := a + p.before);
    FirstPairIs(q, m);
    Assoc(a, p.before, m.marker + (p.inner + (m.marker + p.after)));
  }

  /** What stands before a first marker has no marker in it and cannot start one. */
  lemma BeforeFirst(s: string, m: Marking, k: nat)
    requires m.Uniform() && Find(s, m.marker) == Some(k)
    ensures NoMarker(s[..k], m)
    ensures Seam(s[..k], m.marker, m.c)
  {
    hide Find;
    FindFirst(s, m.marker);
    FindNone(s[..k], m.marker);
    assert s[0..k] == s[..k];
    forall j ensures !OccursAt(s[..k], m.marker, j) {
      if j >= 0 {
        OccursInSlice(s, m.marker, 0, k, j);
      }
    }
    if k > 0 && s[k - 1] == m.c {
      assert OccursAt(s, m.marker, k);
      MarkerLeft(s, m, k);
    }
  }

  /** A marker's character just before a marker makes a marker one place earlier. */
  lemma MarkerLeft(s: string, m: Marking, k: nat)
    requires m.Uniform() && k > 0 && OccursAt(s, m.marker, k) && s[k - 1] == m.c
    ensures OccursAt(s, m.marker, k - 1)
  {
    var here, left := s[k..k + |m.marker|], s[k - 1..k - 1 + |m.marker|];
    forall i | 0 <= i < |m.marker| ensures left[i] == m.c {
      if i > 0 {
        assert left[i] == here[i - 1];
      }
    }
  }

  lemma PairParts(s: string, m: Marking)
    requires m.Uniform() && FirstPair(s, m).Some?
    ensures var p := FirstPair(s, m).value;
            && s == Around(p, m.marker, m.marker) && |p.after| < |s|
            && NoMarker(p.before, m) && Seam(p.before, m.marker, m.c)
            && NoMarker(p.inner, m) && Seam(p.inner, m.marker, m.c)
            && (p.before != "" ==> p.before[0] == s[0])
  {
    hide NoMarker;
    FirstPairParts(s, m);
    var k := Find(s, m.marker).value;
    var rest := s[k + |m.marker|..];
    BeforeFirst(s, m, k);
    BeforeFirst(rest, m, Find(rest, m.marker).value);
  }

  // ----- replacements that cannot make a marker -----

  /** Either the replacements do not use the marker's character, or it is Slack's star and no three stars stand in a row. */
  predicate Safe(s: string, m: Marking) {
    || (m.open != "" && m.close != "" && m.c !in m.open && m.c !in m.close)
    || (m == SLACK_BOLD && NoTriple(s))
  }

  predicate NoTriple(s: string) {
    Find(s, "***").None?
  }

  lemma NoCharNoMarker(s: string, m: Marking)
    requires m.Uniform() && m.c !in s
    ensures NoMarker(s, m)
  {
    FindNone(s, m.marker);
    forall k ensures !OccursAt(s, m.marker, k) {
      if 0 <= k && k + |m.marker| <= |s| {
        assert s[k..k + |m.marker|][0] in s;
      }
    }
  }

  /** What is written for a pair holds no marker and starts none with what follows. */
  lemma WrittenIsClean(done: string, s: string, m: Marking)
    requires m.Valid() && NoMarker(done, m) && Seam(done, s, m.c) && Safe(s, m) && FirstPair(s, m).Some?
    ensures var p := FirstPair(s, m).value;
            var done' := done + p.before + m.open + p.inner + m.close;
            NoMarker(done', m) && Seam(done', p.after, m.c) && Safe(p.after, m)
  {
    hide Find;
    var p := FirstPair(s, m).value;
    PairParts(s, m);
    NoMarkerConcat(done, p.before, m);
    if m.c !in m.open && m.c !in m.close {
      NoCharNoMarker(m.open, m);
      NoCharNoMarker(m.close, m);
      NoMarkerConcat(done + p.before, m.open, m);
      NoMarkerConcat(done + p.before + m.open, p.inner, m);
      NoMarkerConcat(done + p.before + m.open + p.inner, m.close, m);
    } else {
      SlackWrittenIsClean(done, s, p);
    }
  }

  /** Without three stars in a row, the text between a pair is not empty and no star touches the pair. */
  lemma NoTripleAround(s: string, p: Pair)
    requires NoTriple(s) && FirstPair(s, SLACK_BOLD) == Some(p)
    ensures p.inner != "" && p.inner[0] != '*'
    ensures p.after != "" ==> p.after[0] != '*'
    ensures NoTriple(p.after)
  {
    hide Find, FirstPair;
    FirstPairParts(s, SLACK_BOLD);
    var rest := p.inner + ("**" + p.after);
    assert p.inner == "" || p.inner[0] == '*' ==> rest[0] == '*';
    NoTripleAfter(s, p.before, rest);
    NoTripleAfter(rest, p.inner, p.after);
  }

  lemma NoTripleAfter(s: string, a: string, b: string)
    requires NoTriple(s) && s == a + ("**" + b)
    ensures b != "" ==> b[0] != '*'
    ensures NoTriple(b)
  {
    hide Find;
    CutConcat(a, "**", b);
    FindNone(s, "***");
    FindNone(b, "***");
    assert s[|a|..] == "**" + b;
    if b != "" && b[0] == '*' {
      TripleFrom(s, |a|, b);
    }
    forall k ensures !OccursAt(b, "***", k) {
      if k >= 0 {
        OccursInRest(s, "***", |a| + 2, |a| + 2 + k);
      }
    }
  }

  lemma TripleFrom(s: string, k: nat, rest: string)
    requires k <= |s| && s[k..] == "**" + rest && rest != "" && rest[0] == '*'
    ensures OccursAt(s, "***", k)
  {
    assert s[k..][..3] == "***";
    assert s[k..k + 3] == s[k..][..3];
  }

  lemma SlackWrittenIsClean(done: string, s: string, p: Pair)
    requires NoMarker(done + p.before, SLACK_BOLD) && Seam(done, s, '*')
    requires NoTriple(s) && FirstPair(s, SLACK_BOLD) == Some(p)
    ensures var done' := done + p.before + "*" + p.inner + "*";
            NoMarker(done', SLACK_BOLD) && Seam(done', p.after, '*') && NoTriple(p.after)
  {
    var m, star := SLACK_BOLD, "*";
    PairParts(s, m);
    NoTripleAround(s, p);
    assert NoMarker(star, m);
    assert Seam(done + p.before, star, '*');
    NoMarkerConcat(done + p.before, star, m);
    NoMarkerConcat(done + p.before + star, p.inner, m);
    NoMarkerConcat(done + p.before + star + p.inner, star, m);
  }

  lemma {:induction false} RescanAfter(done: string, s: string, m: Marking)
    requires m.Valid() && NoMarker(done, m) && Seam(done, s, m.c) && Safe(s, m)
    ensures Rescan(done + s, m) == done + OnePass(s, m)
    decreases |s|
  {
    hide Find, FirstPair, Replaced;
    match FirstPair(s, m)
    case None =>
      NoFirstPairAfter(done, s, m);
    case Some(p) =>
      FirstPairAfter(done, s, m);
      WrittenIsClean(done, s, m);
      PairParts(s, m);
      var done' := done + p.before + m.open + p.inner + m.close;
      Gather(done, p, m);
      Gather(done, p.(after := OnePass(p.after, m)), m);
      RescanAfter(done', p.after, m);
  }

  lemma Gather(done: string, p: Pair, m: Marking)
    ensures done + p.before + m.open + p.inner + m.close + p.after == done + Replaced(p, m)
    ensures Replaced(p.(before := done + p.before), m) == done + Replaced(p, m)
  {
    Assoc(done + p.before + m.open + p.inner, m.close, p.after);
    Assoc(done + p.before + m.open, p.inner, m.close + p.after);
    Assoc(done + p.before, m.open, p.inner + (m.close + p.after));
    Assoc(done, p.before, m.open + (p.inner + (m.close + p.after)));
  }

  /** Reading again changes nothing when the replacements are safe for the text. */
  lemma RescanIsOnePass(s: string, m: Marking)
    requires m.Valid() && Safe(s, m)
    ensures Rescan(s, m) == OnePass(s, m)
  {
    hide Find, FirstPair;
    NoCharNoMarker("", m);
    RescanAfter("", s, m);
    assert "" + s == s && "" + OnePass(s, m) == OnePass(s, m);
  }

  /** The Telegram bold and code loops are single passes on every text. */
  lemma TelegramIsOnePass(s: string)
    ensures TELEGRAM_BOLD.Valid() && Rescan(s, TELEGRAM_BOLD) == OnePass(s, TELEGRAM_BOLD)
    ensures TELEGRAM_CODE.Valid() && Rescan(s, TELEGRAM_CODE) == OnePass(s, TELEGRAM_CODE)
  {
    hide Find, FirstPair, Rescan, OnePass;
    TelegramMarkings();
    RescanIsOnePass(s, TELEGRAM_BOLD);
    RescanIsOnePass(s, TELEGRAM_CODE);
  }

  lemma TelegramMarkings()
    ensures TELEGRAM_BOLD.Valid() && TELEGRAM_CODE.Valid() && SLACK_BOLD.Valid()
  {
    hide Count;
    CountAbsent('*', "<b>");
    CountAbsent('*', "</b>");
    CountAbsent('`', "<code>");
    CountAbsent('`', "</code>");
    CountUniform('*', "*");
  }
}
