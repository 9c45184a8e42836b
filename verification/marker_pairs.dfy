// Paired markers in the channel formatter (crates/clawreform-channels/src/formatter.rs:26-35, 61-75, 107-116):
// find the first marker, find the next, splice in replacements, start again from the front.

module MarkerPairs {
  import opened Text

  /** A marker of equal characters, and what replaces the first and the second of a pair. */
  datatype Marking = Marking(c: char, marker: string, open: string, close: string) {
    ghost predicate Uniform() {
      marker != "" && forall i :: 0 <= i < |marker| ==> marker[i] == c
    }

    /** Each round removes more of the marker's characters than it writes. */
    ghost predicate Valid() {
      Uniform() && Count(c, open) + Count(c, close) < 2 * |marker|
    }
  }

  const TELEGRAM_BOLD: Marking := Marking('*', "**", "<b>", "</b>")
  const TELEGRAM_CODE: Marking := Marking('`', "`", "<code>", "</code>")
  const SLACK_BOLD: Marking := Marking('*', "**", "*", "*")

  // ----- one round -----

  /** Where the first marker of the first pair stands, and the text between the two markers. */
  datatype Pair = Pair(before: string, inner: string, after: string)

  function FirstPair(s: string, m: Marking): Option<Pair> {
    match Find(s, m.marker)
    case None => None
    case Some(start) =>
      var rest := s[start + |m.marker|..];
      match Find(rest, m.marker)
      case None => None
      case Some(len) => Some(Pair(s[..start], rest[..len], rest[len + |m.marker|..]))
  }

  /** The parts of a text around two markers, or around what replaces them. */
  function Around(p: Pair, first: string, second: string): string {
    p.before + (first + (p.inner + (second + p.after)))
  }

  function Replaced(p: Pair, m: Marking): string {
    Around(p, m.open, m.close)
  }

  lemma CutAround(s: string, p: string, k: nat)
    requires OccursAt(s, p, k)
    ensures k + |p| <= |s|
    ensures s == s[..k] + (p + s[k + |p|..])
  {
  }

  lemma FirstPairParts(s: string, m: Marking)
    requires FirstPair(s, m).Some?
    ensures s == Around(FirstPair(s, m).value, m.marker, m.marker)
  {
    hide Find, OccursAt;
    var start := Find(s, m.marker).value;
    CutAround(s, m.marker, start);
    var rest := s[start + |m.marker|..];
    CutAround(rest, m.marker, Find(rest, m.marker).value);
  }

  lemma {:induction false} CountUniform(c: char, s: string)
    requires forall i :: 0 <= i < |s| ==> s[i] == c
    ensures Count(c, s) == |s|
  {
    if s != "" {
      CountUniform(c, s[1..]);
    }
  }

  lemma CountAround(d: char, p: Pair, first: string, second: string)
    ensures Count(d, Around(p, first, second))
         == Count(d, p.before) + Count(d, first) + Count(d, p.inner) + Count(d, second) + Count(d, p.after)
  {
    CountConcat(d, second, p.after);
    CountConcat(d, p.inner, second + p.after);
    CountConcat(d, first, p.inner + (second + p.after));
    CountConcat(d, p.before, first + (p.inner + (second + p.after)));
  }

  /** Every round exchanges two markers for the two replacements, in the number of any character. */
  lemma RoundCounts(s: string, m: Marking, d: char)
    requires FirstPair(s, m).Some?
    ensures Count(d, Replaced(FirstPair(s, m).value, m)) + 2 * Count(d, m.marker) ==
            Count(d, s) + Count(d, m.open) + Count(d, m.close)
  {
    hide FirstPair;
    var p := FirstPair(s, m).value;
    FirstPairParts(s, m);
    CountAround(d, p, m.marker, m.marker);
    CountAround(d, p, m.open, m.close);
  }

  lemma RoundShrinks(s: string, m: Marking)
    requires m.Valid() && FirstPair(s, m).Some?
    ensures Count(m.c, Replaced(FirstPair(s, m).value, m)) < Count(m.c, s)
  {
    RoundCounts(s, m, m.c);
    CountUniform(m.c, m.marker);
  }

  // ----- the loop -----

  /** Rounds until no pair is left, each one reading the whole text again. */
  function Rescan(s: string, m: Marking): string
    requires m.Valid()
    decreases Count(m.c, s)
  {
    match FirstPair(s, m)
    case None => s
    case Some(p) =>
      RoundShrinks(s, m);
      Rescan(Replaced(p, m), m)
  }

  method ReplacePairs(text: string, m: Marking) returns (result: string)
    requires m.Valid()
    ensures result == Rescan(text, m)
  {
    hide Find;
    result := text;
    while true
      invariant Rescan(result, m) == Rescan(text, m)
      decreases Count(m.c, result)
    {
      var start := Find(result, m.marker);
      if start.None? {
        break;
      }
      var rest := result[start.value + |m.marker|..];
      var end := Find(rest, m.marker);
      if end.None? {
        break;
      }
      RoundShrinks(result, m);
      var inner := rest[..end.value];
      result := result[..start.value] + (m.open + (inner + (m.close + rest[end.value + |m.marker|..])));
    }
  }

  // ----- normal form -----

  /** No two markers side by side or apart. */
  ghost predicate NoPair(s: string, m: Marking) {
    forall i, j :: OccursAt(s, m.marker, i) && OccursAt(s, m.marker, j) ==> j < i + |m.marker|
  }

  /** The loop stops exactly on the texts without a pair. */
  lemma StopsOnNormalForm(s: string, m: Marking)
    ensures FirstPair(s, m).None? <==> NoPair(s, m)
  {
    hide Find;
    var found := Find(s, m.marker);
    FindFirst(s, m.marker);
    if found.Some? {
      var from := found.value + |m.marker|;
      FindFirst(s[from..], m.marker);
      if FirstPair(s, m).None? {
        forall i, j | OccursAt(s, m.marker, i) && OccursAt(s, m.marker, j) ensures j < i + |m.marker| {
          if j >= from {
            OccursInRest(s, m.marker, from, j);
          }
        }
      } else {
        OccursInRest(s, m.marker, from, from + Find(s[from..], m.marker).value);
      }
    }
  }

  lemma {:induction false} RescanIsNormal(s: string, m: Marking)
    requires m.Valid()
    ensures NoPair(Rescan(s, m), m)
    decreases Count(m.c, s)
  {
    StopsOnNormalForm(s, m);
    if FirstPair(s, m).Some? {
      RoundShrinks(s, m);
      RescanIsNormal(Replaced(FirstPair(s, m).value, m), m);
    }
  }

  lemma RescanIdempotent(s: string, m: Marking)
    requires m.Valid()
    ensures Rescan(Rescan(s, m), m) == Rescan(s, m)
  {
    RescanIsNormal(s, m);
    StopsOnNormalForm(Rescan(s, m), m);
  }

  /** The loop does not touch the number of a character that none of its strings uses. */
  lemma {:induction false} RescanKeepsCount(s: string, m: Marking, d: char)
    requires m.Valid() && Count(d, m.marker) == Count(d, m.open) + Count(d, m.close) == 0
    ensures Count(d, Rescan(s, m)) == Count(d, s)
    decreases Count(m.c, s)
  {
    hide FirstPair, Replaced;
    if FirstPair(s, m).Some? {
      RoundShrinks(s, m);
      RoundCounts(s, m, d);
      RescanKeepsCount(Replaced(FirstPair(s, m).value, m), m, d);
    }
  }

  /** With replacements free of the marker's character, rounds take markers two by two. */
  lemma {:induction false} RescanParity(s: string, m: Marking)
    requires m.Valid() && Count(m.c, m.open) + Count(m.c, m.close) == 0
    ensures Count(m.c, Rescan(s, m)) % 2 == Count(m.c, s) % 2
    decreases Count(m.c, s)
  {
    hide FirstPair, Replaced;
    if FirstPair(s, m).Some? {
      RoundShrinks(s, m);
      RoundCounts(s, m, m.c);
      RescanParity(Replaced(FirstPair(s, m).value, m), m);
    }
  }

  /** A one-character marker without a pair is there at most once. */
  lemma {:induction false} NoPairOnce(s: string, m: Marking)
    requires m.marker == [m.c] && NoPair(s, m)
    ensures Count(m.c, s) <= 1
  {
    if s != "" {
      forall i, j | OccursAt(s[1..], m.marker, i) && OccursAt(s[1..], m.marker, j) ensures j < i + 1 {
        OccursInRest(s, m.marker, 1, i + 1);
        OccursInRest(s, m.marker, 1, j + 1);
      }
      NoPairOnce(s[1..], m);
      if s[0] == m.c {
        assert s[0..1] == m.marker;
        assert OccursAt(s, m.marker, 0);
        forall k | 0 <= k < |s[1..]| ensures s[1..][k] != m.c {
          assert s[k + 1..k + 2] == [s[k + 1]];
          assert !OccursAt(s, m.marker, k + 1);
        }
        CountAbsent(m.c, s[1..]);
      }
    }
  }
}
