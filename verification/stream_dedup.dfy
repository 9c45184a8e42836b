// Streaming duplicate detection (crates/clawreform-api/src/stream_dedup.rs).

module StreamDedupCode {
  import opened Text
  import opened Normalization

  const MIN_DEDUP_LENGTH: nat := 10
  const DEDUP_WINDOW: nat := 50

  // ----- the specification: what was recorded, and the end of it -----

  datatype Op = Record(text: string) | Clear

  /** The long enough texts recorded since the last clear, oldest first. */
  function Recorded(ops: seq<Op>): seq<string> {
    if ops == [] then []
    else
      var before := Recorded(ops[..|ops| - 1]);
      match ops[|ops| - 1]
      case Clear => []
      case Record(text) => if |text| < MIN_DEDUP_LENGTH then before else before + [text]
  }

  function Window(ops: seq<Op>): seq<string> {
    var all := Recorded(ops);
    if |all| <= DEDUP_WINDOW then all else all[|all| - DEDUP_WINDOW..]
  }

  /** The text is long enough and says, up to case and whitespace, what one of the window's texts says. */
  ghost predicate Repeats(ops: seq<Op>, text: string) {
    |text| >= MIN_DEDUP_LENGTH && exists i :: 0 <= i < |Window(ops)| && Normalize(Window(ops)[i]) == Normalize(text)
  }

  lemma RecordedAppend(ops: seq<Op>, op: Op)
    ensures Recorded(ops + [op])
         == match op
            case Clear => []
            case Record(text) => if |text| < MIN_DEDUP_LENGTH then Recorded(ops) else Recorded(ops) + [text]
  {
    assert (ops + [op])[..|ops|] == ops;
  }

  /** Recording slides the window by one text. */
  lemma WindowAppend(ops: seq<Op>, text: string)
    requires |text| >= MIN_DEDUP_LENGTH
    ensures var w := Window(ops);
            Window(ops + [Record(text)]) == (if |w| >= DEDUP_WINDOW then w[1..] else w) + [text]
  {
    RecordedAppend(ops, Record(text));
  }

  class StreamDedup {
    var recentChunks: seq<string>
    var recentNormalized: seq<string>

    /** The recording and clearing calls made so far. */
    ghost var calls: seq<Op>

    ghost predicate Valid()
      reads this
    {
      && recentChunks == Window(calls)
      && |recentNormalized| == |recentChunks| <= DEDUP_WINDOW
      && forall i :: 0 <= i < |recentChunks| ==> recentNormalized[i] == Normalize(recentChunks[i])
    }

    constructor ()
      ensures Valid() && calls == []
    {
      recentChunks, recentNormalized := [], [];
      calls := [];
    }

    method IsDuplicate(text: string) returns (duplicate: bool)
      requires Valid()
      ensures duplicate <==> Repeats(calls, text)
    {
      if |text| < MIN_DEDUP_LENGTH {
        return false;
      }
      if text in recentChunks {
        return true;
      }
      var normalized := NormalizeText(text);
      duplicate := normalized in recentNormalized;
    }

    method RecordSent(text: string)
      requires Valid()
      modifies this
      ensures Valid() && calls == old(calls) + [Record(text)]
    {
      ghost var before := calls;
      calls := calls + [Record(text)];
      if |text| < MIN_DEDUP_LENGTH {
        RecordedAppend(before, Record(text));
        return;
      }
      WindowAppend(before, text);
      if |recentChunks| >= DEDUP_WINDOW {
        recentChunks := recentChunks[1..];
        recentNormalized := recentNormalized[1..];
      }
      recentChunks := recentChunks + [text];
      var normalized := NormalizeText(text);
      recentNormalized := recentNormalized + [normalized];
    }

    method Clear()
      modifies this
      ensures Valid() && calls == old(calls) + [Op.Clear]
    {
      RecordedAppend(calls, Op.Clear);
      calls := calls + [Op.Clear];
      recentChunks, recentNormalized := [], [];
    }
  }

  // ----- runs -----

  /** The number of texts that are still recorded after `ops` when only `more` follow. */
  function Eligible(ops: seq<Op>): nat {
    if ops == [] then 0
    else Eligible(ops[1..]) + if ops[0].Record? && |ops[0].text| >= MIN_DEDUP_LENGTH then 1 else 0
  }

  lemma {:induction false} RecordedAfter(ops: seq<Op>, more: seq<Op>)
    requires Op.Clear !in more
    ensures |Recorded(ops + more)| == |Recorded(ops)| + Eligible(more) && Recorded(ops) <= Recorded(ops + more)
    decreases |more|
  {
    if more == [] {
      assert ops + more == ops;
    } else {
      assert ops + more == ops + [more[0]] + more[1..];
      RecordedAppend(ops, more[0]);
      RecordedAfter(ops + [more[0]], more[1..]);
    }
  }

  /**
   * A recorded text is recognised, in any spelling with the same words up to case, for as long as fewer than
   * DEDUP_WINDOW long texts follow and nothing is cleared.
   */
  lemma {:induction false} RecognisedWhileInWindow(ops: seq<Op>, text: string, more: seq<Op>, again: string)
    requires |text| >= MIN_DEDUP_LENGTH && |again| >= MIN_DEDUP_LENGTH
    requires LowerWords(Words(again)) == LowerWords(Words(text))
    requires Op.Clear !in more && Eligible(more) < DEDUP_WINDOW
    ensures Repeats(ops + [Record(text)] + more, again)
  {
    var upTo := ops + [Record(text)];
    RecordedAppend(ops, Record(text));
    RecordedAfter(upTo, more);
    SameNormalForm(text, again);
    var at := |Recorded(ops)|;
    var all := Recorded(upTo + more);
    assert Recorded(upTo)[at] == text && all[at] == text;
    var w := Window(upTo + more);
    var k := at - (|all| - |w|);
    assert w[k] == text;
    assert 0 <= k < |w| && Normalize(w[k]) == Normalize(again);
  }

  /** Once DEDUP_WINDOW long texts with other words have followed, it is forgotten. */
  lemma ForgottenAfterWindow(ops: seq<Op>, more: seq<Op>, again: string)
    requires Op.Clear !in more && Eligible(more) >= DEDUP_WINDOW
    requires forall i :: 0 <= i < |more| && more[i].Record? && |more[i].text| >= MIN_DEDUP_LENGTH ==>
               Normalize(more[i].text) != Normalize(again)
    ensures !Repeats(ops + more, again)
  {
    RecordedAfter(ops, more);
    FromMore(ops, more);
  }

  lemma {:induction false} FromMore(ops: seq<Op>, more: seq<Op>)
    requires Op.Clear !in more
    ensures forall k :: |Recorded(ops)| <= k < |Recorded(ops + more)| ==>
              |Recorded(ops + more)[k]| >= MIN_DEDUP_LENGTH && Record(Recorded(ops + more)[k]) in more
  {
    RecordedAfter(ops, more);
    if more != [] {
      var n := |more| - 1;
      assert ops + more == ops + more[..n] + [more[n]];
      assert more == more[..n] + [more[n]];
      FromMore(ops, more[..n]);
      RecordedAppend(ops + more[..n], more[n]);
      RecordedAfter(ops, more[..n]);
    }
  }

  // ----- the exact condition -----

  /** The recording that put a text into the list. */
  lemma {:induction false} Origin(ops: seq<Op>, j: nat) returns (i: nat)
    requires j < |Recorded(ops)|
    ensures i < |ops| && ops[i] == Record(Recorded(ops)[j]) && |ops[i].text| >= 10
    ensures Op.Clear !in ops[i + 1..] && |Recorded(ops[..i + 1])| == j + 1
  {
    var n := |ops| - 1;
    var before, last := ops[..n], ops[n];
    assert ops == before + [last];
    RecordedAppend(before, last);
    if j == |Recorded(before)| {
      i := n;
      assert ops[..n + 1] == ops && ops[n + 1..] == [];
    } else {
      i := Origin(before, j);
      assert ops[i + 1..] == before[i + 1..] + [last] && ops[..i + 1] == before[..i + 1];
    }
  }

  /** The call recorded the same words up to case, and neither a clear nor fifty more long texts came since. */
  ghost predicate Remembered(ops: seq<Op>, i: nat, again: string)
    requires i < |ops|
  {
    && ops[i].Record? && |ops[i].text| >= 10 && LowerWords(Words(ops[i].text)) == LowerWords(Words(again))
    && Op.Clear !in ops[i + 1..] && Eligible(ops[i + 1..]) < 50
  }

  /** A text repeats exactly when it has at least ten characters and some call recorded its words and is remembered. */
  lemma RepeatsIff(ops: seq<Op>, again: string)
    ensures Repeats(ops, again) <==> |again| >= 10 && exists i :: 0 <= i < |ops| && Remembered(ops, i, again)
  {
    hide Remembered, Repeats;
    if Repeats(ops, again) {
      var i := RepeatsSome(ops, again);
    }
    if |again| >= 10 {
      forall i | 0 <= i < |ops| && Remembered(ops, i, again) ensures Repeats(ops, again) {
        RememberedRepeats(ops, i, again);
      }
    }
  }

  lemma RememberedRepeats(ops: seq<Op>, i: nat, again: string)
    requires |again| >= 10 && i < |ops| && Remembered(ops, i, again)
    ensures Repeats(ops, again)
  {
    hide Repeats, Words, LowerWords;
    RecognisedWhileInWindow(ops[..i], ops[i].text, ops[i + 1..], again);
    assert ops[..i] + [Record(ops[i].text)] + ops[i + 1..] == ops;
  }

  lemma RepeatsSome(ops: seq<Op>, again: string) returns (i: nat)
    requires Repeats(ops, again)
    ensures |again| >= 10 && i < |ops| && Remembered(ops, i, again)
  {
    hide Normalize, Words, LowerWords, Recorded, Eligible;
    var w, all := Window(ops), Recorded(ops);
    var k :| 0 <= k < |w| && Normalize(w[k]) == Normalize(again);
    var j := |all| - |w| + k;
    i := Origin(ops, j);
    SameNormalForm(all[j], again);
    assert ops == ops[..i + 1] + ops[i + 1..];
    RecordedAfter(ops[..i + 1], ops[i + 1..]);
  }
}
