// Whole runs of the chunker: any sequence of push, try_flush and flush_remaining.

module ChunkerRuns {
  import opened Text
  import opened Fences
  import opened ChunkerSpec

  datatype Op = PushText(text: string) | FlushChunk | FlushRest

  /** `closed` holds the text pushed up to each forced close, cut at those closes; `open` the text pushed since. */
  datatype Run = Run(state: State, emitted: seq<string>, closed: seq<string>, open: string)

  const START_RUN: Run := Run(START, [], [], "")

  /** What a forced close adds to the stream. */
  const INSERTED: string := "\n```\n```\n"

  function Emit(emitted: seq<string>, chunk: Option<string>): seq<string> {
    if chunk.Some? then emitted + [chunk.value] else emitted
  }

  function Step(r: Run, op: Op, cfg: Config): Run
    requires cfg.min <= cfg.max
  {
    match op
    case PushText(text) => r.(state := Push(r.state, text), open := r.open + text)
    case FlushRest =>
      var (chunk, next) := FlushRemaining(r.state);
      r.(state := next, emitted := Emit(r.emitted, chunk))
    case FlushChunk =>
      var (chunk, next) := TryFlush(r.state, cfg);
      var emitted := Emit(r.emitted, chunk);
      if Forced(r.state, cfg) then Run(next, emitted, r.closed + [r.open], "") else r.(state := next, emitted := emitted)
  }

  function Exec(ops: seq<Op>, cfg: Config): Run
    requires cfg.min <= cfg.max
  {
    if ops == [] then START_RUN else Step(Exec(ops[..|ops| - 1], cfg), ops[|ops| - 1], cfg)
  }

  /** One more operation is one more step. */
  lemma ExecAppend(ops: seq<Op>, op: Op, cfg: Config)
    requires cfg.min <= cfg.max
    ensures Exec(ops + [op], cfg) == Step(Exec(ops, cfg), op, cfg)
  {
    assert (ops + [op])[..|ops|] == ops;
  }

  function PushedText(ops: seq<Op>): string {
    if ops == [] then ""
    else PushedText(ops[..|ops| - 1]) + (match ops[|ops| - 1] case PushText(text) => text case _ => "")
  }

  function PushedFenceLines(ops: seq<Op>): nat {
    if ops == [] then 0
    else PushedFenceLines(ops[..|ops| - 1]) + (match ops[|ops| - 1] case PushText(text) => FenceLines(text) case _ => 0)
  }

  predicate PushesWholeLines(ops: seq<Op>) {
    forall i :: 0 <= i < |ops| && ops[i].PushText? ==> EndsLine(ops[i].text)
  }

  // ----- conservation -----

  /** What went out and what is held, against what came in. */
  ghost predicate Conserved(r: Run, pushed: string) {
    && Concat(r.emitted) + r.state.buffer == Join(INSERTED, r.closed + [r.open])
    && Concat(r.closed + [r.open]) == pushed
  }

  lemma EmitConcat(emitted: seq<string>, chunk: string)
    ensures Concat(emitted + [chunk]) == Concat(emitted) + chunk
  {
    ConcatAppend(emitted, [chunk]);
    ConcatOne(chunk);
  }

  lemma ConservedPush(r: Run, pushed: string, text: string, cfg: Config)
    requires cfg.min <= cfg.max && Conserved(r, pushed)
    ensures Conserved(Step(r, PushText(text), cfg), pushed + text)
  {
    hide FenceLines, Concat;
    EmitConcat(r.closed, r.open);
    EmitConcat(r.closed, r.open + text);
    assert Concat(r.closed) + r.open + text == Concat(r.closed) + (r.open + text);
    if r.closed == [] {
      assert [r.open] == [] + [r.open] && [r.open + text] == [] + [r.open + text];
    } else {
      JoinAppend(INSERTED, r.closed, r.open);
      JoinAppend(INSERTED, r.closed, r.open + text);
    }
    assert Concat(r.emitted) + (r.state.buffer + text) == Concat(r.emitted) + r.state.buffer + text;
    assert Join(INSERTED, r.closed + [r.open + text]) == Join(INSERTED, r.closed + [r.open]) + text;
  }

  /** A chunk that leaves the front of the buffer changes nothing in the balance. */
  lemma ConservedEmit(r: Run, pushed: string, chunk: string, rest: string)
    requires Conserved(r, pushed) && chunk + rest == r.state.buffer
    ensures Conserved(r.(emitted := r.emitted + [chunk], state := r.state.(buffer := rest)), pushed)
  {
    hide Concat, Join;
    EmitConcat(r.emitted, chunk);
    assert Concat(r.emitted) + chunk + rest == Concat(r.emitted) + (chunk + rest);
  }

  lemma ConservedForced(r: Run, pushed: string, cfg: Config)
    requires cfg.min <= cfg.max && Conserved(r, pushed) && Forced(r.state, cfg)
    ensures Conserved(Step(r, FlushChunk, cfg), pushed)
  {
    hide Concat, Join;
    var r' := Step(r, FlushChunk, cfg);
    var texts := r.closed + [r.open];
    assert r'.closed == texts;
    assert Concat(r'.emitted) + r'.state.buffer == Join(INSERTED, texts) + INSERTED + "" by {
      EmitConcat(r.emitted, r.state.buffer + CLOSING);
      assert Concat(r.emitted) + (r.state.buffer + CLOSING) + REOPENING
          == Concat(r.emitted) + r.state.buffer + (CLOSING + REOPENING);
      assert CLOSING + REOPENING == INSERTED;
    }
    JoinAppend(INSERTED, texts, "");
    EmitConcat(texts, "");
  }

  lemma ConservedFlush(r: Run, pushed: string, cfg: Config)
    requires cfg.min <= cfg.max && Conserved(r, pushed) && !Forced(r.state, cfg)
    ensures Conserved(Step(r, FlushChunk, cfg), pushed)
  {
    hide TryFlush;
    var (chunk, next) := TryFlush(r.state, cfg);
    if r.state.inFence {
      FencedChunk(r.state, cfg);
    } else {
      UnfencedChunk(r.state, cfg);
      if chunk.Some? {
        ConservedEmit(r, pushed, chunk.value, next.buffer);
      }
    }
  }

  lemma ConservedRest(r: Run, pushed: string, cfg: Config)
    requires cfg.min <= cfg.max && Conserved(r, pushed)
    ensures Conserved(Step(r, FlushRest, cfg), pushed)
  {
    if r.state.buffer != "" {
      ConservedEmit(r, pushed, r.state.buffer, "");
    }
  }

  lemma ConservedStart()
    ensures Conserved(START_RUN, "")
  {
    ConcatOne("");
    assert [] + [""] == [""];
  }

  /**
   * Over any run: the emitted chunks followed by the buffer are the pushed text, with INSERTED written once
   * at the point each forced close reached, and nothing else changed.
   */
  lemma {:induction false} Conservation(ops: seq<Op>, cfg: Config)
    requires cfg.min <= cfg.max
    ensures Conserved(Exec(ops, cfg), PushedText(ops))
  {
    hide Step, Conserved;
    if ops == [] {
      ConservedStart();
    } else {
      var before, op := ops[..|ops| - 1], ops[|ops| - 1];
      var r, pushed := Exec(before, cfg), PushedText(before);
      Conservation(before, cfg);
      assert pushed + "" == pushed;
      match op
      case PushText(text) => ConservedPush(r, pushed, text, cfg);
      case FlushRest => ConservedRest(r, pushed, cfg);
      case FlushChunk =>
        if Forced(r.state, cfg) {
          ConservedForced(r, pushed, cfg);
        } else {
          ConservedFlush(r, pushed, cfg);
        }
    }
  }

  /** Without a forced close the text comes out unchanged. */
  lemma {:induction false} NothingInserted(ops: seq<Op>, cfg: Config)
    requires cfg.min <= cfg.max && Exec(ops, cfg).closed == []
    ensures Concat(Exec(ops, cfg).emitted) + Exec(ops, cfg).state.buffer == PushedText(ops)
  {
    Conservation(ops, cfg);
    var r := Exec(ops, cfg);
    assert r.closed + [r.open] == [r.open];
    ConcatOne(r.open);
  }

  /**
   * The end of a run: the rest leaves as one chunk, unless there is none, and then all that was emitted is the pushed
   * text with INSERTED at the forced closes.
   */
  lemma {:induction false} NothingIsHeldBack(ops: seq<Op>, cfg: Config)
    requires cfg.min <= cfg.max
    ensures var r, after := Exec(ops, cfg), Exec(ops + [FlushRest], cfg);
            && after.emitted == (if r.state.buffer == "" then r.emitted else r.emitted + [r.state.buffer])
            && after.state == r.state.(buffer := "")
            && Concat(after.emitted) == Join("\n```\n```\n", r.closed + [r.open])
            && Concat(r.closed + [r.open]) == PushedText(ops)
  {
    hide Exec, Concat, Join;
    ExecAppend(ops, FlushRest, cfg);
    Conservation(ops, cfg);
    var r := Exec(ops, cfg);
    if r.state.buffer == "" {
      assert Concat(r.emitted) + "" == Concat(r.emitted);
    } else {
      EmitConcat(r.emitted, r.state.buffer);
    }
  }

  // ----- fences -----

  /** In every reachable state the flag is the parity of the pushed fence lines, whatever was flushed. */
  lemma {:induction false} FlagIsParity(ops: seq<Op>, cfg: Config)
    requires cfg.min <= cfg.max
    ensures Exec(ops, cfg).state.Valid()
    ensures Exec(ops, cfg).state.inFence == Odd(PushedFenceLines(ops))
  {
    hide Step, FenceLines;
    if ops != [] {
      var before := ops[..|ops| - 1];
      FlagIsParity(before, cfg);
      StepKeepsFlag(Exec(before, cfg), ops[|ops| - 1], cfg);
    }
  }

  lemma StepKeepsFlag(r: Run, op: Op, cfg: Config)
    requires cfg.min <= cfg.max && r.state.Valid()
    ensures Step(r, op, cfg).state.Valid()
    ensures Step(r, op, cfg).state.inFence == (r.state.inFence != (op.PushText? && Odd(FenceLines(op.text))))
  {
    hide TryFlush, FenceLines;
    if op.FlushChunk? {
      if r.state.inFence {
        FencedChunk(r.state, cfg);
      } else {
        UnfencedChunk(r.state, cfg);
      }
    }
  }

  /**
   * Right after a forced close, everything emitted so far has an even number of fence lines exactly when the
   * text pushed so far, cut at the forced closes, had an odd number.
   */
  lemma {:induction false} ForcedCloseParity(ops: seq<Op>, cfg: Config)
    requires cfg.min <= cfg.max && Forced(Exec(ops, cfg).state, cfg)
    ensures var r := Exec(ops, cfg);
            FenceLines(Concat(Exec(ops + [FlushChunk], cfg).emitted)) == SumFenceLines(r.closed + [r.open]) + 2 * |r.closed| + 1
  {
    hide Exec, FenceLines, SumFenceLines;
    var r := Exec(ops, cfg);
    var after := Exec(ops + [FlushChunk], cfg);
    ExecAppend(ops, FlushChunk, cfg);
    Conservation(ops, cfg);
    var texts := r.closed + [r.open];
    EmitConcat(r.emitted, r.state.buffer + CLOSING);
    Assoc(Concat(r.emitted), r.state.buffer, CLOSING);
    assert INSERTED == CLOSING + REOPENING;
    FenceLinesJoin(texts);
    FenceLinesClosed(Join(INSERTED, texts));
  }

  /** With whole-line pushes the fence lines of the pieces between forced closes are those of the pushes. */
  lemma {:induction false} WholeLinesCount(ops: seq<Op>, cfg: Config)
    requires cfg.min <= cfg.max && PushesWholeLines(ops)
    ensures var r := Exec(ops, cfg); EndsLine(r.open) && SumFenceLines(r.closed + [r.open]) == PushedFenceLines(ops)
  {
    hide TryFlush, FenceLines;
    FenceConstants();
    if ops == [] {
      SumFenceLinesOne("");
      assert [] + [""] == [""];
    } else {
      var before, op := ops[..|ops| - 1], ops[|ops| - 1];
      var r := Exec(before, cfg);
      WholeLinesCount(before, cfg);
      SumFenceLinesAppend(r.closed, [r.open]);
      SumFenceLinesOne(r.open);
      match op
      case PushText(text) =>
        FenceLinesConcat(r.open, text);
        SumFenceLinesAppend(r.closed, [r.open + text]);
        SumFenceLinesOne(r.open + text);
      case FlushRest =>
      case FlushChunk =>
        SumFenceLinesAppend(r.closed + [r.open], [""]);
        SumFenceLinesOne("");
    }
  }

  /** With whole-line pushes every forced close leaves the fences of the emitted text balanced. */
  lemma FencesBalanced(ops: seq<Op>, cfg: Config)
    requires cfg.min <= cfg.max && PushesWholeLines(ops) && Forced(Exec(ops, cfg).state, cfg)
    ensures !Odd(FenceLines(Concat(Exec(ops + [FlushChunk], cfg).emitted)))
  {
    hide Exec, FenceLines, SumFenceLines, PushedFenceLines, Concat;
    FencesBalancedIff(ops, cfg);
    WholeLinesCount(ops, cfg);
    FlagIsParity(ops, cfg);
  }

  /** For pushes that cut lines: balanced exactly when the pieces between forced closes hold an odd number of fence lines. */
  lemma FencesBalancedIff(ops: seq<Op>, cfg: Config)
    requires cfg.min <= cfg.max && Forced(Exec(ops, cfg).state, cfg)
    ensures var r := Exec(ops, cfg);
            !Odd(FenceLines(Concat(Exec(ops + [FlushChunk], cfg).emitted))) <==> Odd(SumFenceLines(r.closed + [r.open]))
  {
    hide Exec, FenceLines, SumFenceLines, Concat;
    ForcedCloseParity(ops, cfg);
    var r := Exec(ops, cfg);
    OddSum(SumFenceLines(r.closed + [r.open]), 2 * |r.closed| + 1);
  }

  /**
   * Pushing a text in two goes is pushing it in one exactly when the cut neither makes nor breaks a fence line:
   * `tail` and `head` are the two halves of the line that is cut.
   */
  lemma PushInTwo(s: State, before: string, tail: string, head: string, after: string)
    requires s.Valid() && EndsLine(before) && HasNoNewline(tail) && HasNoNewline(head)
    requires after == "" || after[0] == '\n'
    ensures Push(Push(s, before + tail), head + after) == Push(s, before + tail + (head + after))
       <==> IsFenceLine(tail + head) == (IsFenceLine(tail) != IsFenceLine(head))
  {
    hide Push, FenceLines, IsFenceLine;
    var a, b := before + tail, head + after;
    PushParity(s, a, b);
    FenceLinesCutLine(before, tail, head, after);
    OddSum(FenceLines(a) + FenceLines(b), FencesIn(tail + head));
    OddSum(FenceLines(a + b), FencesIn(tail) + FencesIn(head));
    OddSum(FencesIn(tail), FencesIn(head));
  }

  lemma PushParity(s: State, a: string, b: string)
    ensures Push(Push(s, a), b) == Push(s, a + b) <==> Odd(FenceLines(a + b)) == Odd(FenceLines(a) + FenceLines(b))
  {
    hide FenceLines;
    OddSum(FenceLines(a), FenceLines(b));
    assert s.buffer + a + b == s.buffer + (a + b);
  }

  /** In particular it makes no difference after a whole line. */
  lemma PushWholeLine(s: State, a: string, b: string)
    requires EndsLine(a)
    ensures Push(Push(s, a), b) == Push(s, a + b)
  {
    FenceLinesConcat(a, b);
    PushParity(s, a, b);
  }
}
