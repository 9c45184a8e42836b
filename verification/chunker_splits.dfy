// "Never splits inside fenced code blocks" (crates/clawreform-api/src/stream_chunker.rs:3-4, 10): when a flush leaves
// a code block open in what has been emitted, although the chunker is outside any fence.

module ChunkerSplits {
  import opened Text
  import opened Fences
  import opened ChunkerSpec
  import opened ChunkerRuns

  /** A chunk that is no forced close leaves, and all that is emitted by then ends inside a code block. */
  predicate LeavesOpen(ops: seq<Op>, cfg: Config)
    requires cfg.min <= cfg.max
  {
    var s := Exec(ops, cfg).state;
    !Forced(s, cfg) && TryFlush(s, cfg).0.Some? && Odd(FenceLines(Concat(Exec(ops + [FlushChunk], cfg).emitted)))
  }

  /** The fence lines that are not out yet once the buffer is out up to the cut. */
  function FencesLeft(r: Run, cut: nat): nat
    requires cut <= |r.state.buffer|
  {
    FencesBehind(Concat(r.emitted) + r.state.buffer[..cut], r.state.buffer[cut..])
  }

  /** Cutting the buffer there leaves an odd number of fence lines behind. */
  ghost predicate CutsBlock(r: Run, cfg: Config, cut: nat) {
    && IsCutPoint(r.state.buffer, cfg, cut)
    && Odd(FencesLeft(r, cut))
  }

  /** All that was emitted and held has as many fence lines as the pieces between forced closes, and two per close. */
  lemma WholeStream(ops: seq<Op>, cfg: Config)
    requires cfg.min <= cfg.max
    ensures var r := Exec(ops, cfg);
            FenceLines(Concat(r.emitted) + r.state.buffer) == SumFenceLines(r.closed + [r.open]) + 2 * |r.closed|
  {
    hide Exec, FenceLines, SumFenceLines, Join;
    var r := Exec(ops, cfg);
    Conservation(ops, cfg);
    assert INSERTED == CLOSING + REOPENING;
    FenceLinesJoin(r.closed + [r.open]);
  }

  /** What is emitted after an unforced chunk has left. */
  lemma {:induction false} EmittedAfter(ops: seq<Op>, cfg: Config)
    requires cfg.min <= cfg.max
    ensures var r := Exec(ops, cfg);
            var chunk := TryFlush(r.state, cfg).0;
            !Forced(r.state, cfg) && chunk.Some? ==> Concat(Exec(ops + [FlushChunk], cfg).emitted) == Concat(r.emitted) + chunk.value
  {
    hide Exec, TryFlush, Concat;
    ExecAppend(ops, FlushChunk, cfg);
    var r := Exec(ops, cfg);
    var chunk := TryFlush(r.state, cfg).0;
    if !Forced(r.state, cfg) && chunk.Some? {
      EmitConcat(r.emitted, chunk.value);
    }
  }

  /** How many fence lines are out after the cut. */
  lemma FencesOut(ops: seq<Op>, cfg: Config, cut: nat)
    requires cfg.min <= cfg.max && cut <= |Exec(ops, cfg).state.buffer|
    ensures var r := Exec(ops, cfg);
            var front, back := Concat(r.emitted) + r.state.buffer[..cut], r.state.buffer[cut..];
            FenceLines(front) + FencesBehind(front, back) == SumFenceLines(r.closed + [r.open]) + 2 * |r.closed|
  {
    hide Exec, FenceLines, SumFenceLines, Concat, FencesBehind;
    var r := Exec(ops, cfg);
    WholeStream(ops, cfg);
    BehindCounts(Concat(r.emitted) + r.state.buffer[..cut], r.state.buffer[cut..]);
    Assoc(Concat(r.emitted), r.state.buffer[..cut], r.state.buffer[cut..]);
    assert r.state.buffer[..cut] + r.state.buffer[cut..] == r.state.buffer;
  }

  /**
   * For every run and its thresholds: a flush leaves a block open exactly when the chunker is outside any fence and
   * the parity of the fence lines behind its cut differs from that of the texts pushed between forced closes.
   */
  lemma LeavesOpenIff(ops: seq<Op>, cfg: Config)
    requires cfg.min <= cfg.max
    ensures var r := Exec(ops, cfg);
            LeavesOpen(ops, cfg) <==>
            !r.state.inFence && exists cut: nat ::
              IsCutPoint(r.state.buffer, cfg, cut) &&
              Odd(SumFenceLines(r.closed + [r.open])) !=
              Odd(FencesLeft(r, cut))
  {
    hide Exec, FenceLines, SumFenceLines, Concat, FencesBehind, TryFlush, IsCutPoint;
    var r := Exec(ops, cfg);
    if r.state.inFence {
      FencedChunk(r.state, cfg);
    } else {
      CutsInBuffer(r.state.buffer, cfg);
      forall cut: nat | cut <= |r.state.buffer| && IsCutPoint(r.state.buffer, cfg, cut)
        ensures LeavesOpen(ops, cfg) <==>
                Odd(SumFenceLines(r.closed + [r.open])) !=
                Odd(FencesLeft(r, cut))
      {
        LeavesOpenAt(ops, cfg, cut);
      }
      if LeavesOpen(ops, cfg) {
        UnfencedCut(r.state, cfg);
      }
    }
  }

  lemma UnfencedCut(s: State, cfg: Config)
    requires cfg.min <= cfg.max && !s.inFence && TryFlush(s, cfg).0.Some?
    ensures IsCutPoint(s.buffer, cfg, |TryFlush(s, cfg).0.value|)
  {
    hide TryFlush, IsCutPoint;
    UnfencedChunk(s, cfg);
    var chunk := TryFlush(s, cfg).0.value;
    assert s.buffer[..|chunk|] == chunk;
    CutPointIsChunk(s, cfg, |chunk|);
  }

  lemma LeavesOpenAt(ops: seq<Op>, cfg: Config, cut: nat)
    requires cfg.min <= cfg.max && !Exec(ops, cfg).state.inFence && IsCutPoint(Exec(ops, cfg).state.buffer, cfg, cut)
    ensures var r := Exec(ops, cfg);
            LeavesOpen(ops, cfg) <==>
            Odd(SumFenceLines(r.closed + [r.open])) !=
            Odd(FencesLeft(r, cut))
  {
    hide Exec, FenceLines, SumFenceLines, Concat, FencesBehind, TryFlush, IsCutPoint;
    var r := Exec(ops, cfg);
    CutPointIsChunk(r.state, cfg, cut);
    EmittedAfter(ops, cfg);
    FencesOut(ops, cfg, cut);
    var front, back := Concat(r.emitted) + r.state.buffer[..cut], r.state.buffer[cut..];
    OddSum(FenceLines(front), FencesBehind(front, back));
    OddSum(SumFenceLines(r.closed + [r.open]), 2 * |r.closed|);
  }

  /**
   * When pushes end at line ends: exactly when the chunker is outside any fence and its cut leaves an odd number of
   * fence lines behind.
   */
  lemma {:induction false} LeavesOpenWholeLines(ops: seq<Op>, cfg: Config)
    requires cfg.min <= cfg.max && PushesWholeLines(ops)
    ensures LeavesOpen(ops, cfg) <==> !Exec(ops, cfg).state.inFence && exists cut: nat :: CutsBlock(Exec(ops, cfg), cfg, cut)
  {
    hide Exec, FenceLines, SumFenceLines, PushedFenceLines, Concat, FencesBehind, LeavesOpen, IsCutPoint;
    var r := Exec(ops, cfg);
    LeavesOpenIff(ops, cfg);
    CutsInBuffer(r.state.buffer, cfg);
    WholeLinesCount(ops, cfg);
    FlagIsParity(ops, cfg);
    if !r.state.inFence {
      forall cut: nat | cut <= |r.state.buffer|
        ensures CutsBlock(r, cfg, cut) <==>
                IsCutPoint(r.state.buffer, cfg, cut) &&
                Odd(SumFenceLines(r.closed + [r.open])) !=
                Odd(FencesLeft(r, cut))
      {
      }
    }
  }

  /** When also the cut ends a line, what counts is the number of fence lines in the rest of the buffer. */
  lemma CutsBlockAtLineEnd(r: Run, cfg: Config, cut: nat)
    requires IsCutPoint(r.state.buffer, cfg, cut) && EndsLine(Concat(r.emitted) + r.state.buffer[..cut])
    ensures CutsBlock(r, cfg, cut) <==> Odd(FenceLines(r.state.buffer[cut..]))
  {
    hide IsCutPoint, FenceLines, FencesBehind;
    CutInBuffer(r.state.buffer, cfg, cut);
    BehindLineEnd(Concat(r.emitted) + r.state.buffer[..cut], r.state.buffer[cut..]);
  }

  /** A buffer that begins a line and has no fence line cannot be cut inside a block. */
  lemma NoFenceLineNoSplit(ops: seq<Op>, cfg: Config)
    requires cfg.min <= cfg.max && PushesWholeLines(ops)
    requires EndsLine(Concat(Exec(ops, cfg).emitted)) && FenceLines(Exec(ops, cfg).state.buffer) == 0
    ensures !LeavesOpen(ops, cfg)
  {
    hide Exec, FenceLines, SumFenceLines, PushedFenceLines, Concat, TryFlush;
    var r := Exec(ops, cfg);
    var e, chunk := Concat(r.emitted), TryFlush(r.state, cfg).0;
    WholeStream(ops, cfg);
    WholeLinesCount(ops, cfg);
    FlagIsParity(ops, cfg);
    FenceLinesConcat(e, r.state.buffer);
    EmittedAfter(ops, cfg);
    if r.state.inFence {
      FencedChunk(r.state, cfg);
    } else if chunk.Some? {
      UnfencedChunk(r.state, cfg);
      assert r.state.buffer[..|chunk.value|] == chunk.value;
      FenceLinesOfPrefix(r.state.buffer, |chunk.value|);
      FenceLinesConcat(e, chunk.value);
      OddSum(SumFenceLines(r.closed + [r.open]), 2 * |r.closed|);
    }
  }

  // ----- one push, then a flush -----

  lemma OnePush(text: string, cfg: Config)
    requires cfg.min <= cfg.max
    ensures var r := Exec([PushText(text)], cfg);
            r.emitted == [] && r.closed == [] && r.open == text && r.state == Push(START, text) && r.state.buffer == text
  {
    assert [PushText(text)] == [] + [PushText(text)];
    ExecAppend([], PushText(text), cfg);
    assert "" + text == text;
  }

  lemma OnePushLeavesOpen(text: string, cfg: Config, cut: nat)
    requires cfg.min <= cfg.max && !Odd(FenceLines(text)) && IsCutPoint(text, cfg, cut)
    ensures LeavesOpen([PushText(text)], cfg) <==> Odd(FenceLines(text[..cut]))
  {
    hide Exec, FenceLines, TryFlush, IsCutPoint;
    var ops := [PushText(text)];
    OnePush(text, cfg);
    var r := Exec(ops, cfg);
    CutPointIsChunk(r.state, cfg, cut);
    EmittedAfter(ops, cfg);
    assert Concat([]) + text[..cut] == text[..cut];
  }

  /**
   * No thresholds make the first flush of a pushed text with closed blocks leave one open exactly when the text has
   * no fence line.
   */
  lemma NeverSplitsIff(text: string)
    requires !Odd(FenceLines(text))
    ensures (forall cfg: Config | cfg.min <= cfg.max :: !LeavesOpen([PushText(text)], cfg)) <==> FenceLines(text) == 0
  {
    hide Exec, FenceLines, TryFlush, LeavesOpen, IsCutPoint, Push;
    var ops := [PushText(text)];
    if FenceLines(text) == 0 {
      forall cfg: Config | cfg.min <= cfg.max ensures !LeavesOpen(ops, cfg) {
        OnePush(text, cfg);
        LeavesOpenIff(ops, cfg);
        if LeavesOpen(ops, cfg) {
          var cut: nat :| IsCutPoint(text, cfg, cut);
          CutInBuffer(text, cfg, cut);
          OnePushLeavesOpen(text, cfg, cut);
          FenceLinesOfPrefix(text, cut);
        }
      }
    } else {
      var k := FirstFenceLine(text);
      MaxCut(text, k);
      OnePushLeavesOpen(text, Config(k, k), k);
    }
  }

  lemma CutInBuffer(text: string, cfg: Config, cut: nat)
    requires IsCutPoint(text, cfg, cut)
    ensures cut <= |text|
  {
  }

  lemma CutsInBuffer(text: string, cfg: Config)
    ensures forall cut: nat :: IsCutPoint(text, cfg, cut) ==> cut <= |text|
  {
  }

  lemma MaxCut(text: string, k: nat)
    requires k <= |text|
    ensures IsCutPoint(text, Config(k, k), k)
  {
    assert NoCut(text, k, WindowEnd(text, Config(k, k)));
  }

  const SAMPLE: string := "x\n```\nab\n\ncd\n```\n"

  /** The promise fails: pushed at once and flushed, this text is cut at the blank line inside its closed block. */
  lemma SplitInsideFence()
    ensures LeavesOpen([PushText(SAMPLE)], Config(5, 10))
    ensures Exec([PushText(SAMPLE), FlushChunk], Config(5, 10)).emitted == ["x\n```\nab\n\n"]
  {
    hide Exec, FenceLines, TryFlush, LeavesOpen, IsCutPoint, Push;
    var ops, cfg := [PushText(SAMPLE)], Config(5, 10);
    SampleFences();
    SampleCut();
    OnePush(SAMPLE, cfg);
    OnePushLeavesOpen(SAMPLE, cfg, 10);
    SampleNotFenced();
    CutPointIsChunk(Exec(ops, cfg).state, cfg, 10);
    SampleParts();
    ExecAppend(ops, FlushChunk, cfg);
    assert ops + [FlushChunk] == [PushText(SAMPLE), FlushChunk];
  }

  lemma SampleNotFenced()
    ensures !Push(START, SAMPLE).inFence && Push(START, SAMPLE).buffer == SAMPLE
  {
    hide FenceLines;
    SampleFences();
    assert "" + SAMPLE == SAMPLE;
  }

  lemma SampleParts()
    ensures |SAMPLE| == 17 && SAMPLE[..10] == "x\n```\nab\n\n" && SAMPLE[10..] == "cd\n```\n"
  {
  }

  lemma SampleCut()
    ensures IsCutPoint(SAMPLE, Config(5, 10), 10)
  {
    SampleParts();
    assert SAMPLE[8..10] == "\n\n";
    assert IsBestCut(SAMPLE, 5, 10, 0, 10);
  }

  lemma SampleFences()
    ensures FenceLines(SAMPLE[..10]) == 1 && FenceLines(SAMPLE) == 2
  {
    hide FenceLines;
    SampleParts();
    PlainLine('x', "x");
    PlainLine('a', "ab");
    PlainLine('c', "cd");
    FenceConstants();
    FenceLinesNewline(FENCE);
    assert "ab\n\n" == "ab" + "\n" + "\n";
    FenceLinesAcrossNewline("ab", "\n");
    FenceLinesNewline("");
    assert "" + "\n" == "\n";
    assert "```\nab\n\n" == "```" + "\n" + "ab\n\n";
    FenceLinesAcrossNewline("```", "ab\n\n");
    assert "x\n```\nab\n\n" == "x" + "\n" + "```\nab\n\n";
    FenceLinesAcrossNewline("x", "```\nab\n\n");
    assert "cd\n```\n" == "cd" + "\n" + ("```" + "\n");
    FenceLinesAcrossNewline("cd", "```" + "\n");
    assert SAMPLE == "x\n```\nab\n\n" + "cd\n```\n";
    FenceLinesConcat("x\n```\nab\n\n", "cd\n```\n");
  }

  lemma PlainLine(c: char, line: string)
    requires line != "" && line[0] == c && c != '`' && !IsWhitespace(c) && HasNoNewline(line)
    ensures FenceLines(line) == 0
  {
    hide FenceLines;
    FenceLineByStart(line);
    FenceLinesOfLine(line);
  }
}
