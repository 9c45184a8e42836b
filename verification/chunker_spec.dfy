// Markdown-aware stream chunking (crates/clawreform-api/src/stream_chunker.rs).
// The specification: a state machine over values. The class is in stream_chunker.dfy.

module ChunkerSpec {
  import opened Text
  import opened Fences

  datatype Config = Config(min: nat, max: nat)

  datatype State = State(buffer: string, inFence: bool, marker: string) {
    /** The marker is there exactly while a fence is open. */
    predicate Valid() {
      marker == if inFence then FENCE else ""
    }
  }

  const START: State := State("", false, "")

  // ----- push -----

  /** The text is buffered and every fence line in it flips the flag. */
  function Push(s: State, text: string): State {
    var inFence := s.inFence != Odd(FenceLines(text));
    State(s.buffer + text, inFence, if inFence then FENCE else "")
  }

  // ----- where to break -----

  /** Natural break points, best first. */
  const BREAKS: seq<string> := ["\n\n", "\n", ". ", "! ", "? "]

  /** `find_last_in_range`. */
  function FindLastInRange(text: string, pattern: string, lo: nat, hi: nat): (r: Option<nat>)
    requires lo <= hi && lo <= |text|
    ensures r.Some? ==> lo <= r.value && r.value + |pattern| <= hi && OccursAt(text, pattern, r.value)
    ensures forall k :: lo <= k && k + |pattern| <= hi && OccursAt(text, pattern, k) ==> r.Some? && k <= r.value
  {
    var end := if hi < |text| then hi else |text|;
    assert forall k :: OccursAt(text, pattern, k) && lo <= k && k + |pattern| <= end ==>
        OccursAt(text[lo..end], pattern, k - lo) by {
      forall k | OccursAt(text, pattern, k) && lo <= k && k + |pattern| <= end
        ensures OccursAt(text[lo..end], pattern, k - lo)
      {
        OccursInSlice(text, pattern, lo, end, k - lo);
      }
    }
    match RFind(text[lo..end], pattern)
    case None => None
    case Some(p) =>
      OccursInSlice(text, pattern, lo, end, p);
      Some(lo + p)
  }

  /** Cutting at `cut` puts an occurrence of the break of that rank, found inside the window, just before the cut. */
  predicate IsCut(buffer: string, lo: nat, hi: nat, rank: nat, cut: nat)
    requires rank < |BREAKS|
  {
    lo + |BREAKS[rank]| <= cut <= hi && OccursAt(buffer, BREAKS[rank], cut - |BREAKS[rank]|)
  }

  function NaturalBreak(buffer: string, lo: nat, hi: nat, rank: nat): (r: Option<nat>)
    requires lo <= hi && lo <= |buffer| && rank <= |BREAKS|
    decreases |BREAKS| - rank
  {
    if rank == |BREAKS| then None
    else match FindLastInRange(buffer, BREAKS[rank], lo, hi)
         case Some(p) => Some(p + |BREAKS[rank]|)
         case None => NaturalBreak(buffer, lo, hi, rank + 1)
  }

  /** Where an unfenced buffer is cut, if it is cut at all. */
  function BreakPoint(buffer: string, cfg: Config): Option<nat>
    requires cfg.min <= cfg.max && cfg.min <= |buffer|
  {
    match NaturalBreak(buffer, cfg.min, WindowEnd(buffer, cfg), 0)
    case Some(cut) => Some(cut)
    case None => if |buffer| >= cfg.max then Some(cfg.max) else None
  }

  function WindowEnd(buffer: string, cfg: Config): nat {
    if |buffer| < cfg.max then |buffer| else cfg.max
  }

  /** No cut of a better rank exists, and none of the same rank further right. */
  ghost predicate IsBestCut(buffer: string, lo: nat, hi: nat, rank: nat, cut: nat)
    requires rank < |BREAKS|
  {
    && IsCut(buffer, lo, hi, rank, cut)
    && forall r: nat, c: nat :: r < |BREAKS| && IsCut(buffer, lo, hi, r, c) ==> rank < r || (rank == r && c <= cut)
  }

  ghost predicate NoCut(buffer: string, lo: nat, hi: nat) {
    forall r: nat, c: nat :: r < |BREAKS| ==> !IsCut(buffer, lo, hi, r, c)
  }

  // ----- flush -----

  /** The buffer is full while a fence is open. */
  predicate Forced(s: State, cfg: Config) {
    s.inFence && |s.buffer| >= cfg.min && |s.buffer| >= cfg.max
  }

  /** The chunk that leaves, if any, and the state after it. */
  function TryFlush(s: State, cfg: Config): (Option<string>, State)
    requires cfg.min <= cfg.max
  {
    if |s.buffer| < cfg.min then (None, s)
    else if Forced(s, cfg) then (Some(s.buffer + CLOSING), s.(buffer := REOPENING))
    else if s.inFence then (None, s)
    else match BreakPoint(s.buffer, cfg)
         case None => (None, s)
         case Some(cut) =>
           BreakPointInBounds(s.buffer, cfg);
           (Some(s.buffer[..cut]), s.(buffer := s.buffer[cut..]))
  }

  /** What a call of `try_flush` comes to, whatever the thresholds. */
  datatype Outcome = Panic | Returns(chunk: Option<string>, next: State)

  /** The code's branches; the search panics when its window would start past its end. */
  function CheckedFlush(s: State, cfg: Config): Outcome {
    if |s.buffer| < cfg.min then Returns(None, s)
    else if s.inFence && |s.buffer| < cfg.max then Returns(None, s)
    else if s.inFence then Returns(Some(s.buffer + CLOSING), s.(buffer := REOPENING))
    else if cfg.min > WindowEnd(s.buffer, cfg) then Panic
    else match NaturalBreak(s.buffer, cfg.min, WindowEnd(s.buffer, cfg), 0)
         case Some(cut) =>
           NaturalBreakInBounds(s.buffer, cfg.min, WindowEnd(s.buffer, cfg), 0);
           Returns(Some(s.buffer[..cut]), s.(buffer := s.buffer[cut..]))
         case None =>
           if |s.buffer| >= cfg.max then Returns(Some(s.buffer[..cfg.max]), s.(buffer := s.buffer[cfg.max..]))
           else Returns(None, s)
  }

  /** The thresholds are the wrong way round and an unfenced buffer has reached the larger one. */
  predicate Panics(s: State, cfg: Config) {
    cfg.min > cfg.max && !s.inFence && |s.buffer| >= cfg.min
  }

  /** That is exactly when the call panics; with thresholds the right way round it is the flush step. */
  lemma PanicsIff(s: State, cfg: Config)
    ensures CheckedFlush(s, cfg) == Panic <==> Panics(s, cfg)
    ensures cfg.min <= cfg.max ==> CheckedFlush(s, cfg) == Returns(TryFlush(s, cfg).0, TryFlush(s, cfg).1)
    ensures cfg.min > cfg.max && !Panics(s, cfg) ==>
              CheckedFlush(s, cfg) ==
              if |s.buffer| < cfg.min then Returns(None, s)
              else Returns(Some(s.buffer + "\n```\n"), s.(buffer := "```\n"))
  {
    hide NaturalBreak;
  }

  function FlushRemaining(s: State): (Option<string>, State) {
    if s.buffer == "" then (None, s) else (Some(s.buffer), s.(buffer := ""))
  }

  // ----- the cut is the best one -----

  lemma BreakPointInBounds(buffer: string, cfg: Config)
    requires cfg.min <= cfg.max && cfg.min <= |buffer|
    ensures BreakPoint(buffer, cfg).Some? ==> cfg.min <= BreakPoint(buffer, cfg).value <= WindowEnd(buffer, cfg)
  {
    NaturalBreakInBounds(buffer, cfg.min, WindowEnd(buffer, cfg), 0);
  }

  lemma {:induction false} NaturalBreakInBounds(buffer: string, lo: nat, hi: nat, rank: nat)
    requires lo <= hi && lo <= |buffer| && rank <= |BREAKS|
    ensures NaturalBreak(buffer, lo, hi, rank).Some? ==> lo < NaturalBreak(buffer, lo, hi, rank).value <= hi
    decreases |BREAKS| - rank
  {
    hide FindLastInRange;
    if rank < |BREAKS| && FindLastInRange(buffer, BREAKS[rank], lo, hi).None? {
      NaturalBreakInBounds(buffer, lo, hi, rank + 1);
    }
  }

  lemma {:induction false} NaturalBreakIsBest(buffer: string, lo: nat, hi: nat, rank: nat) returns (best: nat)
    requires lo <= hi && lo <= |buffer| && rank <= |BREAKS|
    requires forall r: nat, c: nat :: r < rank ==> !IsCut(buffer, lo, hi, r, c)
    ensures match NaturalBreak(buffer, lo, hi, rank)
            case Some(cut) => best < |BREAKS| && IsBestCut(buffer, lo, hi, best, cut)
            case None => NoCut(buffer, lo, hi)
    decreases |BREAKS| - rank
  {
    hide FindLastInRange, OccursAt;
    best := rank;
    if rank < |BREAKS| && FindLastInRange(buffer, BREAKS[rank], lo, hi).None? {
      best := NaturalBreakIsBest(buffer, lo, hi, rank + 1);
    }
  }

  /** An unfenced buffer is cut at the best natural break, else at the maximum, else not at all. */
  lemma UnfencedChunk(s: State, cfg: Config)
    requires cfg.min <= cfg.max && !s.inFence
    ensures var (chunk, next) := TryFlush(s, cfg);
            var hi := WindowEnd(s.buffer, cfg);
            match chunk
            case Some(c) =>
              && c + next.buffer == s.buffer && next == s.(buffer := next.buffer)
              && cfg.min <= |c| <= cfg.max
              && ((exists r: nat | r < |BREAKS| :: IsBestCut(s.buffer, cfg.min, hi, r, |c|))
                  || (NoCut(s.buffer, cfg.min, hi) && |c| == cfg.max))
            case None =>
              && next == s
              && (|s.buffer| < cfg.min || (|s.buffer| < cfg.max && NoCut(s.buffer, cfg.min, hi)))
  {
    if |s.buffer| >= cfg.min {
      var best := NaturalBreakIsBest(s.buffer, cfg.min, WindowEnd(s.buffer, cfg), 0);
      BreakPointInBounds(s.buffer, cfg);
    }
  }

  /** The text ends with the last occurrence of `p` in the window of the buffer. */
  ghost predicate EndsWithLast(chunk: Option<string>, buffer: string, lo: nat, hi: nat, p: string) {
    && chunk.Some? && lo + |p| <= |chunk.value| <= hi && chunk.value <= buffer
    && OccursAt(buffer, p, |chunk.value| - |p|)
    && forall k :: lo <= k && k + |p| <= hi && OccursAt(buffer, p, k) ==> k + |p| <= |chunk.value|
  }

  ghost predicate InWindow(buffer: string, lo: nat, hi: nat, p: string) {
    exists k :: lo <= k && k + |p| <= hi && OccursAt(buffer, p, k)
  }

  /**
   * The order of the breaks: a blank line before any other newline, then a full stop, an exclamation mark and a question
   * mark, each before a space; the last one in the window counts. Without any, the chunk is as long as the maximum.
   */
  lemma BreaksInOrder(s: State, cfg: Config)
    requires cfg.min <= cfg.max && !s.inFence && |s.buffer| >= cfg.min
    ensures var chunk, b, lo, hi := TryFlush(s, cfg).0, s.buffer, cfg.min, if |s.buffer| < cfg.max then |s.buffer| else cfg.max;
            if InWindow(b, lo, hi, "\n\n") then EndsWithLast(chunk, b, lo, hi, "\n\n")
            else if InWindow(b, lo, hi, "\n") then EndsWithLast(chunk, b, lo, hi, "\n")
            else if InWindow(b, lo, hi, ". ") then EndsWithLast(chunk, b, lo, hi, ". ")
            else if InWindow(b, lo, hi, "! ") then EndsWithLast(chunk, b, lo, hi, "! ")
            else if InWindow(b, lo, hi, "? ") then EndsWithLast(chunk, b, lo, hi, "? ")
            else chunk == if |b| >= cfg.max then Some(b[..cfg.max]) else None
  {
    hide NaturalBreak, InWindow, EndsWithLast, OccursAt;
    var b, lo, hi := s.buffer, cfg.min, WindowEnd(s.buffer, cfg);
    BreakOfRank(b, lo, hi, 0);
    BreakOfRank(b, lo, hi, 1);
    BreakOfRank(b, lo, hi, 2);
    BreakOfRank(b, lo, hi, 3);
    BreakOfRank(b, lo, hi, 4);
    BreakOfRank(b, lo, hi, 5);
    BreakPointInBounds(b, cfg);
  }

  lemma BreakOfRank(buffer: string, lo: nat, hi: nat, rank: nat)
    requires lo <= hi <= |buffer| && rank <= |BREAKS|
    ensures var cut := NaturalBreak(buffer, lo, hi, rank);
            if rank == |BREAKS| then cut.None?
            else if InWindow(buffer, lo, hi, BREAKS[rank]) then
              cut.Some? && cut.value <= |buffer| && EndsWithLast(Some(buffer[..cut.value]), buffer, lo, hi, BREAKS[rank])
            else cut == NaturalBreak(buffer, lo, hi, rank + 1)
  {
    hide OccursAt;
  }

  lemma BestCutIsUnique(buffer: string, lo: nat, hi: nat, r1: nat, c1: nat, r2: nat, c2: nat)
    requires r1 < |BREAKS| && r2 < |BREAKS|
    requires IsBestCut(buffer, lo, hi, r1, c1) && IsBestCut(buffer, lo, hi, r2, c2)
    ensures c1 == c2
  {
    assert IsCut(buffer, lo, hi, r1, c1) && IsCut(buffer, lo, hi, r2, c2);
  }

  /** Where an unfenced buffer is cut: at the best natural break, or at the maximum when there is none. */
  ghost predicate IsCutPoint(buffer: string, cfg: Config, cut: nat) {
    var hi := WindowEnd(buffer, cfg);
    && cfg.min <= |buffer| && cut <= |buffer|
    && ((exists r: nat | r < |BREAKS| :: IsBestCut(buffer, cfg.min, hi, r, cut)) || (NoCut(buffer, cfg.min, hi) && cut == cfg.max))
  }

  /** The cut point is unique, and the chunk that leaves an unfenced buffer is the text before it. */
  lemma CutPointIsChunk(s: State, cfg: Config, cut: nat)
    requires cfg.min <= cfg.max && !s.inFence
    ensures IsCutPoint(s.buffer, cfg, cut) <==> cut <= |s.buffer| && TryFlush(s, cfg).0 == Some(s.buffer[..cut])
  {
    hide TryFlush, IsBestCut, NoCut;
    UnfencedChunk(s, cfg);
    var chunk, hi := TryFlush(s, cfg).0, WindowEnd(s.buffer, cfg);
    if chunk.Some? {
      assert s.buffer[..|chunk.value|] == chunk.value;
    }
    if IsCutPoint(s.buffer, cfg, cut) {
      CutPointLeaves(s, cfg, cut);
      if NoCut(s.buffer, cfg.min, hi) {
        NoBestCut(s.buffer, cfg.min, hi);
      } else {
        var r1: nat :| r1 < |BREAKS| && IsBestCut(s.buffer, cfg.min, hi, r1, cut);
        var r2: nat :| r2 < |BREAKS| && IsBestCut(s.buffer, cfg.min, hi, r2, |chunk.value|);
        BestCutIsUnique(s.buffer, cfg.min, hi, r1, cut, r2, |chunk.value|);
      }
    }
  }

  lemma NoBestCut(buffer: string, lo: nat, hi: nat)
    requires NoCut(buffer, lo, hi)
    ensures forall r: nat, c: nat :: r < |BREAKS| ==> !IsBestCut(buffer, lo, hi, r, c)
  {
  }

  lemma CutPointLeaves(s: State, cfg: Config, cut: nat)
    requires cfg.min <= cfg.max && !s.inFence && IsCutPoint(s.buffer, cfg, cut)
    ensures TryFlush(s, cfg).0.Some?
  {
    hide TryFlush;
    UnfencedChunk(s, cfg);
    if NoCut(s.buffer, cfg.min, WindowEnd(s.buffer, cfg)) {
      NoBestCut(s.buffer, cfg.min, WindowEnd(s.buffer, cfg));
    }
  }

  /** While a fence is open a chunk leaves only through the forced close. */
  lemma FencedChunk(s: State, cfg: Config)
    requires cfg.min <= cfg.max && s.inFence
    ensures TryFlush(s, cfg) == if |s.buffer| >= cfg.max then (Some(s.buffer + CLOSING), s.(buffer := REOPENING)) else (None, s)
  {
  }

  /**
   * While a fence is open a chunk leaves exactly when the buffer is full: the whole buffer with one more fence
   * line, its end. The fence stays open, and the new buffer holds one fence line.
   */
  lemma FencedFlush(s: State, cfg: Config)
    requires cfg.min <= cfg.max && s.inFence
    ensures var (chunk, next) := TryFlush(s, cfg);
            && (chunk.Some? <==> |s.buffer| >= cfg.max)
            && (chunk.None? ==> next == s)
            && (chunk.Some? ==>
                  && chunk.value == s.buffer + "\n```\n" && next.buffer == "```\n"
                  && FenceLines(chunk.value) == FenceLines(s.buffer) + 1 && EndsLine(chunk.value)
                  && FenceLines(next.buffer) == 1 && next.inFence && next.marker == s.marker)
  {
    hide FenceLines;
    FencedChunk(s, cfg);
    FenceLinesClosed(s.buffer);
    FenceConstants();
    FenceLinesNewline(FENCE);
    assert FENCE + "\n" == REOPENING;
  }

  // ----- flushing again and again -----

  /** The state after `n` calls of `try_flush`. */
  function Flushed(s: State, cfg: Config, n: nat): State
    requires cfg.min <= cfg.max
    decreases n
  {
    if n == 0 then s else Flushed(TryFlush(s, cfg).1, cfg, n - 1)
  }

  predicate Quiet(s: State, cfg: Config)
    requires cfg.min <= cfg.max
  {
    TryFlush(s, cfg).0.None?
  }

  /** What the thresholds must allow for the flushing to come to rest. */
  predicate ComesToRest(s: State, cfg: Config) {
    if s.inFence then |s.buffer| < cfg.max || |REOPENING| < cfg.max else 0 < cfg.max
  }

  lemma QuietIsBelowMax(s: State, cfg: Config)
    requires cfg.min <= cfg.max && Quiet(s, cfg)
    ensures |s.buffer| < cfg.max
  {
    if !s.inFence {
      UnfencedChunk(s, cfg);
    }
  }

  /** A chunk that leaves an unfenced buffer makes it shorter, unless the maximum is zero. */
  lemma UnfencedStep(s: State, cfg: Config)
    requires cfg.min <= cfg.max && !s.inFence
    ensures !TryFlush(s, cfg).1.inFence
    ensures 0 < cfg.max && !Quiet(s, cfg) ==> |TryFlush(s, cfg).1.buffer| < |s.buffer|
    ensures 0 == cfg.max ==> !Quiet(s, cfg)
  {
    UnfencedChunk(s, cfg);
    if |s.buffer| >= cfg.min {
      NaturalBreakInBounds(s.buffer, cfg.min, WindowEnd(s.buffer, cfg), 0);
    }
  }

  lemma {:induction false} FlushUnfenced(s: State, cfg: Config) returns (n: nat)
    requires cfg.min <= cfg.max && !s.inFence && 0 < cfg.max
    ensures n <= |s.buffer| && Quiet(Flushed(s, cfg, n), cfg)
    decreases |s.buffer|
  {
    hide TryFlush;
    n := 0;
    if !Quiet(s, cfg) {
      UnfencedStep(s, cfg);
      var m := FlushUnfenced(TryFlush(s, cfg).1, cfg);
      n := m + 1;
    }
  }

  lemma {:induction false} FlushStuck(s: State, cfg: Config, n: nat)
    requires cfg.min <= cfg.max && !ComesToRest(s, cfg)
    ensures !Quiet(Flushed(s, cfg, n), cfg)
    decreases n
  {
    hide TryFlush;
    if s.inFence {
      FencedChunk(s, cfg);
    } else {
      UnfencedStep(s, cfg);
    }
    if n > 0 {
      FlushStuck(TryFlush(s, cfg).1, cfg, n - 1);
    }
  }

  /** Repeated `try_flush` ends exactly under the condition above, within as many calls as the buffer is long. */
  lemma FlushingEnds(s: State, cfg: Config)
    requires cfg.min <= cfg.max
    ensures (exists n: nat :: Quiet(Flushed(s, cfg, n), cfg)) <==> ComesToRest(s, cfg)
    ensures ComesToRest(s, cfg) ==> 
              exists n: nat | n <= |s.buffer| + 1 :: Quiet(Flushed(s, cfg, n), cfg) && |Flushed(s, cfg, n).buffer| < cfg.max
  {
    if !ComesToRest(s, cfg) {
      forall n: nat ensures !Quiet(Flushed(s, cfg, n), cfg) {
        FlushStuck(s, cfg, n);
      }
    } else {
      var n: nat := 0;
      if !s.inFence {
        n := FlushUnfenced(s, cfg);
      } else if |s.buffer| >= cfg.max {
        n := 1;
        assert Flushed(s, cfg, 1) == Flushed(TryFlush(s, cfg).1, cfg, 0) == s.(buffer := REOPENING);
      } else {
        assert Flushed(s, cfg, 0) == s;
      }
      assert Quiet(Flushed(s, cfg, n), cfg);
      QuietIsBelowMax(Flushed(s, cfg, n), cfg);
      assert exists m: nat :: Quiet(Flushed(s, cfg, m), cfg);
    }
  }
}
