// The stream chunker (crates/clawreform-api/src/stream_chunker.rs): a buffer and a fence flag, updated in place.

module StreamChunkerCode {
  import opened Text
  import opened Fences
  import opened ChunkerSpec
  import opened ChunkerRuns

  lemma NoPieces(pieces: seq<string>)
    ensures Concat(pieces[..0]) == "" && CountFences(pieces[..0]) == 0
  {
  }

  lemma OneMorePiece(pieces: seq<string>, i: nat)
    requires i < |pieces|
    ensures Concat(pieces[..i + 1]) == Concat(pieces[..i]) + pieces[i]
    ensures Odd(CountFences(pieces[..i + 1])) == (Odd(CountFences(pieces[..i])) != IsFenceLine(pieces[i]))
  {
    assert pieces[..i + 1] == pieces[..i] + [pieces[i]];
    EmitConcat(pieces[..i], pieces[i]);
    CountFencesAppend(pieces[..i], [pieces[i]]);
    CountFencesOne(pieces[i]);
    OddSum(CountFences(pieces[..i]), FencesIn(pieces[i]));
  }

  class StreamChunker {
    var buffer: string
    var inCodeFence: bool
    var fenceMarker: string
    const minChunkChars: nat
    const maxChunkChars: nat

    /** The calls made so far: with thresholds the right way round the object is where the run of these calls leads. */
    ghost var calls: seq<Op>

    ghost function Cfg(): Config {
      Config(minChunkChars, maxChunkChars)
    }

    ghost function View(): State
      reads this
    {
      State(buffer, inCodeFence, fenceMarker)
    }

    ghost predicate Valid()
      reads this
    {
      && View().Valid()
      && (minChunkChars <= maxChunkChars ==> View() == Exec(calls, Cfg()).state)
    }

    constructor (min: nat, max: nat)
      ensures Valid() && Cfg() == Config(min, max)
      ensures calls == [] && View() == START
    {
      buffer, inCodeFence, fenceMarker := "", false, "";
      minChunkChars, maxChunkChars := min, max;
      calls := [];
    }

    method Push(text: string)
      requires Valid()
      modifies this
      ensures Valid() && calls == old(calls) + [PushText(text)]
      ensures View() == ChunkerSpec.Push(old(View()), text)
    {
      hide SplitInclusive, CountFences, Exec, Concat;
      var pieces := SplitInclusive(text);
      NoPieces(pieces);
      for i := 0 to |pieces|
        invariant View().Valid() && calls == old(calls)
        invariant buffer == old(buffer) + Concat(pieces[..i])
        invariant inCodeFence == (old(inCodeFence) != Odd(CountFences(pieces[..i])))
      {
        PushLine(pieces[i]);
        OneMorePiece(pieces, i);
      }
      assert pieces[..|pieces|] == pieces;
      SplitInclusiveIs(text);
      if minChunkChars <= maxChunkChars {
        ExecAppend(calls, PushText(text), Cfg());
      }
      calls := calls + [PushText(text)];
    }

    /** The loop body of `push`: one line piece. */
    method PushLine(line: string)
      requires View().Valid()
      modifies this`buffer, this`inCodeFence, this`fenceMarker
      ensures View().Valid()
      ensures buffer == old(buffer) + line && inCodeFence == (old(inCodeFence) != IsFenceLine(line))
    {
      buffer := buffer + line;
      var trimmed := Trim(line);
      if "```" <= trimmed {
        if inCodeFence {
          if trimmed == "```" || fenceMarker <= trimmed {
            inCodeFence := false;
            fenceMarker := "";
          }
        } else {
          inCodeFence := true;
          fenceMarker := "```";
        }
      }
    }

    method TryFlush() returns (chunk: Option<string>)
      requires Valid() && !Panics(View(), Cfg())
      modifies this
      ensures Valid() && calls == old(calls) + [FlushChunk]
      ensures CheckedFlush(old(View()), Cfg()) == Returns(chunk, View())
    {
      PanicsIff(View(), Cfg());
      if minChunkChars <= maxChunkChars {
        ExecAppend(calls, FlushChunk, Cfg());
      }
      calls := calls + [FlushChunk];
      chunk := FlushBody();
    }

    method FlushBody() returns (chunk: Option<string>)
      requires View().Valid() && !Panics(View(), Cfg())
      modifies this`buffer
      ensures CheckedFlush(old(View()), Cfg()) == Returns(chunk, View())
      ensures View().Valid()
    {
      hide FindLastInRange, OccursAt, TrimStart, IsWhitespace;
      if |buffer| < minChunkChars {
        return None;
      }
      if inCodeFence && |buffer| < maxChunkChars {
        return None;
      }
      if inCodeFence && |buffer| >= maxChunkChars {
        var taken := buffer + "\n```\n";
        var info := TrimStart(c => c == '`', fenceMarker);
        assert info == "" by { TrimStartIs(c => c == '`', fenceMarker, fenceMarker, ""); }
        buffer := "```" + info + "\n";
        assert buffer == REOPENING;
        return Some(taken);
      }
      var hi := if |buffer| < maxChunkChars then |buffer| else maxChunkChars;
      var pos := FindLastInRange(buffer, "\n\n", minChunkChars, hi);
      if pos.Some? {
        chunk := CutAt(pos.value + 2);
        return;
      }
      pos := FindLastInRange(buffer, "\n", minChunkChars, hi);
      if pos.Some? {
        chunk := CutAt(pos.value + 1);
        return;
      }
      var endings := [". ", "! ", "? "];
      for i := 0 to |endings|
        invariant buffer == old(buffer)
        invariant NaturalBreak(buffer, minChunkChars, hi, 0) == NaturalBreak(buffer, minChunkChars, hi, i + 2)
      {
        assert endings[i] == BREAKS[i + 2];
        pos := FindLastInRange(buffer, endings[i], minChunkChars, hi);
        if pos.Some? {
          chunk := CutAt(pos.value + |endings[i]|);
          return;
        }
      }
      if |buffer| >= maxChunkChars {
        chunk := CutAt(maxChunkChars);
        return;
      }
      return None;
    }

    method CutAt(breakAt: nat) returns (chunk: Option<string>)
      requires breakAt <= |buffer|
      modifies this`buffer
      ensures chunk == Some(old(buffer)[..breakAt]) && buffer == old(buffer)[breakAt..]
    {
      chunk := Some(buffer[..breakAt]);
      buffer := buffer[breakAt..];
    }

    method FlushRemaining() returns (chunk: Option<string>)
      requires Valid()
      modifies this
      ensures Valid() && calls == old(calls) + [FlushRest]
      ensures (chunk, View()) == ChunkerSpec.FlushRemaining(old(View()))
      ensures chunk == (if old(buffer) == "" then None else Some(old(buffer))) && buffer == "" && inCodeFence == old(inCodeFence)
    {
      if minChunkChars <= maxChunkChars {
        ExecAppend(calls, FlushRest, Cfg());
      }
      calls := calls + [FlushRest];
      if buffer == "" {
        chunk := None;
      } else {
        chunk := Some(buffer);
        buffer := "";
      }
    }
  }
}
