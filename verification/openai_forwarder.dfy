// The OpenAI-compatible stream (crates/clawreform-api/src/openai_compat.rs:369-532): agent events become chunks,
// and a client puts tool calls together again by their index.

module OpenAiForwarder {
  import opened Text

  datatype StopReason = EndTurn | ToolUse | MaxTokens | StopSequence

  datatype StreamEvent =
    | TextDelta(text: string)
    | ToolUseStart(id: string, name: string)
    | ToolInputDelta(input: string)
    | ContentComplete(reason: StopReason)
    | Other // ToolUseEnd, ThinkingDelta, PhaseChange, ToolExecutionResult

  /** One message of the response stream. */
  datatype Chunk =
    | Role
    | Content(text: string)
    | CallStart(index: nat, id: string, name: string)
    | CallDelta(index: nat, arguments: string)
    | Finish
    | Done

  // ----- the forwarder -----

  /** The tool index after one event. */
  function NextIndex(index: nat, e: StreamEvent): nat {
    match e
    case ToolUseStart(_, _) => index + 1
    case ContentComplete(ToolUse) => 0
    case _ => index
  }

  /** The chunk for one event, if there is one; a delta goes to the call that started last. */
  function ChunkFor(index: nat, e: StreamEvent): seq<Chunk> {
    match e
    case TextDelta(text) => [Content(text)]
    case ToolUseStart(id, name) => [CallStart(index, id, name)]
    case ToolInputDelta(input) => [CallDelta(if index == 0 then 0 else index - 1, input)]
    case _ => []
  }

  function Forwarded(index: nat, events: seq<StreamEvent>): seq<Chunk>
    decreases |events|
  {
    if events == [] then [] else ChunkFor(index, events[0]) + Forwarded(NextIndex(index, events[0]), events[1..])
  }

  /** What a client that stays receives: the role, the forwarded events, the finish and the end marker. */
  function Response(events: seq<StreamEvent>): seq<Chunk> {
    [Role] + Forwarded(0, events) + [Finish, Done]
  }

  /** The channel to a client that takes `room` more messages and then goes away. */
  class Channel {
    var received: seq<Chunk>
    var room: nat

    constructor (room: nat)
      ensures received == [] && this.room == room
    {
      received, this.room := [], room;
    }

    method Send(chunk: Chunk) returns (ok: bool)
      modifies this
      ensures ok == (old(room) > 0)
      ensures received == old(received) + if ok then [chunk] else []
      ensures room == if ok then old(room) - 1 else 0
    {
      ok := room > 0;
      if ok {
        received := received + [chunk];
        room := room - 1;
      }
    }
  }

  /** The first `n` messages, or all of them when there are fewer. */
  function Prefix(chunks: seq<Chunk>, n: nat): seq<Chunk> {
    if n <= |chunks| then chunks[..n] else chunks
  }

  lemma PrefixNext(sent: seq<Chunk>, chunk: Chunk, n: nat)
    ensures Prefix(sent + [chunk], n) == Prefix(sent, n) + if |sent| < n then [chunk] else []
    ensures Prefix([], n) == []
  {
  }

  lemma PrefixOfMore(sent: seq<Chunk>, more: seq<Chunk>, n: nat)
    requires |sent| >= n
    ensures Prefix(sent + more, n) == Prefix(sent, n)
  {
  }

  lemma ForwardedStep(index: nat, events: seq<StreamEvent>, k: nat)
    requires k < |events|
    ensures Forwarded(index, events[k..]) == ChunkFor(index, events[k]) + Forwarded(NextIndex(index, events[k]), events[k + 1..])
  {
    assert events[k..][1..] == events[k + 1..];
  }

  /** The match of the loop: a chunk, or nothing where the loop continues. */
  method ChunkOf(event: StreamEvent, index: nat) returns (chunk: Option<Chunk>, toolIndex: nat)
    ensures ChunkFor(index, event) == if chunk.Some? then [chunk.value] else []
    ensures toolIndex == NextIndex(index, event)
  {
    toolIndex := index;
    match event {
      case TextDelta(text) => chunk := Some(Content(text));
      case ToolUseStart(id, name) =>
        var idx := toolIndex;
        toolIndex := toolIndex + 1;
        chunk := Some(CallStart(idx, id, name));
      case ToolInputDelta(input) =>
        var idx := if toolIndex == 0 then 0 else toolIndex - 1;
        chunk := Some(CallDelta(idx, input));
      case ContentComplete(reason) =>
        if reason == ToolUse {
          toolIndex := 0;
        }
        chunk := None;
      case Other => chunk := None;
    }
  }

  method StreamResponse(events: seq<StreamEvent>, tx: Channel)
    requires tx.received == []
    modifies tx
    ensures tx.received == Prefix(Response(events), old(tx.room))
  {
    hide Forwarded, Prefix;
    ghost var room := tx.room;
    PrefixNext([], Role, room);
    assert [] + [Role] == [Role];
    var ok := tx.Send(Role);
    ghost var sent := [Role];
    var toolIndex := 0;
    assert events[0..] == events;
    for k := 0 to |events|
      invariant sent + Forwarded(toolIndex, events[k..]) == [Role] + Forwarded(0, events)
      invariant tx.received == Prefix(sent, room) && tx.room == if |sent| <= room then room - |sent| else 0
    {
      var event := events[k];
      ForwardedStep(toolIndex, events, k);
      ghost var rest := Forwarded(NextIndex(toolIndex, event), events[k + 1..]);
      var json;
      json, toolIndex := ChunkOf(event, toolIndex);
      if json.None? {
        assert [] + rest == rest;
        continue;
      }
      var chunk := json.value;
      assert sent + ([chunk] + rest) == sent + [chunk] + rest;
      PrefixNext(sent, chunk, room);
      var delivered := tx.Send(chunk);
      sent := sent + [chunk];
      if !delivered {
        PrefixOfMore(sent, rest + [Finish, Done], room);
        assert sent + (rest + [Finish, Done]) == Response(events);
        ok := tx.Send(Finish);
        ok := tx.Send(Done);
        return;
      }
    }
    NothingForwarded(toolIndex);
    assert events[|events|..] == [] && sent + [] == sent;
    PrefixNext(sent, Finish, room);
    PrefixNext(sent + [Finish], Done, room);
    assert Response(events) == sent + [Finish] + [Done];
    ok := tx.Send(Finish);
    ok := tx.Send(Done);
  }

  lemma NothingForwarded(index: nat)
    ensures Forwarded(index, []) == []
  {
  }

  /** A client that takes everything gets one finish, then the end marker, at the very end. */
  lemma EndsOnce(events: seq<StreamEvent>)
    ensures var r := Response(events); |r| >= 3 && r[0] == Role && r[|r| - 2] == Finish && r[|r| - 1] == Done
    ensures forall i :: 0 <= i < |Response(events)| - 2 ==> !Response(events)[i].Finish? && !Response(events)[i].Done?
  {
    ForwardedKinds(0, events);
    var body := Forwarded(0, events);
    forall i | 0 <= i < |Response(events)| - 2 ensures !Response(events)[i].Finish? && !Response(events)[i].Done? {
      if i > 0 {
        assert Response(events)[i] == body[i - 1] && body[i - 1] in body;
      }
    }
  }

  lemma {:induction false} ForwardedKinds(index: nat, events: seq<StreamEvent>)
    ensures forall c :: c in Forwarded(index, events) ==> c.Content? || c.CallStart? || c.CallDelta?
    decreases |events|
  {
    if events != [] {
      ForwardedKinds(NextIndex(index, events[0]), events[1..]);
    }
  }

  // ----- the text -----

  function TextOfEvents(events: seq<StreamEvent>): string {
    if events == [] then "" else (if events[0].TextDelta? then events[0].text else "") + TextOfEvents(events[1..])
  }

  function TextOfChunks(chunks: seq<Chunk>): string {
    if chunks == [] then "" else (if chunks[0].Content? then chunks[0].text else "") + TextOfChunks(chunks[1..])
  }

  lemma {:induction false} TextOfChunksAppend(a: seq<Chunk>, b: seq<Chunk>)
    ensures TextOfChunks(a + b) == TextOfChunks(a) + TextOfChunks(b)
  {
    if a == [] {
      assert a + b == b;
    } else {
      assert (a + b)[1..] == a[1..] + b;
      TextOfChunksAppend(a[1..], b);
    }
  }

  /** The content deltas of the response spell the agent's text. */
  lemma TextArrives(events: seq<StreamEvent>)
    ensures TextOfChunks(Response(events)) == TextOfEvents(events)
  {
    TextForwarded(0, events);
    TextOfChunksAppend([Role] + Forwarded(0, events), [Finish, Done]);
    TextOfChunksAppend([Role], Forwarded(0, events));
    NoText([Role]);
    NoText([Finish, Done]);
  }

  lemma {:induction false} NoText(chunks: seq<Chunk>)
    requires forall c :: c in chunks ==> !c.Content?
    ensures TextOfChunks(chunks) == ""
  {
    if chunks != [] {
      NoText(chunks[1..]);
    }
  }

  lemma {:induction false} TextForwarded(index: nat, events: seq<StreamEvent>)
    ensures TextOfChunks(Forwarded(index, events)) == TextOfEvents(events)
    decreases |events|
  {
    if events != [] {
      var first := ChunkFor(index, events[0]);
      TextForwarded(NextIndex(index, events[0]), events[1..]);
      TextOfChunksAppend(first, Forwarded(NextIndex(index, events[0]), events[1..]));
      if events[0].TextDelta? {
        assert first[1..] == [];
      } else {
        NoText(first);
      }
    }
  }

  // ----- tool calls: what the agent meant and what a client puts together -----

  datatype Call = Call(id: Option<string>, name: Option<string>, arguments: string)

  function AddTo(c: Call, arguments: string): Call {
    c.(arguments := c.arguments + arguments)
  }

  /** The calls of an iteration in start order, each with all the input that came before the next start. */
  function Tools(events: seq<StreamEvent>): seq<Call> {
    if events == [] then []
    else
      var calls := Tools(events[..|events| - 1]);
      match events[|events| - 1]
      case ToolUseStart(id, name) => calls + [Call(Some(id), Some(name), "")]
      case ToolInputDelta(input) => if calls == [] then [] else calls[..|calls| - 1] + [AddTo(calls[|calls| - 1], input)]
      case _ => calls
  }

  /** A client: a start or a delta goes to the call with its index, which is made when it is new. */
  function Take(calls: seq<Call>, c: Chunk): seq<Call> {
    match c
    case CallStart(index, id, name) =>
      if index < |calls| then calls[index := calls[index].(id := Some(id), name := Some(name))]
      else calls + [Call(Some(id), Some(name), "")]
    case CallDelta(index, arguments) =>
      if index < |calls| then calls[index := AddTo(calls[index], arguments)]
      else calls + [Call(None, None, arguments)]
    case _ => calls
  }

  function Reassemble(chunks: seq<Chunk>): seq<Call> {
    if chunks == [] then [] else Take(Reassemble(chunks[..|chunks| - 1]), chunks[|chunks| - 1])
  }

  /** No tool-use completion: the index is not reset inside. */
  predicate OneIteration(events: seq<StreamEvent>) {
    forall i :: 0 <= i < |events| ==> events[i] != ContentComplete(ToolUse)
  }

  /** Input that came before any call of the iteration had started. */
  function Orphans(events: seq<StreamEvent>): seq<string> {
    if events == [] then []
    else
      var before := events[..|events| - 1];
      var e := events[|events| - 1];
      Orphans(before) + if e.ToolInputDelta? && Tools(before) == [] then [e.input] else []
  }

  function IndexAfter(index: nat, events: seq<StreamEvent>): nat {
    if events == [] then index else NextIndex(IndexAfter(index, events[..|events| - 1]), events[|events| - 1])
  }

  lemma {:induction false} ForwardedNext(index: nat, events: seq<StreamEvent>, e: StreamEvent)
    ensures Forwarded(index, events + [e]) == Forwarded(index, events) + ChunkFor(IndexAfter(index, events), e)
    decreases |events|
  {
    if events == [] {
      assert [e][1..] == [];
      assert [] + [e] == [e];
    } else {
      var next, rest := NextIndex(index, events[0]), events[1..];
      assert (events + [e])[1..] == rest + [e];
      ForwardedNext(next, rest, e);
      IndexAfterHead(index, events);
    }
  }

  lemma {:induction false} IndexAfterHead(index: nat, events: seq<StreamEvent>)
    requires events != []
    ensures IndexAfter(index, events) == IndexAfter(NextIndex(index, events[0]), events[1..])
    decreases |events|
  {
    var n := |events| - 1;
    if n > 0 {
      IndexAfterHead(index, events[..n]);
      assert events[..n][1..] == events[1..][..n - 1];
    }
  }

  /** Within an iteration the start chunks carry 0, 1, 2, ...: the index is the number of calls so far. */
  lemma {:induction false} IndexCountsCalls(events: seq<StreamEvent>)
    requires OneIteration(events)
    ensures IndexAfter(0, events) == |Tools(events)|
  {
    if events != [] {
      IndexCountsCalls(events[..|events| - 1]);
    }
  }

  /** What the client makes of an iteration, with orphan input counted to the first call or to a nameless one. */
  function Received(calls: seq<Call>, orphans: seq<string>): seq<Call> {
    if orphans == [] then calls
    else if calls == [] then [Call(None, None, Concat(orphans))]
    else [calls[0].(arguments := Concat(orphans) + calls[0].arguments)] + calls[1..]
  }

  lemma {:induction false} Reassembled(events: seq<StreamEvent>)
    requires OneIteration(events)
    ensures Reassemble(Forwarded(0, events)) == Received(Tools(events), Orphans(events))
  {
    if events != [] {
      var n := |events| - 1;
      var before, e := events[..n], events[n];
      assert events == before + [e];
      Reassembled(before);
      ForwardedNext(0, before, e);
      IndexCountsCalls(before);
      var index := |Tools(before)|;
      var chunks := Forwarded(0, before);
      if ChunkFor(index, e) == [] {
        assert chunks + [] == chunks && Orphans(before) + [] == Orphans(before);
      } else {
        var c := ChunkFor(index, e)[0];
        assert (chunks + [c])[..|chunks|] == chunks;
        TakeNext(before, e, c);
      }
    }
  }

  lemma TakeNext(before: seq<StreamEvent>, e: StreamEvent, c: Chunk)
    requires ChunkFor(|Tools(before)|, e) == [c]
    ensures Take(Received(Tools(before), Orphans(before)), c) == Received(Tools(before + [e]), Orphans(before + [e]))
  {
    hide Tools, Orphans, Concat;
    ToolsNext(before, e);
    var calls, orphans := Tools(before), Orphans(before);
    match e
    case TextDelta(_) =>
    case ToolUseStart(id, name) =>
      if orphans != [] && calls == [] {
        assert Concat(orphans) + "" == Concat(orphans);
      }
    case ToolInputDelta(input) =>
      if calls == [] {
        ConcatAppend(orphans, [input]);
        ConcatOne(input);
        assert [] + [input] == [input];
      } else if orphans != [] && |calls| == 1 {
        Assoc(Concat(orphans), calls[0].arguments, input);
      }
  }

  lemma ToolsNext(before: seq<StreamEvent>, e: StreamEvent)
    ensures var calls := Tools(before);
            Tools(before + [e]) ==
            if e.ToolUseStart? then calls + [Call(Some(e.id), Some(e.name), "")]
            else if e.ToolInputDelta? && calls != [] then calls[..|calls| - 1] + [AddTo(calls[|calls| - 1], e.input)]
            else calls
    ensures Orphans(before + [e]) ==
            if e.ToolInputDelta? && Tools(before) == [] then Orphans(before) + [e.input] else Orphans(before)
  {
    assert (before + [e])[..|before|] == before;
    assert Orphans(before) + [] == Orphans(before);
  }

  /**
   * The client recovers each call's id, name and whole input, in start order, exactly when no input came before
   * the first start, or only empty input and then a start.
   */
  lemma {:induction false} RoundTrip(events: seq<StreamEvent>)
    requires OneIteration(events)
    ensures Reassemble(Forwarded(0, events)) == Tools(events)
       <==> Orphans(events) == [] || (Concat(Orphans(events)) == "" && Tools(events) != [])
  {
    Reassembled(events);
    var calls, orphans := Tools(events), Orphans(events);
    if orphans != [] && calls != [] {
      var got := Received(calls, orphans);
      assert got[0].arguments == Concat(orphans) + calls[0].arguments;
      if Concat(orphans) == "" {
        assert "" + calls[0].arguments == calls[0].arguments;
        assert got == calls;
      } else {
        assert |got[0].arguments| > |calls[0].arguments|;
      }
    }
  }

  // ----- whole runs: one iteration after the other -----

  /** The events cut after every tool-use completion. */
  function Iterations(events: seq<StreamEvent>): (its: seq<seq<StreamEvent>>)
    ensures its != []
  {
    if events == [] then [[]]
    else if events[0] == ContentComplete(ToolUse) then [[]] + Iterations(events[1..])
    else [[events[0]] + Iterations(events[1..])[0]] + Iterations(events[1..])[1..]
  }

  function ForwardedAll(its: seq<seq<StreamEvent>>): seq<Chunk> {
    if its == [] then [] else Forwarded(0, its[0]) + ForwardedAll(its[1..])
  }

  /** The response body is the bodies of the iterations, each numbered from zero. */
  lemma {:induction false} IterationByIteration(index: nat, events: seq<StreamEvent>)
    ensures var its := Iterations(events); Forwarded(index, events) == Forwarded(index, its[0]) + ForwardedAll(its[1..])
    ensures forall i :: 0 <= i < |Iterations(events)| ==> OneIteration(Iterations(events)[i])
    decreases |events|
  {
    if events != [] {
      var e, rest := events[0], events[1..];
      var its := Iterations(rest);
      IterationByIteration(NextIndex(index, e), rest);
      if e == ContentComplete(ToolUse) {
        assert Iterations(events)[1..] == its && Iterations(events)[0] == [];
        assert [] + Forwarded(0, rest) == Forwarded(0, rest);
      } else {
        var first := [e] + its[0];
        assert Iterations(events)[0] == first && Iterations(events)[1..] == its[1..];
        assert first[1..] == its[0];
        var c, f := ChunkFor(index, e), Forwarded(NextIndex(index, e), its[0]);
        assert c + (f + ForwardedAll(its[1..])) == c + f + ForwardedAll(its[1..]);
      }
    }
  }

  /** So a client that starts afresh for every iteration recovers the calls of all iterations without orphan input. */
  lemma {:induction false} WholeRun(events: seq<StreamEvent>)
    ensures Response(events) == [Role] + ForwardedAll(Iterations(events)) + [Finish, Done]
    ensures forall i :: 0 <= i < |Iterations(events)| && Orphans(Iterations(events)[i]) == [] ==>
              Reassemble(Forwarded(0, Iterations(events)[i])) == Tools(Iterations(events)[i])
  {
    IterationByIteration(0, events);
    var its := Iterations(events);
    forall i | 0 <= i < |its| && Orphans(its[i]) == [] ensures Reassemble(Forwarded(0, its[i])) == Tools(its[i]) {
      RoundTrip(its[i]);
    }
  }
}
