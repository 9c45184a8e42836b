// What a client can make of a whole response of the OpenAI-compatible stream: the chunks carry indices but no sign
// of where an LLM iteration ends (crates/clawreform-api/src/openai_compat.rs:433-510).

module OpenAiClient {
  import opened Text
  import opened OpenAiForwarder

  // ----- what the agent meant -----

  /** The calls of all iterations, one iteration after the other. */
  function Meant(events: seq<StreamEvent>): seq<Call> {
    AllTools(Iterations(events))
  }

  function AllTools(its: seq<seq<StreamEvent>>): seq<Call> {
    if its == [] then [] else AllTools(its[..|its| - 1]) + Tools(its[|its| - 1])
  }

  lemma AllToolsNext(its: seq<seq<StreamEvent>>, it: seq<StreamEvent>)
    ensures AllTools(its + [it]) == AllTools(its) + Tools(it)
  {
    assert (its + [it])[..|its|] == its;
  }

  /** An event at the end goes to the last iteration, or opens a new one. */
  function AddLast(its: seq<seq<StreamEvent>>, e: StreamEvent): seq<seq<StreamEvent>>
    requires its != []
  {
    if e == ContentComplete(ToolUse) then its + [[]] else its[..|its| - 1] + [its[|its| - 1] + [e]]
  }

  function AddFirst(e: StreamEvent, its: seq<seq<StreamEvent>>): seq<seq<StreamEvent>>
    requires its != []
  {
    if e == ContentComplete(ToolUse) then [[]] + its else [[e] + its[0]] + its[1..]
  }

  lemma {:induction false} IterationsNext(events: seq<StreamEvent>, e: StreamEvent)
    ensures Iterations(events + [e]) == AddLast(Iterations(events), e)
  {
    if events == [] {
      IterationsOfOne(e);
      assert [] + [e] == [e];
    } else {
      hide Iterations, AddFirst, AddLast;
      assert (events + [e])[1..] == events[1..] + [e];
      IterationsNext(events[1..], e);
      IterationsHead(events);
      IterationsHead(events + [e]);
      FirstThenLast(events[0], Iterations(events[1..]), e);
    }
  }

  lemma FirstThenLast(first: StreamEvent, its: seq<seq<StreamEvent>>, e: StreamEvent)
    requires its != []
    ensures AddFirst(first, its) != [] && AddLast(its, e) != []
    ensures AddFirst(first, AddLast(its, e)) == AddLast(AddFirst(first, its), e)
  {
    var n := |its| - 1;
    if e == ContentComplete(ToolUse) {
      if first != ContentComplete(ToolUse) {
        assert (its + [[]])[1..] == its[1..] + [[]];
      }
    } else if first == ContentComplete(ToolUse) {
      assert ([[]] + its)[..n + 1] == [[]] + its[..n];
    } else {
      FirstThenLastInside(first, its, e);
    }
  }

  lemma FirstThenLastInside(first: StreamEvent, its: seq<seq<StreamEvent>>, e: StreamEvent)
    requires its != [] && first != ContentComplete(ToolUse) && e != ContentComplete(ToolUse)
    ensures AddFirst(first, AddLast(its, e)) == AddLast(AddFirst(first, its), e)
  {
    var n := |its| - 1;
    if n == 0 {
      assert [first] + (its[0] + [e]) == [first] + its[0] + [e];
      assert its[1..] == [] && its[..0] == [];
    } else {
      var more := its[..n] + [its[n] + [e]];
      assert more[1..] == its[1..n] + [its[n] + [e]];
      assert AddFirst(first, its)[..n] == [[first] + its[0]] + its[1..n];
    }
  }

  lemma IterationsHead(events: seq<StreamEvent>)
    requires events != []
    ensures Iterations(events) == AddFirst(events[0], Iterations(events[1..]))
  {
  }

  lemma IterationsOfOne(e: StreamEvent)
    ensures Iterations([]) == [[]] && Iterations([e]) == if e == ContentComplete(ToolUse) then [[], []] else [[e]]
  {
    assert [e][1..] == [] && [e] + [] == [e];
  }

  /** The index counts the calls of the iteration that is under way. */
  lemma {:induction false} IndexIsOfLast(events: seq<StreamEvent>)
    ensures var its := Iterations(events); IndexAfter(0, events) == |Tools(its[|its| - 1])|
  {
    if events == [] {
    } else {
      hide IndexAfter, Iterations;
      var before, e := events[..|events| - 1], events[|events| - 1];
      assert events == before + [e];
      IndexIsOfLast(before);
      IndexNext(before, e);
      IterationsNext(before, e);
      var its := Iterations(before);
      ToolsNext(its[|its| - 1], e);
    }
  }

  lemma IndexNext(events: seq<StreamEvent>, e: StreamEvent)
    ensures IndexAfter(0, events + [e]) == NextIndex(IndexAfter(0, events), e)
  {
    assert (events + [e])[..|events|] == events;
  }

  /**
   * One event more is one chunk more or none: text as it is, a start with the number of calls of its iteration so far,
   * input with the number of the last of them or zero; everything else sends nothing.
   */
  lemma OneChunkAnEvent(events: seq<StreamEvent>, e: StreamEvent)
    ensures var its := Iterations(events);
            var calls := |Tools(its[|its| - 1])|;
            Forwarded(0, events + [e]) == Forwarded(0, events) +
              if e.TextDelta? then [Content(e.text)]
              else if e.ToolUseStart? then [CallStart(calls, e.id, e.name)]
              else if e.ToolInputDelta? then [CallDelta(if calls > 0 then calls - 1 else 0, e.input)]
              else []
    ensures Forwarded(0, []) == [] && Response(events) == [Role] + Forwarded(0, events) + [Finish, Done]
  {
    hide Forwarded, Iterations, Tools, IndexAfter;
    IndexIsOfLast(events);
    ForwardedNext(0, events, e);
    NothingForwarded(0);
  }

  /** One event more; input that comes before any call of its iteration belongs to none. */
  function MeantNext(calls: seq<Call>, index: nat, e: StreamEvent): seq<Call> {
    match e
    case ToolUseStart(id, name) => calls + [Call(Some(id), Some(name), "")]
    case ToolInputDelta(input) =>
      if index == 0 || calls == [] then calls else calls[..|calls| - 1] + [AddTo(calls[|calls| - 1], input)]
    case _ => calls
  }

  lemma MeantAppend(events: seq<StreamEvent>, e: StreamEvent)
    ensures Meant(events + [e]) == MeantNext(Meant(events), IndexAfter(0, events), e)
    ensures IndexAfter(0, events + [e]) == NextIndex(IndexAfter(0, events), e)
  {
    hide AllTools, Tools, Iterations, IndexAfter;
    IndexNext(events, e);
    IterationsNext(events, e);
    IndexIsOfLast(events);
    var its := Iterations(events);
    var front, last := its[..|its| - 1], its[|its| - 1];
    assert its == front + [last];
    AllToolsNext(front, last);
    if e == ContentComplete(ToolUse) {
      AllToolsNext(its, []);
      NoTools();
      assert AllTools(its) + [] == AllTools(its);
    } else {
      AllToolsNext(front, last + [e]);
      ToolsNext(last, e);
      var n := |Tools(last)|;
      if e.ToolUseStart? {
        var call := Call(Some(e.id), Some(e.name), "");
        assert AllTools(front) + (Tools(last) + [call]) == AllTools(front) + Tools(last) + [call];
      } else if e.ToolInputDelta? && n > 0 {
        var all := AllTools(front) + Tools(last);
        assert all[|all| - 1] == Tools(last)[n - 1];
        assert AllTools(front) + (Tools(last)[..n - 1] + [AddTo(Tools(last)[n - 1], e.input)]) ==
               all[..|all| - 1] + [AddTo(all[|all| - 1], e.input)];
      }
    }
  }

  lemma NoTools()
    ensures Tools([]) == [] && Meant([]) == []
  {
  }

  function Starts(events: seq<StreamEvent>): nat {
    if events == [] then 0 else Starts(events[..|events| - 1]) + if events[|events| - 1].ToolUseStart? then 1 else 0
  }

  /** Iterations in which a call starts. */
  function CallingIterations(events: seq<StreamEvent>): nat {
    if events == [] then 0
    else
      var before := events[..|events| - 1];
      CallingIterations(before) + if events[|events| - 1].ToolUseStart? && IndexAfter(0, before) == 0 then 1 else 0
  }

  /** The characters of orphan input. */
  function OrphanLength(events: seq<StreamEvent>): nat {
    if events == [] then 0
    else
      var before, e := events[..|events| - 1], events[|events| - 1];
      OrphanLength(before) + if e.ToolInputDelta? && IndexAfter(0, before) == 0 then |e.input| else 0
  }

  /** Pieces of orphan input before any call of the run. */
  function LeadingOrphans(events: seq<StreamEvent>): nat {
    if events == [] then 0
    else
      var before, e := events[..|events| - 1], events[|events| - 1];
      LeadingOrphans(before) + if e.ToolInputDelta? && Starts(before) == 0 then 1 else 0
  }

  lemma CountsNext(before: seq<StreamEvent>, e: StreamEvent)
    ensures Starts(before + [e]) == Starts(before) + if e.ToolUseStart? then 1 else 0
    ensures CallingIterations(before + [e]) ==
            CallingIterations(before) + if e.ToolUseStart? && IndexAfter(0, before) == 0 then 1 else 0
    ensures OrphanLength(before + [e]) ==
            OrphanLength(before) + if e.ToolInputDelta? && IndexAfter(0, before) == 0 then |e.input| else 0
    ensures LeadingOrphans(before + [e]) ==
            LeadingOrphans(before) + if e.ToolInputDelta? && Starts(before) == 0 then 1 else 0
  {
    assert (before + [e])[..|before|] == before;
  }

  function Inputs(calls: seq<Call>): nat {
    if calls == [] then 0 else |calls[0].arguments| + Inputs(calls[1..])
  }

  lemma {:induction false} InputsAppend(a: seq<Call>, b: seq<Call>)
    ensures Inputs(a + b) == Inputs(a) + Inputs(b)
  {
    if a == [] {
      assert a + b == b;
    } else {
      assert (a + b)[1..] == a[1..] + b;
      InputsAppend(a[1..], b);
    }
  }

  lemma InputsOne(c: Call)
    ensures Inputs([c]) == |c.arguments|
  {
    assert [c][1..] == [];
  }

  lemma InputsUpdate(calls: seq<Call>, i: nat, c: Call)
    requires i < |calls|
    ensures Inputs(calls[i := c]) == Inputs(calls) - |calls[i].arguments| + |c.arguments|
    ensures Inputs(calls) >= |calls[i].arguments|
  {
    assert calls == calls[..i] + ([calls[i]] + calls[i + 1..]);
    assert calls[i := c] == calls[..i] + ([c] + calls[i + 1..]);
    InputsAppend(calls[..i], [calls[i]] + calls[i + 1..]);
    InputsAppend(calls[..i], [c] + calls[i + 1..]);
    InputsAppend([calls[i]], calls[i + 1..]);
    InputsAppend([c], calls[i + 1..]);
    InputsOne(calls[i]);
    InputsOne(c);
  }

  /** Every start is a call, the index never exceeds them, and it is their number while one iteration starts calls. */
  lemma {:induction false} MeantCounts(events: seq<StreamEvent>)
    ensures |Meant(events)| == Starts(events) && IndexAfter(0, events) <= Starts(events)
    ensures CallingIterations(events) > 0 <==> Starts(events) > 0
    ensures CallingIterations(events) <= 1 && IndexAfter(0, events) > 0 ==> IndexAfter(0, events) == Starts(events)
  {
    if events == [] {
      NoTools();
    } else {
      hide Meant, Starts, IndexAfter, CallingIterations;
      var before, e := events[..|events| - 1], events[|events| - 1];
      MeantCounts(before);
      assert events == before + [e];
      MeantAppend(before, e);
      CountsNext(before, e);
    }
  }

  // ----- a client that goes by the index alone -----

  lemma ReassembleNext(chunks: seq<Chunk>, c: Chunk)
    ensures Reassemble(chunks + [c]) == Take(Reassemble(chunks), c)
  {
    assert (chunks + [c])[..|chunks|] == chunks;
  }

  /** The role, the finish and the end marker do not matter to it. */
  lemma {:induction false} ReassembleBody(body: seq<Chunk>)
    ensures Reassemble([Role] + body) == Reassemble(body)
  {
    if body == [] {
      assert [Role] + [] == [] + [Role];
      ReassembleNext([], Role);
    } else {
      var n := |body| - 1;
      ReassembleBody(body[..n]);
      assert [Role] + body == ([Role] + body[..n]) + [body[n]] && body == body[..n] + [body[n]];
      ReassembleNext([Role] + body[..n], body[n]);
      ReassembleNext(body[..n], body[n]);
    }
  }

  lemma ReassembleResponse(events: seq<StreamEvent>)
    ensures Reassemble(Response(events)) == Reassemble(Forwarded(0, events))
  {
    var body := [Role] + Forwarded(0, events);
    ReassembleBody(Forwarded(0, events));
    assert Response(events) == (body + [Finish]) + [Done];
    ReassembleNext(body, Finish);
    ReassembleNext(body + [Finish], Done);
  }

  function TakenNext(got: seq<Call>, index: nat, e: StreamEvent): seq<Call> {
    if ChunkFor(index, e) == [] then got else Take(got, ChunkFor(index, e)[0])
  }

  /** One event more. */
  lemma ReassembleEvent(events: seq<StreamEvent>, e: StreamEvent)
    ensures var index, got := IndexAfter(0, events), Reassemble(Forwarded(0, events));
            Reassemble(Forwarded(0, events + [e])) == TakenNext(got, index, e)
  {
    hide Forwarded, IndexAfter, Reassemble;
    ForwardedNext(0, events, e);
    var chunks, index := Forwarded(0, events), IndexAfter(0, events);
    if ChunkFor(index, e) == [] {
      assert chunks + [] == chunks;
    } else {
      ReassembleNext(chunks, ChunkFor(index, e)[0]);
      assert ChunkFor(index, e) == [ChunkFor(index, e)[0]];
    }
  }

  lemma NothingSent()
    ensures Reassemble(Forwarded(0, [])) == [] && Inputs([]) == 0
  {
  }

  /** Nothing that is sent gets lost, but the calls of later iterations are merged into earlier ones. */
  lemma {:induction false} IndexClientCounts(events: seq<StreamEvent>)
    ensures var got := Reassemble(Forwarded(0, events));
            && Inputs(got) == Inputs(Meant(events)) + OrphanLength(events)
            && IndexAfter(0, events) <= |got|
            && (Starts(events) == 0 ==> |got| == if LeadingOrphans(events) > 0 then 1 else 0)
            && (Starts(events) > 0 ==> 0 < |got| && |got| + CallingIterations(events) <= Starts(events) + 1)
  {
    if events == [] {
      NothingSent();
      NoTools();
    } else {
      hide Forwarded, Reassemble, Inputs, Meant, IndexAfter, Starts, CallingIterations, OrphanLength, LeadingOrphans;
      hide TakenNext, MeantNext;
      var before, e := events[..|events| - 1], events[|events| - 1];
      assert events == before + [e];
      IndexClientCounts(before);
      MeantCounts(before);
      MeantAppend(before, e);
      ReassembleEvent(before, e);
      CountsNext(before, e);
      IndexClientInputs(Reassemble(Forwarded(0, before)), Meant(before), IndexAfter(0, before), e);
    }
  }

  /** One chunk adds its input both to what was received and, unless it is an orphan, to what was meant. */
  lemma {:induction false} IndexClientInputs(got: seq<Call>, calls: seq<Call>, index: nat, e: StreamEvent)
    requires index <= |got| && index <= |calls|
    ensures Inputs(TakenNext(got, index, e)) - Inputs(got) ==
            Inputs(MeantNext(calls, index, e)) - Inputs(calls) + if e.ToolInputDelta? && index == 0 then |e.input| else 0
    ensures |TakenNext(got, index, e)| ==
            |got| + if (e.ToolUseStart? && index == |got|) || (e.ToolInputDelta? && got == []) then 1 else 0
  {
    hide Inputs;
    match e
    case ToolUseStart(id, name) =>
      InputsAppend(calls, [Call(Some(id), Some(name), "")]);
      InputsOne(Call(Some(id), Some(name), ""));
      if index < |got| {
        InputsUpdate(got, index, got[index].(id := Some(id), name := Some(name)));
      } else {
        InputsAppend(got, [Call(Some(id), Some(name), "")]);
      }
    case ToolInputDelta(input) =>
      var at := if index == 0 then 0 else index - 1;
      if at < |got| {
        InputsUpdate(got, at, AddTo(got[at], input));
      } else {
        InputsAppend(got, [Call(None, None, input)]);
        InputsOne(Call(None, None, input));
      }
      MeantInputs(calls, index, input);
    case _ =>
  }

  lemma {:induction false} MeantInputs(calls: seq<Call>, index: nat, input: string)
    requires index <= |calls|
    ensures Inputs(MeantNext(calls, index, ToolInputDelta(input))) == Inputs(calls) + if index == 0 then 0 else |input|
  {
    hide Inputs;
    if index > 0 {
      var n := |calls| - 1;
      InputsUpdate(calls, n, AddTo(calls[n], input));
      assert calls[n := AddTo(calls[n], input)] == calls[..n] + [AddTo(calls[n], input)];
    }
  }

  /** As long as one iteration starts calls and orphan input is empty, the client is right. */
  lemma {:induction false} IndexClientRecovers(events: seq<StreamEvent>)
    requires CallingIterations(events) <= 1 && OrphanLength(events) == 0
    ensures Reassemble(Forwarded(0, events)) ==
            if Starts(events) == 0 && LeadingOrphans(events) > 0 then [Call(None, None, "")] else Meant(events)
  {
    if events == [] {
      NothingSent();
      NoTools();
    } else {
      hide Forwarded, Reassemble, Meant, IndexAfter, Starts, CallingIterations, OrphanLength, LeadingOrphans;
      hide TakenNext, MeantNext;
      var before, e := events[..|events| - 1], events[|events| - 1];
      assert events == before + [e];
      CountsNext(before, e);
      IndexClientRecovers(before);
      MeantCounts(before);
      MeantAppend(before, e);
      ReassembleEvent(before, e);
      var got, index := Reassemble(Forwarded(0, before)), IndexAfter(0, before);
      if Starts(before) == 0 {
        TakeFirst(got, index, e);
      } else {
        TakeIsMeant(got, index, e);
      }
    }
  }

  /** Before the first start: empty input makes a nameless call, which the first start takes over. */
  lemma TakeFirst(got: seq<Call>, index: nat, e: StreamEvent)
    requires got == [] || got == [Call(None, None, "")]
    requires index == 0 && (e.ToolInputDelta? ==> e.input == "")
    ensures TakenNext(got, index, e) ==
            if e.ToolInputDelta? then [Call(None, None, "")]
            else if e.ToolUseStart? then [Call(Some(e.id), Some(e.name), "")]
            else got
    ensures MeantNext([], index, e) == if e.ToolUseStart? then [Call(Some(e.id), Some(e.name), "")] else []
  {
    assert "" + "" == "";
  }

  lemma TakeIsMeant(calls: seq<Call>, index: nat, e: StreamEvent)
    requires calls != [] && (index == 0 || index == |calls|)
    requires index == 0 && e.ToolInputDelta? ==> e.input == ""
    requires index == 0 ==> !e.ToolUseStart?
    ensures TakenNext(calls, index, e) == MeantNext(calls, index, e)
  {
    if e.ToolInputDelta? && index == 0 {
      AddNothing(calls);
    }
  }

  lemma AddNothing(calls: seq<Call>)
    ensures forall i :: 0 <= i < |calls| ==> calls[i := AddTo(calls[i], "")] == calls
  {
    forall i | 0 <= i < |calls| ensures calls[i := AddTo(calls[i], "")] == calls {
      assert calls[i].arguments + "" == calls[i].arguments;
    }
  }

  /**
   * Going by the index alone, a client recovers the calls of the whole response exactly when calls start in one
   * iteration at most, orphan input is empty, and there is none at all unless a call starts.
   */
  lemma IndexClientIff(events: seq<StreamEvent>)
    ensures Reassemble(Response(events)) == Meant(events)
       <==> CallingIterations(events) <= 1 && OrphanLength(events) == 0 && (LeadingOrphans(events) == 0 || Starts(events) > 0)
  {
    hide Forwarded, Reassemble, Meant, Inputs, Response;
    ReassembleResponse(events);
    IndexClientCounts(events);
    MeantCounts(events);
    if CallingIterations(events) <= 1 && OrphanLength(events) == 0 {
      IndexClientRecovers(events);
    }
  }

  /** A run of two iterations, each with one call. */
  function TwoIterations(first: Call, second: Call): seq<StreamEvent>
    requires first.id.Some? && first.name.Some? && second.id.Some? && second.name.Some?
  {
    [ToolUseStart(first.id.value, first.name.value), ToolInputDelta(first.arguments), ContentComplete(ToolUse),
     ToolUseStart(second.id.value, second.name.value), ToolInputDelta(second.arguments), ContentComplete(EndTurn)]
  }

  /** In a run of two calls the second takes the place of the first, whose input it extends. */
  lemma SecondIterationOverwrites(first: Call, second: Call)
    requires first.id.Some? && first.name.Some? && second.id.Some? && second.name.Some?
    ensures Meant(TwoIterations(first, second)) == [first, second]
    ensures Reassemble(Response(TwoIterations(first, second))) == [second.(arguments := first.arguments + second.arguments)]
  {
    hide Forwarded, Reassemble, Meant, Response, IndexAfter;
    var es := TwoIterations(first, second);
    FirstTaken(first, second);
    EventsTaken(es, 3);
    EventsTaken(es, 4);
    EventsTaken(es, 5);
    assert es[..6] == es;
    assert "" + second.arguments == second.arguments;
    ReassembleResponse(es);
  }

  lemma FirstTaken(first: Call, second: Call)
    requires first.id.Some? && first.name.Some? && second.id.Some? && second.name.Some?
    ensures var es := TwoIterations(first, second);
            IndexAfter(0, es[..3]) == 0 && Meant(es[..3]) == [first] && Reassemble(Forwarded(0, es[..3])) == [first]
  {
    hide Forwarded, Reassemble, Meant, IndexAfter;
    var es := TwoIterations(first, second);
    NothingSent();
    NoTools();
    NoIndex();
    assert es[..0] == [];
    EventsTaken(es, 0);
    EventsTaken(es, 1);
    EventsTaken(es, 2);
    assert "" + first.arguments == first.arguments;
  }

  lemma EventsTaken(es: seq<StreamEvent>, k: nat)
    requires k < |es|
    ensures IndexAfter(0, es[..k + 1]) == NextIndex(IndexAfter(0, es[..k]), es[k])
    ensures Meant(es[..k + 1]) == MeantNext(Meant(es[..k]), IndexAfter(0, es[..k]), es[k])
    ensures var index, got := IndexAfter(0, es[..k]), Reassemble(Forwarded(0, es[..k]));
            Reassemble(Forwarded(0, es[..k + 1])) == TakenNext(got, index, es[k])
  {
    hide Forwarded, Reassemble, Meant, IndexAfter;
    assert es[..k + 1] == es[..k] + [es[k]];
    MeantAppend(es[..k], es[k]);
    ReassembleEvent(es[..k], es[k]);
  }

  lemma NoIndex()
    ensures IndexAfter(0, []) == 0
  {
  }

  // ----- a client that starts a group at every index zero -----

  /** A start with index zero opens a new group; everything else goes by its index within the last group. */
  function TakeInGroups(groups: seq<seq<Call>>, c: Chunk): seq<seq<Call>> {
    match c
    case CallStart(index, id, name) =>
      if index == 0 then groups + [[Call(Some(id), Some(name), "")]] else IntoLast(groups, c)
    case CallDelta(_, _) => IntoLast(groups, c)
    case _ => groups
  }

  function IntoLast(groups: seq<seq<Call>>, c: Chunk): seq<seq<Call>> {
    if groups == [] then [Take([], c)]
    else groups[..|groups| - 1] + [Take(groups[|groups| - 1], c)]
  }

  function Group(chunks: seq<Chunk>): seq<seq<Call>> {
    if chunks == [] then [] else TakeInGroups(Group(chunks[..|chunks| - 1]), chunks[|chunks| - 1])
  }

  /** The calls of all groups in order. */
  function Flat(groups: seq<seq<Call>>): seq<Call> {
    if groups == [] then [] else Flat(groups[..|groups| - 1]) + groups[|groups| - 1]
  }

  lemma FlatNext(groups: seq<seq<Call>>, g: seq<Call>)
    ensures Flat(groups + [g]) == Flat(groups) + g
  {
    assert (groups + [g])[..|groups|] == groups;
  }

  lemma GroupNext(chunks: seq<Chunk>, c: Chunk)
    ensures Group(chunks + [c]) == TakeInGroups(Group(chunks), c)
  {
    assert (chunks + [c])[..|chunks|] == chunks;
  }

  lemma {:induction false} GroupBody(body: seq<Chunk>)
    ensures Group([Role] + body) == Group(body)
  {
    if body == [] {
      assert [Role] + [] == [] + [Role];
      GroupNext([], Role);
    } else {
      var n := |body| - 1;
      GroupBody(body[..n]);
      assert [Role] + body == ([Role] + body[..n]) + [body[n]] && body == body[..n] + [body[n]];
      GroupNext([Role] + body[..n], body[n]);
      GroupNext(body[..n], body[n]);
    }
  }

  lemma GroupResponse(events: seq<StreamEvent>)
    ensures Group(Response(events)) == Group(Forwarded(0, events))
  {
    var body := [Role] + Forwarded(0, events);
    GroupBody(Forwarded(0, events));
    assert Response(events) == (body + [Finish]) + [Done];
    GroupNext(body, Finish);
    GroupNext(body + [Finish], Done);
  }

  lemma GroupEvent(events: seq<StreamEvent>, e: StreamEvent)
    ensures var index, got := IndexAfter(0, events), Group(Forwarded(0, events));
            Group(Forwarded(0, events + [e])) == GroupsNext(got, index, e)
  {
    hide Forwarded, IndexAfter, Group;
    ForwardedNext(0, events, e);
    var chunks, index := Forwarded(0, events), IndexAfter(0, events);
    if ChunkFor(index, e) == [] {
      assert chunks + [] == chunks;
    } else {
      GroupNext(chunks, ChunkFor(index, e)[0]);
      assert ChunkFor(index, e) == [ChunkFor(index, e)[0]];
    }
  }

  /** No group is empty, and while calls start the last group has as many as the index says. */
  ghost predicate InStep(groups: seq<seq<Call>>, index: nat) {
    && (forall i :: 0 <= i < |groups| ==> groups[i] != [])
    && (index > 0 ==> groups != [] && |groups[|groups| - 1]| == index)
  }

  function GroupsNext(groups: seq<seq<Call>>, index: nat, e: StreamEvent): seq<seq<Call>> {
    if ChunkFor(index, e) == [] then groups else TakeInGroups(groups, ChunkFor(index, e)[0])
  }

  /** A start adds a call at the very end, whichever group it goes to. */
  lemma FlatStart(groups: seq<seq<Call>>, index: nat, id: string, name: string)
    requires InStep(groups, index)
    ensures Flat(GroupsNext(groups, index, ToolUseStart(id, name))) == Flat(groups) + [Call(Some(id), Some(name), "")]
  {
    hide Flat;
    var call := Call(Some(id), Some(name), "");
    if index == 0 {
      FlatNext(groups, [call]);
    } else {
      var front, last := groups[..|groups| - 1], groups[|groups| - 1];
      assert groups == front + [last];
      FlatNext(front, last);
      FlatNext(front, last + [call]);
      assert Flat(front) + (last + [call]) == Flat(front) + last + [call];
    }
  }

  /** Input goes to the call that started last in the iteration, and else to the first call of the last group. */
  lemma {:induction false} FlatDelta(groups: seq<seq<Call>>, index: nat, input: string)
    requires InStep(groups, index)
    ensures var next := Flat(GroupsNext(groups, index, ToolInputDelta(input)));
            if groups == [] then next == [Call(None, None, input)]
            else
              var at := |Flat(groups)| - |groups[|groups| - 1]| + (if index == 0 then 0 else index - 1);
              && 0 <= at < |Flat(groups)|
              && (index > 0 ==> at == |Flat(groups)| - 1)
              && next == Flat(groups)[at := AddTo(Flat(groups)[at], input)]
  {
    hide Flat;
    if groups == [] {
      FlatNothing();
      FlatNext([], [Call(None, None, input)]);
      assert [] + [[Call(None, None, input)]] == [[Call(None, None, input)]];
      assert [] + [Call(None, None, input)] == [Call(None, None, input)];
    } else {
      var front, last := groups[..|groups| - 1], groups[|groups| - 1];
      assert groups == front + [last];
      FlatNext(front, last);
      var i := if index == 0 then 0 else index - 1;
      FlatNext(front, last[i := AddTo(last[i], input)]);
      UpdateBehind(Flat(front), last, i, AddTo(last[i], input));
    }
  }

  lemma UpdateBehind(a: seq<Call>, b: seq<Call>, i: nat, c: Call)
    requires i < |b|
    ensures (a + b)[|a| + i] == b[i] && (a + b)[|a| + i := c] == a + b[i := c]
  {
  }

  lemma FlatNothing()
    ensures Flat([]) == []
  {
  }

  lemma StaysInStep(groups: seq<seq<Call>>, index: nat, e: StreamEvent)
    requires InStep(groups, index)
    ensures InStep(GroupsNext(groups, index, e), NextIndex(index, e))
  {
  }

  lemma {:induction false} GroupsInStep(events: seq<StreamEvent>)
    ensures InStep(Group(Forwarded(0, events)), IndexAfter(0, events))
  {
    hide Forwarded, Group, InStep;
    if events == [] {
      NothingGrouped();
    } else {
      var before, e := events[..|events| - 1], events[|events| - 1];
      assert events == before + [e];
      GroupsInStep(before);
      IndexNext(before, e);
      GroupEvent(before, e);
      StaysInStep(Group(Forwarded(0, before)), IndexAfter(0, before), e);
    }
  }

  lemma NothingGrouped()
    ensures Group(Forwarded(0, [])) == [] && InStep([], IndexAfter(0, [])) && Inputs([]) == 0
  {
  }

  /** All input arrives; there is one call more than were meant, without a name, where input leads the run. */
  lemma {:induction false} GroupClientCounts(events: seq<StreamEvent>)
    ensures var groups := Group(Forwarded(0, events));
            && (groups == [] <==> Starts(events) == 0 && LeadingOrphans(events) == 0)
            && |Flat(groups)| == |Meant(events)| + (if LeadingOrphans(events) > 0 then 1 else 0)
            && Inputs(Flat(groups)) == Inputs(Meant(events)) + OrphanLength(events)
  {
    if events == [] {
      NothingGrouped();
      FlatNothing();
      NoTools();
    } else {
      hide Forwarded, Group, Flat, InStep, Inputs, Meant, IndexAfter, Starts, OrphanLength, LeadingOrphans;
      hide GroupsNext, MeantNext;
      var before, e := events[..|events| - 1], events[|events| - 1];
      assert events == before + [e];
      GroupClientCounts(before);
      GroupsInStep(before);
      MeantCounts(before);
      MeantAppend(before, e);
      GroupEvent(before, e);
      CountsNext(before, e);
      GroupInputs(Group(Forwarded(0, before)), Meant(before), IndexAfter(0, before), e);
    }
  }

  lemma GroupInputs(groups: seq<seq<Call>>, calls: seq<Call>, index: nat, e: StreamEvent)
    requires InStep(groups, index) && index <= |calls|
    ensures var got, next := Flat(groups), Flat(GroupsNext(groups, index, e));
            && |next| == (if e.ToolUseStart? || (e.ToolInputDelta? && groups == []) then |got| + 1 else |got|)
            && Inputs(next) - Inputs(got) ==
               Inputs(MeantNext(calls, index, e)) - Inputs(calls) + if e.ToolInputDelta? && index == 0 then |e.input| else 0
    ensures GroupsNext(groups, index, e) == [] <==> groups == [] && !e.ToolUseStart? && !e.ToolInputDelta?
  {
    hide Inputs, Flat;
    var got := Flat(groups);
    match e
    case ToolUseStart(id, name) =>
      var call := Call(Some(id), Some(name), "");
      FlatStart(groups, index, id, name);
      InputsAppend(calls, [call]);
      InputsAppend(got, [call]);
      InputsOne(call);
    case ToolInputDelta(input) =>
      FlatDelta(groups, index, input);
      MeantInputs(calls, index, input);
      if groups == [] {
        FlatNothing();
        InputsAppend([], [Call(None, None, input)]);
        InputsOne(Call(None, None, input));
        InputsNothing();
      } else {
        var at := |got| - |groups[|groups| - 1]| + (if index == 0 then 0 else index - 1);
        InputsUpdate(got, at, AddTo(got[at], input));
      }
    case _ =>
  }

  lemma InputsNothing()
    ensures Inputs([]) == 0
  {
  }

  lemma {:induction false} GroupClientRecovers(events: seq<StreamEvent>)
    requires OrphanLength(events) == 0 && LeadingOrphans(events) == 0
    ensures Flat(Group(Forwarded(0, events))) == Meant(events)
  {
    if events == [] {
      NothingGrouped();
      FlatNothing();
      NoTools();
    } else {
      hide Forwarded, Group, Flat, InStep, Meant, IndexAfter, Starts, OrphanLength, LeadingOrphans;
      hide GroupsNext, MeantNext, Inputs;
      var before, e := events[..|events| - 1], events[|events| - 1];
      assert events == before + [e];
      CountsNext(before, e);
      GroupClientRecovers(before);
      GroupsInStep(before);
      GroupClientCounts(before);
      MeantCounts(before);
      MeantAppend(before, e);
      GroupEvent(before, e);
      GroupsAreMeant(Group(Forwarded(0, before)), IndexAfter(0, before), e);
    }
  }

  lemma GroupsAreMeant(groups: seq<seq<Call>>, index: nat, e: StreamEvent)
    requires InStep(groups, index)
    requires index == 0 && e.ToolInputDelta? ==> e.input == "" && groups != []
    ensures Flat(GroupsNext(groups, index, e)) == MeantNext(Flat(groups), index, e)
  {
    hide Flat;
    if e.ToolUseStart? {
      FlatStart(groups, index, e.id, e.name);
    } else if e.ToolInputDelta? {
      FlatDelta(groups, index, e.input);
      AddNothing(Flat(groups));
    }
  }

  /**
   * A client that opens a group at every start with index zero recovers the calls of any run, however many
   * iterations it has, exactly when orphan input is empty and none leads the run.
   */
  lemma GroupClientIff(events: seq<StreamEvent>)
    ensures Flat(Group(Response(events))) == Meant(events) <==> OrphanLength(events) == 0 && LeadingOrphans(events) == 0
  {
    hide Forwarded, Group, Flat, Meant, Inputs, Response;
    GroupResponse(events);
    GroupClientCounts(events);
    if OrphanLength(events) == 0 && LeadingOrphans(events) == 0 {
      GroupClientRecovers(events);
    }
  }
}
