// The audit-log event stream (crates/clawreform-api/src/routes.rs:3844-3939): a poller with a cursor over an
// append-only log (crates/clawreform-runtime/src/audit.rs:100-135, 196-200).

module LogStream {
  import opened Text
  import Normalization

  datatype Entry = Entry(number: nat, agentId: string, action: string, detail: string)

  // ----- the log -----

  /** Entries are numbered by their place, from zero. */
  ghost predicate Numbered(log: seq<Entry>) {
    forall i :: 0 <= i < |log| ==> log[i].number == i
  }

  function Record(log: seq<Entry>, agentId: string, action: string, detail: string): seq<Entry> {
    log + [Entry(|log|, agentId, action, detail)]
  }

  function RecentStart(log: seq<Entry>): nat {
    if |log| <= 200 then 0 else |log| - 200
  }

  /** `recent(200)`. */
  function Recent(log: seq<Entry>): seq<Entry> {
    log[RecentStart(log)..]
  }

  // ----- the filters -----

  datatype Filters = Filters(level: string, text: string)

  function ClassifyAuditLevel(action: string): string {
    var a := Normalization.LowerAll(action);
    if Find(a, "error").Some? || Find(a, "fail").Some? || Find(a, "crash").Some? || Find(a, "denied").Some? then "error"
    else if Find(a, "warn").Some? || Find(a, "block").Some? || Find(a, "kill").Some? then "warn"
    else "info"
  }

  function Haystack(e: Entry): string {
    Normalization.LowerAll(e.action + " " + e.detail + " " + e.agentId)
  }

  predicate Passes(e: Entry, f: Filters) {
    && (f.level != "" ==> ClassifyAuditLevel(e.action) == f.level)
    && (f.text != "" ==> Find(Haystack(e), f.text).Some?)
  }

  function Filter(entries: seq<Entry>, f: Filters): seq<Entry> {
    if entries == [] then [] else (if Passes(entries[0], f) then [entries[0]] else []) + Filter(entries[1..], f)
  }

  lemma {:induction false} FilterAppend(a: seq<Entry>, b: seq<Entry>, f: Filters)
    ensures Filter(a + b, f) == Filter(a, f) + Filter(b, f)
  {
    hide Passes;
    if a == [] {
      assert a + b == b;
    } else {
      assert (a + b)[1..] == a[1..] + b;
      FilterAppend(a[1..], b, f);
    }
  }

  // ----- one poll -----

  datatype Cursor = Cursor(lastSeq: nat, firstPoll: bool, sent: seq<Entry>)

  const CONNECTED: Cursor := Cursor(0, true, [])

  /** The first place of the log that a poll may send from. */
  function SendsFrom(c: Cursor, log: seq<Entry>): nat {
    if c.firstPoll || c.lastSeq + 1 <= RecentStart(log) then RecentStart(log)
    else if c.lastSeq + 1 <= |log| then c.lastSeq + 1
    else |log|
  }

  /** A poll sends what passes from there to the end, and moves the cursor to the end of a nonempty log. */
  function Polled(c: Cursor, log: seq<Entry>, f: Filters): Cursor {
    Cursor(if log == [] then c.lastSeq else |log| - 1, false, c.sent + Filter(log[SendsFrom(c, log)..], f))
  }

  class LogPoller {
    const levelFilter: string
    const textFilter: string
    var lastSeq: nat
    var firstPoll: bool
    var sent: seq<Entry>

    ghost function View(): Cursor
      reads this
    {
      Cursor(lastSeq, firstPoll, sent)
    }

    ghost function F(): Filters {
      Filters(levelFilter, textFilter)
    }

    constructor (level: string, text: string)
      ensures View() == CONNECTED && F() == Filters(level, Normalization.LowerAll(text))
    {
      levelFilter, textFilter := level, Normalization.LowerAll(text);
      lastSeq, firstPoll, sent := 0, true, [];
    }

    method Poll(log: seq<Entry>)
      requires Numbered(log)
      modifies this
      ensures View() == Polled(old(View()), log, F())
    {
      hide Passes, Filter, SendsFrom;
      var entries := Recent(log);
      ghost var c, start := View(), RecentStart(log);
      SendsFromInLog(c, log);
      FilterNothing(F());
      for i := 0 to |entries|
        invariant lastSeq == c.lastSeq && firstPoll == c.firstPoll
        invariant sent == c.sent + Filter(SendableUpTo(c, log, start + i), F())
      {
        var entry := entries[i];
        SendableNext(c, log, start + i, F());
        if !firstPoll && entry.number <= lastSeq {
          continue;
        }
        var passes := PassesFilters(entry);
        if !passes {
          continue;
        }
        sent := sent + [entry];
      }
      assert SendableUpTo(c, log, |log|) == log[SendsFrom(c, log)..];
      if |entries| > 0 {
        var last := entries[|entries| - 1];
        lastSeq := last.number;
      }
      firstPoll := false;
    }

    method PassesFilters(entry: Entry) returns (passes: bool)
      ensures passes == Passes(entry, F())
    {
      if levelFilter != "" {
        var classified := ClassifyAuditLevel(entry.action);
        if classified != levelFilter {
          return false;
        }
      }
      if textFilter != "" {
        var haystack := Normalization.LowerAll(entry.action + " " + entry.detail + " " + entry.agentId);
        if Find(haystack, textFilter).None? {
          return false;
        }
      }
      return true;
    }
  }

  lemma SendsFromInLog(c: Cursor, log: seq<Entry>)
    ensures RecentStart(log) <= SendsFrom(c, log) <= |log|
  {
  }

  /** What the poll has looked at and not skipped, up to place `k`. */
  ghost function SendableUpTo(c: Cursor, log: seq<Entry>, k: nat): seq<Entry>
    requires k <= |log|
  {
    if k <= SendsFrom(c, log) then [] else log[SendsFrom(c, log)..k]
  }

  lemma SendableNext(c: Cursor, log: seq<Entry>, k: nat, f: Filters)
    requires Numbered(log) && RecentStart(log) <= k < |log|
    ensures var skipped := !c.firstPoll && log[k].number <= c.lastSeq;
            Filter(SendableUpTo(c, log, k + 1), f) ==
            Filter(SendableUpTo(c, log, k), f) + if !skipped && Passes(log[k], f) then [log[k]] else []
  {
    hide Passes;
    var from := SendsFrom(c, log);
    if from <= k {
      assert log[from..k + 1] == log[from..k] + [log[k]];
      FilterAppend(log[from..k], [log[k]], f);
      assert [log[k]][1..] == [];
    }
  }

  // ----- which entries a poll sends -----

  ghost predicate Contains(s: string, p: string) {
    exists k :: OccursAt(s, p, k)
  }

  /** One of the words occurs in the text. */
  ghost predicate Mentions(s: string, words: seq<string>) {
    exists i :: 0 <= i < |words| && Contains(s, words[i])
  }

  lemma FindsContained(s: string, p: string)
    ensures Find(s, p).Some? <==> Contains(s, p)
  {
    hide Find, OccursAt;
    FindNone(s, p);
  }

  lemma ErrorsMentioned(s: string)
    ensures Mentions(s, ["error", "fail", "crash", "denied"]) <==>
            Find(s, "error").Some? || Find(s, "fail").Some? || Find(s, "crash").Some? || Find(s, "denied").Some?
    ensures Mentions(s, ["warn", "block", "kill"]) <==>
            Find(s, "warn").Some? || Find(s, "block").Some? || Find(s, "kill").Some?
  {
    hide Find, Contains;
    FindsContained(s, "error");
    FindsContained(s, "fail");
    FindsContained(s, "crash");
    FindsContained(s, "denied");
    FindsContained(s, "warn");
    FindsContained(s, "block");
    FindsContained(s, "kill");
    var errors, warnings := ["error", "fail", "crash", "denied"], ["warn", "block", "kill"];
    assert errors[0] == "error" && errors[1] == "fail" && errors[2] == "crash" && errors[3] == "denied";
    assert warnings[0] == "warn" && warnings[1] == "block" && warnings[2] == "kill";
  }

  lemma PassesIff(e: Entry, f: Filters)
    ensures var a := Normalization.LowerAll(e.action);
            var isError := Mentions(a, ["error", "fail", "crash", "denied"]);
            var isWarning := Mentions(a, ["warn", "block", "kill"]);
            Passes(e, f) <==>
            && (|| f.level == ""
                || (f.level == "error" && isError)
                || (f.level == "warn" && isWarning && !isError)
                || (f.level == "info" && !isWarning && !isError))
            && (f.text == "" || Contains(Normalization.LowerAll(e.action + " " + e.detail + " " + e.agentId), f.text))
  {
    hide Find, Contains, Mentions;
    ErrorsMentioned(Normalization.LowerAll(e.action));
    FindsContained(Haystack(e), f.text);
  }

  lemma {:induction false} FilterIs(entries: seq<Entry>, f: Filters)
    ensures forall e :: e in Filter(entries, f) <==> e in entries && Passes(e, f)
  {
    hide Passes;
    if entries != [] {
      FilterIs(entries[1..], f);
      assert entries == [entries[0]] + entries[1..];
    }
  }

  /** Numbers of the sent entries. */
  ghost predicate Increasing(entries: seq<Entry>, bound: nat) {
    && (forall i :: 0 <= i < |entries| ==> entries[i].number < bound)
    && (forall i, j :: 0 <= i < j < |entries| ==> entries[i].number < entries[j].number)
  }

  lemma {:induction false} FilterIncreasing(log: seq<Entry>, from: nat, f: Filters)
    requires Numbered(log) && from <= |log|
    ensures Increasing(Filter(log[from..], f), |log|)
    ensures forall e :: e in Filter(log[from..], f) ==> e.number >= from
    decreases |log| - from
  {
    hide Passes;
    if from < |log| {
      FilterIncreasing(log, from + 1, f);
      assert log[from..][1..] == log[from + 1..];
    }
  }

  /**
   * One poll sends exactly the entries among the last 200 that are newer than the cursor, or any on the first poll,
   * and have the level and the text asked for, each once and in the order of the log.
   */
  lemma PollSends(c: Cursor, log: seq<Entry>, f: Filters)
    requires Numbered(log)
    ensures c.sent <= Polled(c, log, f).sent
    ensures var more := Polled(c, log, f).sent[|c.sent|..];
            && (forall i, j :: 0 <= i < j < |more| ==> more[i].number < more[j].number)
            && forall e :: e in more <==>
                 && e in log && |log| <= e.number + 200 && (c.firstPoll || e.number > c.lastSeq)
                 && var a := Normalization.LowerAll(e.action);
                    var isError := Mentions(a, ["error", "fail", "crash", "denied"]);
                    var isWarning := Mentions(a, ["warn", "block", "kill"]);
                    && (|| f.level == ""
                        || (f.level == "error" && isError)
                        || (f.level == "warn" && isWarning && !isError)
                        || (f.level == "info" && !isWarning && !isError))
                    && (f.text == "" || Contains(Normalization.LowerAll(e.action + " " + e.detail + " " + e.agentId), f.text))
  {
    hide Passes, Filter, Mentions, Contains;
    var from := SendsFrom(c, log);
    var more := Polled(c, log, f).sent[|c.sent|..];
    assert more == Filter(log[from..], f);
    FilterIncreasing(log, from, f);
    FilterIs(log[from..], f);
    forall e: Entry {
      SendableIff(c, log, e);
    }
    forall e: Entry {
      PassesIff(e, f);
    }
  }

  lemma SendableIff(c: Cursor, log: seq<Entry>, e: Entry)
    requires Numbered(log)
    ensures e in log[SendsFrom(c, log)..] <==>
            e in log && |log| <= e.number + 200 && (c.firstPoll || e.number > c.lastSeq)
  {
    var from := SendsFrom(c, log);
    if e in log && e.number >= from {
      var i :| 0 <= i < |log| && log[i] == e;
      assert log[from..][i - from] == e;
    }
  }

  // ----- runs: appends and polls in any order -----

  datatype Op = Append(agentId: string, action: string, detail: string) | Poll

  /** `start`: where the first backfill began; `polled`: the log's length at the last poll; `missed`: what no poll could send. */
  datatype Run = Run(log: seq<Entry>, cursor: Cursor, start: nat, polled: nat, missed: seq<Entry>)

  function Step(r: Run, op: Op, f: Filters): Run {
    match op
    case Append(agentId, action, detail) => r.(log := Record(r.log, agentId, action, detail))
    case Poll =>
      var from := SendsFrom(r.cursor, r.log);
      Run(r.log, Polled(r.cursor, r.log, f),
          if r.cursor.firstPoll then from else r.start,
          |r.log|,
          if r.cursor.firstPoll || from < r.polled then r.missed else r.missed + r.log[r.polled..from])
  }

  function Exec(ops: seq<Op>, f: Filters): Run {
    if ops == [] then Run([], CONNECTED, 0, 0, []) else Step(Exec(ops[..|ops| - 1], f), ops[|ops| - 1], f)
  }

  /** The log grew by at most 200 since the last poll, and was not empty then unless it still is. */
  predicate KeepsUp(r: Run) {
    r.cursor.firstPoll || (|r.log| <= r.polled + 200 && (r.polled > 0 || r.log == []))
  }

  ghost predicate Valid(r: Run) {
    && Numbered(r.log)
    && r.start <= r.polled <= |r.log|
    && (r.cursor.firstPoll ==> r.cursor == CONNECTED && r.start == r.polled == 0 && r.missed == [])
    && (!r.cursor.firstPoll ==> r.cursor.lastSeq == if r.polled == 0 then 0 else r.polled - 1)
  }

  lemma {:induction false} AlwaysValid(ops: seq<Op>, f: Filters)
    ensures Valid(Exec(ops, f))
  {
    hide Filter;
    if ops != [] {
      AlwaysValid(ops[..|ops| - 1], f);
    }
  }

  /** Entries stay as they were recorded: the k-th append is entry k of the log. */
  lemma {:induction false} LogHoldsAppends(ops: seq<Op>, f: Filters, i: nat)
    requires i < |ops| && ops[i].Append?
    ensures var k, log := |Exec(ops[..i], f).log|, Exec(ops, f).log;
            k < |log| && log[k] == Entry(k, ops[i].agentId, ops[i].action, ops[i].detail)
  {
    hide Polled;
    var n := |ops| - 1;
    if i < n {
      LogHoldsAppends(ops[..n], f, i);
      assert ops[..n][..i] == ops[..i];
    }
  }

  lemma ExecAppend(ops: seq<Op>, op: Op, f: Filters)
    ensures Exec(ops + [op], f) == Step(Exec(ops, f), op, f)
  {
    assert (ops + [op])[..|ops|] == ops;
  }

  /** Over every run the numbers sent are strictly increasing: nothing is sent twice or out of order. */
  lemma {:induction false} SentIncreasing(ops: seq<Op>, f: Filters)
    ensures Increasing(Exec(ops, f).cursor.sent, Exec(ops, f).polled)
  {
    hide Filter;
    if ops != [] {
      var before, op := ops[..|ops| - 1], ops[|ops| - 1];
      var r := Exec(before, f);
      SentIncreasing(before, f);
      AlwaysValid(before, f);
      if op.Poll? {
        var from := SendsFrom(r.cursor, r.log);
        FilterIncreasing(r.log, from, f);
        var sent, more := r.cursor.sent, Filter(r.log[from..], f);
        assert forall i :: 0 <= i < |more| ==> more[i] in more;
      }
    }
  }

  /**
   * Every entry of the filtered log from the first backfill to the last poll was either sent or missed, and was so
   * once; when no missed entry passes, the sent list is that log in its order.
   */
  lemma {:induction false} SentOrMissed(ops: seq<Op>, f: Filters)
    ensures Exec(ops, f).start <= Exec(ops, f).polled <= |Exec(ops, f).log|
    ensures var r := Exec(ops, f);
            var all := Filter(r.log[r.start..r.polled], f);
            && multiset(all) == multiset(r.cursor.sent) + multiset(Filter(r.missed, f))
            && (Filter(r.missed, f) == [] ==> r.cursor.sent == all)
  {
    hide Filter;
    AlwaysValid(ops, f);
    if ops == [] {
      FilterNothing(f);
    } else {
      var before, op := ops[..|ops| - 1], ops[|ops| - 1];
      var r := Exec(before, f);
      SentOrMissed(before, f);
      AlwaysValid(before, f);
      match op
      case Append(agentId, action, detail) =>
        assert Record(r.log, agentId, action, detail)[r.start..r.polled] == r.log[r.start..r.polled];
      case Poll => PollSplits(r, f);
    }
  }

  lemma FilterNothing(f: Filters)
    ensures Filter([], f) == []
  {
  }

  lemma SplitThree(log: seq<Entry>, a: nat, b: nat, c: nat)
    requires a <= b <= c <= |log|
    ensures log[a..|log|] == log[a..b] + (log[b..c] + log[c..])
  {
    assert log[b..] == log[b..c] + log[c..];
  }

  lemma PollSplits(r: Run, f: Filters)
    requires Valid(r)
    requires multiset(Filter(r.log[r.start..r.polled], f)) == multiset(r.cursor.sent) + multiset(Filter(r.missed, f))
    requires Filter(r.missed, f) == [] ==> r.cursor.sent == Filter(r.log[r.start..r.polled], f)
    ensures var n := Step(r, Poll, f);
            var all := Filter(n.log[n.start..n.polled], f);
            && multiset(all) == multiset(n.cursor.sent) + multiset(Filter(n.missed, f))
            && (Filter(n.missed, f) == [] ==> n.cursor.sent == all)
  {
    hide Filter, Numbered, SendsFrom;
    hide Passes, RecentStart;
    var from := SendsFrom(r.cursor, r.log);
    SendsFromInLog(r.cursor, r.log);
    FilterNothing(f);
    if r.cursor.firstPoll {
      assert r.log[from..|r.log|] == r.log[from..];
      assert r.log[0..0] == [];
    } else {
      LaterPoll(r, f);
      FilterSplits(r.log, r.start, r.polled, from, f);
      FilterAppend(r.missed, r.log[r.polled..from], f);
      var all, gap, more := Filter(r.log[r.start..r.polled], f), Filter(r.log[r.polled..from], f), Filter(r.log[from..], f);
      AddUp(all, r.cursor.sent, Filter(r.missed, f), gap, more);
    }
  }

  lemma LaterPoll(r: Run, f: Filters)
    requires Valid(r) && !r.cursor.firstPoll
    ensures var n, from := Step(r, Poll, f), SendsFrom(r.cursor, r.log);
            && r.polled <= from <= |r.log|
            && n.log == r.log && n.start == r.start && n.polled == |r.log|
            && n.missed == r.missed + r.log[r.polled..from] && n.cursor.sent == r.cursor.sent + Filter(r.log[from..], f)
  {
    hide Filter;
  }

  lemma AddUp(all: seq<Entry>, sent: seq<Entry>, missed: seq<Entry>, gap: seq<Entry>, more: seq<Entry>)
    requires multiset(all) == multiset(sent) + multiset(missed)
    requires missed == [] ==> sent == all
    ensures multiset(all + gap + more) == multiset(sent + more) + multiset(missed + gap)
    ensures missed + gap == [] ==> sent + more == all + gap + more
  {
  }

  lemma FilterSplits(log: seq<Entry>, a: nat, b: nat, c: nat, f: Filters)
    requires a <= b <= c <= |log|
    ensures Filter(log[a..|log|], f) == Filter(log[a..b], f) + Filter(log[b..c], f) + Filter(log[c..], f)
  {
    hide Filter;
    SplitThree(log, a, b, c);
    FilterAppend(log[a..b], log[b..c] + log[c..], f);
    FilterAppend(log[b..c], log[c..], f);
  }

  /** No entry that the poll can no longer send, because it came before `SendsFrom`, passes the filters. */
  predicate LosesNothing(r: Run, f: Filters) {
    r.cursor.firstPoll || forall k :: r.polled <= k < SendsFrom(r.cursor, r.log) ==> !Passes(r.log[k], f)
  }

  lemma {:induction false} FilterNone(entries: seq<Entry>, f: Filters)
    ensures Filter(entries, f) == [] <==> forall i :: 0 <= i < |entries| ==> !Passes(entries[i], f)
  {
    hide Passes;
    if entries != [] {
      FilterNone(entries[1..], f);
      assert forall i :: 1 <= i < |entries| ==> entries[i] == entries[1..][i - 1];
    }
  }

  lemma MissedByPoll(r: Run, f: Filters)
    requires Valid(r)
    ensures Filter(Step(r, Poll, f).missed, f) == [] <==> Filter(r.missed, f) == [] && LosesNothing(r, f)
  {
    hide Filter, Passes, Numbered;
    var from := SendsFrom(r.cursor, r.log);
    if !r.cursor.firstPoll {
      assert r.polled <= from;
      var gap := r.log[r.polled..from];
      FilterAppend(r.missed, gap, f);
      FilterNone(gap, f);
      assert forall k :: r.polled <= k < from ==> r.log[k] == gap[k - r.polled];
    }
  }

  lemma {:induction false} MissedNonePassing(ops: seq<Op>, f: Filters)
    ensures Filter(Exec(ops, f).missed, f) == []
       <==> forall i :: 0 <= i < |ops| && ops[i].Poll? ==> LosesNothing(Exec(ops[..i], f), f)
  {
    if ops == [] {
      FilterNothing(f);
    } else {
      hide Filter, LosesNothing, Valid;
      var n := |ops| - 1;
      var before := ops[..n];
      MissedNonePassing(before, f);
      AlwaysValid(before, f);
      assert forall i :: 0 <= i <= n ==> before[..i] == ops[..i];
      if ops[n].Poll? {
        MissedByPoll(Exec(before, f), f);
      }
    }
  }

  /** Whatever the filters, the client's list is complete exactly when no poll had lost an entry that passes. */
  lemma {:induction false} CompleteIffLosesNothing(ops: seq<Op>, f: Filters)
    ensures var r := Exec(ops, f);
            r.start <= r.polled <= |r.log| &&
            (r.cursor.sent == Filter(r.log[r.start..r.polled], f)
             <==> forall i :: 0 <= i < |ops| && ops[i].Poll? ==> LosesNothing(Exec(ops[..i], f), f))
  {
    hide Filter, LosesNothing, Exec;
    SentOrMissed(ops, f);
    MissedNonePassing(ops, f);
    assert |multiset(Filter(Exec(ops, f).missed, f))| == |Filter(Exec(ops, f).missed, f)|;
  }

  /** Nothing is missed exactly when every poll of the run came in time. */
  lemma {:induction false} MissedNothing(ops: seq<Op>, f: Filters)
    ensures Exec(ops, f).missed == [] <==> forall i :: 0 <= i < |ops| && ops[i].Poll? ==> KeepsUp(Exec(ops[..i], f))
  {
    hide Filter, KeepsUp;
    if ops != [] {
      var n := |ops| - 1;
      var before := ops[..n];
      MissedNothing(before, f);
      AlwaysValid(before, f);
      assert forall i :: 0 <= i <= n ==> before[..i] == ops[..i];
      if ops[n].Poll? {
        GapIffLate(Exec(before, f), f);
      }
    }
  }

  lemma GapIffLate(r: Run, f: Filters)
    requires Valid(r)
    ensures Step(r, Poll, f).missed == r.missed <==> KeepsUp(r)
  {
    var from := SendsFrom(r.cursor, r.log);
    if !r.cursor.firstPoll {
      assert r.polled <= from;
      assert |r.log[r.polled..from]| == from - r.polled;
    }
  }

  /** With every poll in time, the client gets exactly the filtered log from the first backfill to the last poll. */
  lemma {:induction false} CompleteWhenInTime(ops: seq<Op>, f: Filters)
    requires forall i :: 0 <= i < |ops| && ops[i].Poll? ==> KeepsUp(Exec(ops[..i], f))
    ensures var r := Exec(ops, f); r.start <= r.polled <= |r.log| && r.cursor.sent == Filter(r.log[r.start..r.polled], f)
  {
    MissedNothing(ops, f);
    SentOrMissed(ops, f);
    FilterNothing(f);
  }

  const NO_FILTERS: Filters := Filters("", "")

  lemma {:induction false} FilterAll(entries: seq<Entry>)
    ensures Filter(entries, NO_FILTERS) == entries
  {
    if entries != [] {
      FilterAll(entries[1..]);
    }
  }

  /** Without filters the client's list is complete exactly when every poll came in time. */
  lemma CompleteIffInTime(ops: seq<Op>)
    ensures var r := Exec(ops, NO_FILTERS);
            r.start <= r.polled <= |r.log| &&
            (r.cursor.sent == r.log[r.start..r.polled]
             <==> forall i :: 0 <= i < |ops| && ops[i].Poll? ==> KeepsUp(Exec(ops[..i], NO_FILTERS)))
  {
    var r := Exec(ops, NO_FILTERS);
    MissedNothing(ops, NO_FILTERS);
    SentOrMissed(ops, NO_FILTERS);
    FilterAll(r.log[r.start..r.polled]);
    FilterAll(r.missed);
  }

  /** A client that connects before the log has an entry never gets entry number zero. */
  lemma FirstEntryLost(agentId: string, action: string, detail: string)
    ensures var r := Exec([Poll, Append(agentId, action, detail), Poll], NO_FILTERS);
            |r.log| == 1 && r.cursor.sent == []
  {
    var append := Append(agentId, action, detail);
    assert [Poll, append, Poll] == [] + [Poll] + [append] + [Poll];
    ExecAppend([], Poll, NO_FILTERS);
    ExecAppend([] + [Poll], append, NO_FILTERS);
    ExecAppend([] + [Poll] + [append], Poll, NO_FILTERS);
    FilterNothing(NO_FILTERS);
  }
}
