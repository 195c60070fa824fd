/**
 What executing one command leaves in the log: how often it is sent and read back, what the outcome
 says, and what Obico is told afterwards.
 */
module AgentCommands {
  import opened Sequences
  import opened Snapshots
  import opened JobTracking
  import opened Sessions
  import opened ObicoStatus
  import opened Agents
  import opened AgentHistory

  // ── counting ─────────────────────────────────────────────────────────────────────────────

  function Sends(log: seq<Entry>): nat {
    if log == [] then 0 else (if log[0].Sent? then 1 else 0) + Sends(log[1..])
  }

  function Reads(log: seq<Entry>): nat {
    if log == [] then 0 else (if log[0].Read? then 1 else 0) + Reads(log[1..])
  }

  lemma {:induction false} CountsAppend(a: seq<Entry>, b: seq<Entry>)
    ensures Sends(a + b) == Sends(a) + Sends(b)
    ensures Reads(a + b) == Reads(a) + Reads(b)
  {
    if a == [] {
      assert a + b == b;
    } else {
      assert (a + b)[1..] == a[1..] + b;
      CountsAppend(a[1..], b);
    }
  }

  /** The state that shows a command to have taken. */
  predicate Confirms(cmd: Command, s: Snapshot) {
    match cmd
    case Pause => s.state == PAUSED
    case Resume => InJob(s) && s.state != PAUSED
    case Cancel => !InJob(s)
  }

  /** A read that shows the command has taken. */
  predicate Shows(cmd: Command, e: Entry) {
    e.Read? && e.reply.Some? && Confirms(cmd, e.reply.value)
  }

  predicate ShowsNoJob(e: Entry) {
    e.Read? && e.reply.Some? && !InJob(e.reply.value)
  }

  /** A read after which nothing more is read or sent. */
  predicate Decides(cmd: Command, e: Entry) {
    Shows(cmd, e) || (cmd != Cancel && ShowsNoJob(e))
  }

  /** A job that is not paused and of which nothing has been extruded: no time printed, and no layer. */
  predicate NothingExtruded(s: Snapshot) {
    InJob(s) && s.state != PAUSED && s.durationS == 0 && (s.layer == None || s.layer == Some(0))
  }

  /** One attempt: a send; when the printer accepts it, read-backs up to the first that settles the matter, or
      five of them; when it refuses, nothing, but for the report of the last attempt's refusal. */
  predicate Attempted(cmd: Command, entries: seq<Entry>, last: bool) {
    && entries != [] && entries[0].Sent? && entries[0].cmd == cmd
    && if entries[0].accepted then
         && 2 <= |entries| <= 6
         && (forall k | 1 <= k < |entries| :: entries[k].Read? && !entries[k].polled)
         && (forall k | 1 <= k < |entries| - 1 :: !Decides(cmd, entries[k]))
         && (|entries| < 6 ==> Decides(cmd, Last(entries)))
       else entries == [entries[0]] + if last then [Posted(CommandFailed(cmd))] else []
  }

  /** The tries are attempts one after another, `left` of them unless one settles the matter. */
  ghost predicate Protocol(cmd: Command, left: nat, tries: seq<Entry>, attempts: seq<seq<Entry>>) {
    && tries == Flatten(attempts) && |attempts| <= left
    && (forall k | 0 <= k < |attempts| :: Attempted(cmd, attempts[k], k == left - 1))
    && (forall k | 0 <= k < |attempts| - 1 :: !Decides(cmd, Last(attempts[k])))
    && (|attempts| < left ==> attempts != [] && Decides(cmd, Last(Last(attempts))))
  }

  predicate OnTheWire(cmd: Command, e: Entry) {
    e.Read? || (e.Sent? && e.cmd == cmd) || e == Posted(CommandFailed(cmd))
  }

  /** `tries` is a faithful trace of sending `cmd` with the given outcome. */
  ghost predicate Trace(cmd: Command, tries: seq<Entry>, outcome: Outcome, before: Option<Snapshot>, after: Option<Snapshot>) {
    && (forall e | e in tries :: OnTheWire(cmd, e))
    && (outcome == Taken <==> exists e :: e in tries && Shows(cmd, e))
    && (outcome == JobOver <==>
          cmd != Cancel && (forall e | e in tries :: !Shows(cmd, e)) && exists e :: e in tries && ShowsNoJob(e))
    && (outcome == Taken ==> tries != [] && Shows(cmd, Last(tries)))
    && (forall j | 0 <= j < |tries| - 1 :: !Shows(cmd, tries[j]))
    && (outcome == JobOver ==> tries != [] && ShowsNoJob(Last(tries)))
    && after == LatestOf(tries, before)
  }

  /** The snapshot held after `tries`: the latest one read, or the one held before. */
  function LatestOf(tries: seq<Entry>, before: Option<Snapshot>): Option<Snapshot> {
    if tries == [] then before
    else if Last(tries).Read? && Last(tries).reply.Some? then Last(tries).reply
    else LatestOf(tries[..|tries| - 1], before)
  }

  lemma {:induction false} LatestOfAppend(a: seq<Entry>, b: seq<Entry>, before: Option<Snapshot>)
    ensures LatestOf(a + b, before) == LatestOf(b, LatestOf(a, before))
    decreases |b|
  {
    if b == [] {
      assert a + b == a;
    } else {
      assert (a + b)[..|a + b| - 1] == a + b[..|b| - 1];
      LatestOfAppend(a, b[..|b| - 1], before);
    }
  }

  lemma {:induction false} LatestOfSome(tries: seq<Entry>, before: Option<Snapshot>)
    requires before.Some?
    ensures LatestOf(tries, before).Some?
  {
    if tries != [] {
      LatestOfSome(tries[..|tries| - 1], before);
    }
  }

  /** A trace that has not succeeded, followed by another. */
  lemma TraceAppend(cmd: Command, a: seq<Entry>, b: seq<Entry>, outcome: Outcome,
                    before: Option<Snapshot>, mid: Option<Snapshot>, after: Option<Snapshot>)
    requires Trace(cmd, a, NotTaken, before, mid) && Trace(cmd, b, outcome, mid, after)
    ensures Trace(cmd, a + b, outcome, before, after)
  {
    LatestOfAppend(a, b, before);
    assert forall e :: e in a + b <==> e in a || e in b;
    assert b != [] ==> Last(a + b) == Last(b);
    forall j | 0 <= j < |a + b| - 1
      ensures !Shows(cmd, (a + b)[j])
    {
      assert (a + b)[j] == if j < |a| then a[j] else b[j - |a|];
      assert j < |a| ==> a[j] in a;
    }
  }

  lemma TraceOne(cmd: Command, e: Entry, outcome: Outcome, before: Option<Snapshot>)
    requires OnTheWire(cmd, e)
    requires outcome ==
      if Shows(cmd, e) then Taken else if cmd != Cancel && ShowsNoJob(e) then JobOver else NotTaken
    ensures Trace(cmd, [e], outcome, before, if e.Read? && e.reply.Some? then e.reply else before)
  {
    assert e in [e];
    assert [e][..0] == [];
    assert LatestOf([], before) == before;
  }

  lemma EmptyTrace(cmd: Command, before: Option<Snapshot>)
    ensures Trace(cmd, [], NotTaken, before, before)
  {
  }

  /** Every read-back among `tries`, the first of which is at position `at` of the log, is the printer's
      answer there. */
  predicate Answered(w: World, at: nat, tries: seq<Entry>) {
    forall j | 0 <= j < |tries| && tries[j].Read? :: tries[j].reply == w.detail(at + j)
  }

  lemma AnsweredAppend(w: World, at: nat, a: seq<Entry>, b: seq<Entry>)
    requires Answered(w, at, a) && Answered(w, at + |a|, b)
    ensures Answered(w, at, a + b)
  {
    forall j | 0 <= j < |a + b| && (a + b)[j].Read?
      ensures (a + b)[j].reply == w.detail(at + j)
    {
      assert j >= |a| ==> (a + b)[j] == b[j - |a|];
    }
  }

  // ── sending and reading back ─────────────────────────────────────────────────────────────

  lemma {:induction false} ReadBackTrace(
    w: World, cmd: Command, left: nat, snapshot: Option<Snapshot>, log: seq<Entry>)
    returns (tries: seq<Entry>)
    ensures var r := ReadBack(w, cmd, left, snapshot, log);
            r.log == log + tries && Trace(cmd, tries, r.outcome, snapshot, r.snapshot)
    ensures Sends(tries) == 0 && Reads(tries) <= left && Answered(w, |log|, tries)
    decreases left
  {
    hide Trace;
    if left == 0 {
      EmptyTrace(cmd, snapshot);
      return [];
    }
    var reply := w.detail(|log|);
    var e := Read(reply, false);
    assert [e][1..] == [];
    var outcome :=
      if Shows(cmd, e) then Taken else if cmd != Cancel && ShowsNoJob(e) then JobOver else NotTaken;
    TraceOne(cmd, e, outcome, snapshot);
    if outcome != NotTaken {
      return [e];
    }
    var next := if reply.Some? then reply else snapshot;
    var more := ReadBackTrace(w, cmd, left - 1, next, log + [e]);
    var r := ReadBack(w, cmd, left - 1, next, log + [e]);
    TraceAppend(cmd, [e], more, r.outcome, snapshot, next, r.snapshot);
    CountsAppend([e], more);
    AnsweredAppend(w, |log|, [e], more);
    Associative(log, [e], more);
    return [e] + more;
  }

  lemma {:induction false} TryTrace(
    w: World, cmd: Command, left: nat, snapshot: Option<Snapshot>, log: seq<Entry>)
    returns (tries: seq<Entry>)
    ensures var r := TryCommand(w, cmd, left, snapshot, log);
            && r.log == log + tries && Trace(cmd, tries, r.outcome, snapshot, r.snapshot)
            && (r.outcome == NotTaken ==> Sends(tries) == left)
    ensures Sends(tries) <= left && Reads(tries) <= READBACK_ATTEMPTS * left && Answered(w, |log|, tries)
    ensures left > 0 ==> Sends(tries) > 0 && tries != [] && tries[0].Sent?
    decreases left
  {
    hide Trace, ReadBack;
    if left == 0 {
      EmptyTrace(cmd, snapshot);
      return [];
    }
    if !w.accepts(|log|) {
      tries := TryRefused(w, cmd, left, snapshot, log);
    } else {
      tries := AcceptedTrace(w, cmd, snapshot, log);
      var r := ReadBack(w, cmd, READBACK_ATTEMPTS, snapshot, log + [Sent(cmd, true)]);
      if r.outcome == NotTaken {
        var more := TryTrace(w, cmd, left - 1, r.snapshot, r.log);
        var s := TryCommand(w, cmd, left - 1, r.snapshot, r.log);
        TraceAppend(cmd, tries, more, s.outcome, snapshot, r.snapshot, s.snapshot);
        CountsAppend(tries, more);
        AnsweredAppend(w, |log|, tries, more);
        Associative(log, tries, more);
        tries := tries + more;
      }
    }
  }

  /** An accepted command and its read-back. */
  lemma AcceptedTrace(w: World, cmd: Command, snapshot: Option<Snapshot>, log: seq<Entry>)
    returns (tries: seq<Entry>)
    requires w.accepts(|log|)
    ensures var r := ReadBack(w, cmd, READBACK_ATTEMPTS, snapshot, log + [Sent(cmd, true)]);
            r.log == log + tries && Trace(cmd, tries, r.outcome, snapshot, r.snapshot)
    ensures Sends(tries) == 1 && Reads(tries) <= READBACK_ATTEMPTS && Answered(w, |log|, tries)
    ensures tries != [] && tries[0].Sent?
  {
    hide Trace, ReadBack;
    var e := Sent(cmd, true);
    assert [e][1..] == [];
    assert Sends([e]) == 1 && Reads([e]) == 0;
    TraceOne(cmd, e, NotTaken, snapshot);
    var back := ReadBackTrace(w, cmd, READBACK_ATTEMPTS, snapshot, log + [e]);
    var r := ReadBack(w, cmd, READBACK_ATTEMPTS, snapshot, log + [e]);
    TraceAppend(cmd, [e], back, r.outcome, snapshot, snapshot, r.snapshot);
    CountsAppend([e], back);
    AnsweredAppend(w, |log|, [e], back);
    Associative(log, [e], back);
    tries := [e] + back;
  }

  lemma SendTrace(w: World, at: nat, cmd: Command, accepted: bool, snapshot: Option<Snapshot>)
    ensures var e := Sent(cmd, accepted);
            Trace(cmd, [e], NotTaken, snapshot, snapshot) && Answered(w, at, [e]) && Sends([e]) == 1 && Reads([e]) == 0
  {
    hide Trace;
    assert [Sent(cmd, accepted)][1..] == [];
    TraceOne(cmd, Sent(cmd, accepted), NotTaken, snapshot);
  }

  /** The step after a refusal. */
  lemma {:induction false} TryRefused(
    w: World, cmd: Command, left: nat, snapshot: Option<Snapshot>, log: seq<Entry>)
    returns (tries: seq<Entry>)
    requires left > 0 && !w.accepts(|log|)
    ensures var r := TryCommand(w, cmd, left, snapshot, log);
            && r.log == log + tries && Trace(cmd, tries, r.outcome, snapshot, r.snapshot)
            && (r.outcome == NotTaken ==> Sends(tries) == left)
    ensures 0 < Sends(tries) <= left && Reads(tries) <= READBACK_ATTEMPTS * left && Answered(w, |log|, tries)
    ensures tries != [] && tries[0].Sent?
    decreases left, 0
  {
    hide Trace, ReadBack;
    if left == 1 {
      tries := LastRefused(w, cmd, snapshot, log);
    } else {
      var e := Sent(cmd, false);
      SendTrace(w, |log|, cmd, false, snapshot);
      hide Answered, OnTheWire, LatestOf, Shows, ShowsNoJob;
      var more := TryTrace(w, cmd, left - 1, snapshot, log + [e]);
      var s := TryCommand(w, cmd, left - 1, snapshot, log + [e]);
      TraceAppend(cmd, [e], more, s.outcome, snapshot, snapshot, s.snapshot);
      CountsAppend([e], more);
      AnsweredAppend(w, |log|, [e], more);
      Associative(log, [e], more);
      tries := [e] + more;
    }
  }

  lemma LastRefused(w: World, cmd: Command, snapshot: Option<Snapshot>, log: seq<Entry>)
    returns (tries: seq<Entry>)
    requires !w.accepts(|log|)
    ensures var r := TryCommand(w, cmd, 1, snapshot, log);
            && r.log == log + tries && Trace(cmd, tries, r.outcome, snapshot, r.snapshot)
    ensures Sends(tries) == 1 && Reads(tries) == 0 && Answered(w, |log|, tries)
    ensures tries != [] && tries[0].Sent?
  {
    hide Trace, ReadBack;
    var e, failed := Sent(cmd, false), Posted(CommandFailed(cmd));
    TraceOne(cmd, e, NotTaken, snapshot);
    TraceOne(cmd, failed, NotTaken, snapshot);
    TraceAppend(cmd, [e], [failed], NotTaken, snapshot, snapshot, snapshot);
    assert [e][1..] == [] && [failed][1..] == [];
    CountsAppend([e], [failed]);
    Associative(log, [e], [failed]);
    tries := [e] + [failed];
  }

  // ── the attempts ─────────────────────────────────────────────────────────────────────────

  /** At most `left` reads, up to the first that decides the matter. */
  predicate ReadsUpTo(cmd: Command, left: nat, backs: seq<Entry>) {
    && |backs| <= left
    && (forall k | 0 <= k < |backs| :: backs[k].Read? && !backs[k].polled)
    && (forall k | 0 <= k < |backs| - 1 :: !Decides(cmd, backs[k]))
    && (|backs| < left ==> backs != [] && Decides(cmd, Last(backs)))
  }

  lemma {:induction false} ReadBackReads(w: World, cmd: Command, left: nat, snapshot: Option<Snapshot>, log: seq<Entry>)
    returns (backs: seq<Entry>)
    ensures var r := ReadBack(w, cmd, left, snapshot, log);
            && r.log == log + backs && ReadsUpTo(cmd, left, backs)
            && (r.outcome != NotTaken <==> backs != [] && Decides(cmd, Last(backs)))
    decreases left
  {
    if left == 0 {
      return [];
    }
    var reply := w.detail(|log|);
    var e := Read(reply, false);
    if Decides(cmd, e) {
      return [e];
    }
    var next := if reply.Some? then reply else snapshot;
    var more := ReadBackReads(w, cmd, left - 1, next, log + [e]);
    assert ReadBack(w, cmd, left, snapshot, log) == ReadBack(w, cmd, left - 1, next, log + [e]);
    hide ReadBack, Decides;
    Associative(log, [e], more);
    backs := [e] + more;
    assert more != [] ==> Last(backs) == Last(more);
    assert forall k | 1 <= k < |backs| :: backs[k] == more[k - 1];
  }

  lemma ProtocolStep(cmd: Command, left: nat, first: seq<Entry>, tries: seq<Entry>, attempts: seq<seq<Entry>>)
    requires left > 1 && Attempted(cmd, first, false) && !Decides(cmd, Last(first))
    requires Protocol(cmd, left - 1, tries, attempts)
    ensures Protocol(cmd, left, first + tries, [first] + attempts)
  {
    hide Attempted, Decides;
    var all := [first] + attempts;
    assert all[1..] == attempts;
    forall k | 0 <= k < |all|
      ensures Attempted(cmd, all[k], k == left - 1)
    {
      assert k > 0 ==> all[k] == attempts[k - 1];
    }
  }

  lemma ProtocolOne(cmd: Command, left: nat, only: seq<Entry>)
    requires left > 0 && Attempted(cmd, only, left == 1)
    requires left > 1 ==> Decides(cmd, Last(only))
    ensures Protocol(cmd, left, only, [only])
  {
    hide Attempted;
    hide Decides;
    assert [only][1..] == [] && only + [] == only;
    assert Flatten([only]) == only + Flatten([]) == only;
    assert Last([only]) == only;
    assert forall k | 0 <= k < |[only]| :: [only][k] == only && (k == left - 1 <==> left == 1);
  }

  lemma {:induction false} TryProtocol(w: World, cmd: Command, left: nat, snapshot: Option<Snapshot>, log: seq<Entry>)
    returns (tries: seq<Entry>, attempts: seq<seq<Entry>>)
    requires left > 0
    ensures TryCommand(w, cmd, left, snapshot, log).log == log + tries && Protocol(cmd, left, tries, attempts)
    decreases left
  {
    hide Protocol, Decides, ReadBack;
    var accepted := w.accepts(|log|);
    var e := Sent(cmd, accepted);
    if accepted {
      var backs := ReadBackReads(w, cmd, READBACK_ATTEMPTS, snapshot, log + [e]);
      var back := ReadBack(w, cmd, READBACK_ATTEMPTS, snapshot, log + [e]);
      var first := [e] + backs;
      Associative(log, [e], backs);
      SendAndReads(cmd, e, backs, left == 1);
      if back.outcome != NotTaken || left == 1 {
        ProtocolOne(cmd, left, first);
        return first, [first];
      }
      var more, rest := TryProtocol(w, cmd, left - 1, back.snapshot, back.log);
      ProtocolStep(cmd, left, first, more, rest);
      Associative(log, first, more);
      return first + more, [first] + rest;
    } else if left == 1 {
      var first := [e] + [Posted(CommandFailed(cmd))];
      ProtocolOne(cmd, left, first);
      Associative(log, [e], [Posted(CommandFailed(cmd))]);
      return first, [first];
    } else {
      assert !Decides(cmd, e) by { SendsDecideNothing(cmd, accepted); }
      assert [e] == [e] + [];
      var more, rest := TryProtocol(w, cmd, left - 1, snapshot, log + [e]);
      ProtocolStep(cmd, left, [e], more, rest);
      Associative(log, [e], more);
      return [e] + more, [[e]] + rest;
    }
  }

  lemma SendsDecideNothing(cmd: Command, accepted: bool)
    ensures !Decides(cmd, Sent(cmd, accepted))
  {
  }

  lemma SendAndReads(cmd: Command, e: Entry, backs: seq<Entry>, last: bool)
    requires e == Sent(cmd, true) && ReadsUpTo(cmd, 5, backs)
    ensures Attempted(cmd, [e] + backs, last) && Last([e] + backs) == Last(backs)
  {
    hide Decides;
    var entries := [e] + backs;
    assert forall k | 1 <= k < |entries| :: entries[k] == backs[k - 1];
  }

  /** Three attempts at most. */
  ghost predicate Tried(cmd: Command, tries: seq<Entry>) {
    exists attempts: seq<seq<Entry>> :: Protocol(cmd, 3, tries, attempts)
  }

  // ── the publish that follows ─────────────────────────────────────────────────────────────

  predicate AllTold(log: seq<Entry>) {
    forall e | e in log :: e.Told?
  }

  lemma {:induction false} SendEventsTrace(a: State, events: seq<Event>, now: real) returns (told: seq<Entry>)
    ensures SendEvents(a, events, now).log == a.log + told && AllTold(told)
    ensures var b := SendEvents(a, events, now);
            b == a.(settingsSent := b.settingsSent, lastSentAt := b.lastSentAt, log := b.log)
    decreases |events|
  {
    hide MessageNow;
    if events == [] {
      return [];
    }
    var more := SendEventsTrace(SendStatus(a, Some(events[0]), now), events[1..], now);
    var e := Told(MessageNow(a, Some(events[0]), now), now);
    Associative(a.log, [e], more);
    return [e] + more;
  }

  /** A publish shows the tracker the snapshot held, then only tells. */
  lemma PublishTrace(a: State, now: real) returns (told: seq<Entry>)
    ensures var b := Publish(a, now);
            && b.log == a.log + [Emitted(Observation(a.snapshot, now), Observed(a.tracker, a.snapshot, now).events)]
                       + told
            && AllTold(told)
            && b == a.(tracker := Observed(a.tracker, a.snapshot, now).tracker,
                       text := ObicoStateText(a.snapshot, a.text),
                       settingsSent := b.settingsSent, lastSentAt := b.lastSentAt, log := b.log)
  {
    hide Observed, ObicoStateText, MessageNow;
    var tracked := Observed(a.tracker, a.snapshot, now);
    var text := ObicoStateText(a.snapshot, a.text);
    var b := a.(tracker := tracked.tracker, text := text).Log(Emitted(Observation(a.snapshot, now), tracked.events));
    if text != a.text || tracked.events != [] || !a.settingsSent || Due(a.lastSentAt, now) {
      if tracked.events == [] {
        told := [Told(MessageNow(b, None, now), now)];
      } else {
        told := SendEventsTrace(b, tracked.events, now);
      }
    } else {
      told := [];
    }
  }

  // ── one command from start to finish ─────────────────────────────────────────────────────

  /** The log of one command: the tries with the printer's answers, a verdict when it did not take, and
      a publish. */
  ghost predicate CommandTrace(
    w: World, before: State, after: State, cmd: Command, origin: Origin,
    tries: seq<Entry>, outcome: Outcome, verdict: seq<Entry>, shown: Entry, told: seq<Entry>)
  {
    && after.log == before.log + [Executing(cmd, origin)] + tries + verdict + [shown] + told
    && Trace(cmd, tries, outcome, before.snapshot, after.snapshot)
    && Tried(cmd, tries)
    && tries != [] && tries[0].Sent?
    && 1 <= Sends(tries) <= 3 && Reads(tries) <= 15
    && (outcome == NotTaken ==> Sends(tries) == 3)
    && verdict == (
         if outcome != NotTaken then []
         else if cmd == Pause && after.snapshot.Some? && NothingExtruded(after.snapshot.value)
         then [Posted(PauseDeferred)] else [Posted(DidNotTake(cmd))])
    && shown.Emitted? && shown.seen.snapshot == after.snapshot
    && after.tracker == Observed(before.tracker, shown.seen.snapshot, shown.seen.now).tracker
    && AllTold(told)
    && Answered(w, |before.log| + 1, tries)
    && after == before.(
         tracker := after.tracker, snapshot := after.snapshot, text := after.text,
         settingsSent := after.settingsSent, lastSentAt := after.lastSentAt, pending := after.pending, log := after.log)
    && after.text == ObicoStateText(after.snapshot, before.text)
    && after.pending == (
         if verdict == [Posted(PauseDeferred)] then Some(Pause)
         else if cmd == Pause then before.pending else None)
  }

  /** A command that is not called for is not sent, and nothing is read, posted or told. */
  lemma NotCalledFor(w: World, a: State, cmd: Command, origin: Origin)
    requires a.snapshot.None? || !CallsFor(cmd, a.snapshot.value)
    ensures Execute(w, a, cmd, origin) ==
            a.(pending := if cmd == Pause then a.pending else None, log := a.log + [Executing(cmd, origin)])
  {
  }

  /** A command past the guards is sent one to three times and read back at most fifteen; it is taken
      exactly when some read-back shows the state asked for, and then no other read follows; it is
      moot exactly when none does and one shows the job gone; otherwise it was sent all three times and
      Obico is told, as a deferral exactly when it is a pause and the printer is still warming up. Last,
      whatever the outcome, the tracker and Obico get the latest snapshot. */
  lemma CommandConfirmed(w: World, a: State, cmd: Command, origin: Origin)
    requires a.snapshot.Some? && CallsFor(cmd, a.snapshot.value)
    ensures exists tries: seq<Entry>, outcome, verdict: seq<Entry>, shown, told: seq<Entry> ::
              CommandTrace(w, a, Execute(w, a, cmd, origin), cmd, origin, tries, outcome, verdict, shown, told)
  {
    hide Trace, TryCommand, Publish, Observed, ObicoStateText, Protocol;
    var b := a.(pending := if cmd == Pause then a.pending else None).Log(Executing(cmd, origin));
    var tries := TryTrace(w, cmd, MAX_COMMAND_ATTEMPTS, b.snapshot, b.log);
    var same, attempts := TryProtocol(w, cmd, MAX_COMMAND_ATTEMPTS, b.snapshot, b.log);
    assert same == tries by { assert (b.log + same)[|b.log|..] == same && (b.log + tries)[|b.log|..] == tries; }
    var tried := TryCommand(w, cmd, MAX_COMMAND_ATTEMPTS, b.snapshot, b.log);
    var c := b.(snapshot := tried.snapshot, log := tried.log);
    var d := Conclude(c, cmd, tried.outcome);
    var verdict := d.log[|c.log|..];
    var now := w.clock(|d.log|);
    var told := PublishTrace(d, now);
    var shown := Emitted(Observation(d.snapshot, now), Observed(d.tracker, d.snapshot, now).events);
    var after := Execute(w, a, cmd, origin);
    assert after == Publish(d, now);
    assert d.log == a.log + [Executing(cmd, origin)] + tries + verdict;
    assert CommandTrace(w, a, after, cmd, origin, tries, tried.outcome, verdict, shown, told);
  }
}
