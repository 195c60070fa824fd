/**
 The pause the printer ignored while warming up: when it is kept, when it is dropped, and when the
 poll loop sends it.
 */
module AgentPending {
  import opened Sequences
  import opened Snapshots
  import opened JobTracking
  import opened Sessions
  import opened ObicoStatus
  import opened Agents
  import opened AgentHistory
  import opened AgentInvariant
  import opened AgentCommands

  /** The entries added to the log between two states of a run. */
  function Since(before: State, after: State): seq<Entry> {
    if |before.log| <= |after.log| then after.log[|before.log|..] else []
  }

  predicate NoSends(log: seq<Entry>) {
    forall e | e in log :: !e.Sent?
  }

  predicate NoPollExecutions(log: seq<Entry>) {
    forall e | e in log :: !(e.Executing? && e.origin == FromPoll)
  }

  predicate NoPauseFromQueue(log: seq<Entry>) {
    forall e | e in log :: e != Executing(Pause, FromQueue)
  }

  /** Every command sent is a pause, sent while a pause from the queue is being executed. */
  ghost predicate SendsAreQueuedPauses(log: seq<Entry>) {
    forall i | 0 <= i < |log| && log[i].Sent? ::
      && log[i].cmd == Pause
      && exists j | 0 <= j < i ::
           log[j] == Executing(Pause, FromQueue) && forall k | j < k < i :: !log[k].Executing?
  }

  lemma NoSendsNorPauses(log: seq<Entry>)
    requires NoSends(log)
    ensures SendsAreQueuedPauses(log)
  {
    assert forall i | 0 <= i < |log| :: log[i] in log;
  }

  lemma QueuedPauseSends(more: seq<Entry>)
    requires forall e | e in more :: !e.Executing? && (e.Sent? ==> e.cmd == Pause)
    ensures SendsAreQueuedPauses([Executing(Pause, FromQueue)] + more)
  {
    var log := [Executing(Pause, FromQueue)] + more;
    assert log[0] == Executing(Pause, FromQueue);
    assert forall i | 1 <= i < |log| :: log[i] == more[i - 1] && more[i - 1] in more;
  }

  lemma QueuedPausesAppend(a: seq<Entry>, b: seq<Entry>)
    requires SendsAreQueuedPauses(a) && SendsAreQueuedPauses(b)
    ensures SendsAreQueuedPauses(a + b)
  {
    var log := a + b;
    forall i | 0 <= i < |log| && log[i].Sent?
      ensures log[i].cmd == Pause && exists j | 0 <= j < i ::
                log[j] == Executing(Pause, FromQueue) && forall k | j < k < i :: !log[k].Executing?
    {
      if i < |a| {
        var j :| 0 <= j < i && a[j] == Executing(Pause, FromQueue) && forall k | j < k < i :: !a[k].Executing?;
        assert log[j] == a[j] && forall k | j < k < i :: log[k] == a[k];
      } else {
        var m := i - |a|;
        assert log[i] == b[m];
        var j :| 0 <= j < m && b[j] == Executing(Pause, FromQueue) && forall k | j < k < m :: !b[k].Executing?;
        assert log[|a| + j] == b[j] && forall k | |a| + j < k < i :: log[k] == b[k - |a|];
      }
    }
  }

  // ── what each step adds ──────────────────────────────────────────────────────────────────

  lemma ExecuteTrace(w: World, a: State, cmd: Command, origin: Origin) returns (more: seq<Entry>)
    ensures Execute(w, a, cmd, origin).log == a.log + [Executing(cmd, origin)] + more
    ensures forall e | e in more :: !e.Executing? && (e.Sent? ==> e.cmd == cmd)
    ensures a.snapshot.Some? && CallsFor(cmd, a.snapshot.value) ==> more != [] && more[0].Sent? && more[0].cmd == cmd
    ensures var after := Execute(w, a, cmd, origin);
            after.pending == (if cmd == Pause then a.pending else None)
            || (cmd == Pause && after.pending == Some(Pause) &&
                after.snapshot.Some? && NothingExtruded(after.snapshot.value))
  {
    hide Execute, CommandTrace, CallsFor;
    if a.snapshot.None? || !CallsFor(cmd, a.snapshot.value) {
      NotCalledFor(w, a, cmd, origin);
      return [];
    }
    CommandConfirmed(w, a, cmd, origin);
    var tries: seq<Entry>, outcome, verdict: seq<Entry>, shown, told: seq<Entry> :|
      CommandTrace(w, a, Execute(w, a, cmd, origin), cmd, origin, tries, outcome, verdict, shown, told);
    more := TraceAdds(w, a, Execute(w, a, cmd, origin), cmd, origin, tries, outcome, verdict, shown, told);
  }

  /** Executing a command puts it on the wire exactly when the snapshot in hand shows a job, for a pause one that
      is not paused, for a resume one that is; otherwise nothing is sent, read, posted or told. */
  lemma SentExactlyWhenCalledFor(w: World, a: State, cmd: Command, origin: Origin)
    ensures var since := Since(a, Execute(w, a, cmd, origin));
            var calledFor :=
              a.snapshot.Some? &&
              var s := a.snapshot.value;
              && s.fileName != "" && s.state in {PRINTING, HEATING, BUSY, PAUSED}
              && (cmd == Pause ==> s.state != PAUSED) && (cmd == Resume ==> s.state == PAUSED);
            && since != [] && since[0] == Executing(cmd, origin)
            && (calledFor ==> |since| > 1 && since[1].Sent? && since[1].cmd == cmd)
            && (!calledFor ==> |since| == 1)
  {
    hide Execute;
    var more := ExecuteTrace(w, a, cmd, origin);
    assert Execute(w, a, cmd, origin).log == a.log + ([Executing(cmd, origin)] + more);
    assert Since(a, Execute(w, a, cmd, origin)) == [Executing(cmd, origin)] + more;
    if a.snapshot.None? || !CallsFor(cmd, a.snapshot.value) {
      NotCalledFor(w, a, cmd, origin);
    }
  }

  /** The command thread takes the oldest request and executes it. */
  lemma DrainTakesOldest(w: World, a: State)
    ensures var b := Do(w, a, DrainOne);
            && (a.commands == [] ==> b == a)
            && (a.commands != [] ==>
                  && b.commands == a.commands[1..]
                  && |b.log| > |a.log| && b.log[|a.log|] == Executing(a.commands[0], FromQueue))
  {
    hide Execute;
    if a.commands != [] {
      var next := a.(commands := a.commands[1..]);
      var more := ExecuteTrace(w, next, a.commands[0], FromQueue);
      assert Execute(w, next, a.commands[0], FromQueue).log == a.log + ([Executing(a.commands[0], FromQueue)] + more);
      CommandsStay(w, next, a.commands[0], FromQueue);
    }
  }

  lemma CommandsStay(w: World, a: State, cmd: Command, origin: Origin)
    ensures Execute(w, a, cmd, origin).commands == a.commands
  {
    hide Execute, CallsFor, Trace, Tried;
    if a.snapshot.None? || !CallsFor(cmd, a.snapshot.value) {
      NotCalledFor(w, a, cmd, origin);
    } else {
      CommandConfirmed(w, a, cmd, origin);
    }
  }

  lemma TraceAdds(w: World, before: State, after: State, cmd: Command, origin: Origin, tries: seq<Entry>,
                  outcome: Outcome, verdict: seq<Entry>, shown: Entry, told: seq<Entry>)
    returns (more: seq<Entry>)
    requires CommandTrace(w, before, after, cmd, origin, tries, outcome, verdict, shown, told)
    ensures after.log == before.log + [Executing(cmd, origin)] + more
    ensures forall e | e in more :: !e.Executing? && (e.Sent? ==> e.cmd == cmd)
    ensures more != [] && more[0].Sent? && more[0].cmd == cmd
    ensures after.pending == (if cmd == Pause then before.pending else None)
            || (cmd == Pause && after.pending == Some(Pause) &&
                after.snapshot.Some? && NothingExtruded(after.snapshot.value))
  {
    hide Trace, Tried, Sends, Reads, ObicoStateText, Observed, Answered;
    TriesOnTheWire(cmd, tries, outcome, before.snapshot, after.snapshot);
    more := tries + verdict + [shown] + told;
    assert after.log == before.log + [Executing(cmd, origin)] + more;
  }

  lemma TriesOnTheWire(cmd: Command, tries: seq<Entry>, outcome: Outcome,
                       before: Option<Snapshot>, after: Option<Snapshot>)
    requires Trace(cmd, tries, outcome, before, after)
    ensures forall e | e in tries :: !e.Executing? && (e.Sent? ==> e.cmd == cmd)
  {
  }

  /** The second entry of the log is its only publish. */
  predicate OnlyShows(log: seq<Entry>, seen: Observation) {
    |log| > 1 && log[1].Emitted? && log[1].seen == seen && forall k | 0 <= k < |log| && k != 1 :: !log[k].Emitted?
  }

  lemma OneShown(read: Entry, shown: Entry, told: seq<Entry>, fault: seq<Entry>)
    requires read.Read? && shown.Emitted? && AllTold(told) && forall e | e in fault :: e.Posted?
    ensures OnlyShows([read] + [shown] + told + fault, shown.seen)
  {
    var more := [read] + [shown] + told + fault;
    assert more == [read] + [shown] + (told + fault);
    assert forall k | 2 <= k < |more| :: more[k] == (told + fault)[k - 2] && more[k] in told + fault;
  }

  /** A poll up to where it serves the pending intent. */
  lemma PollPrelude(w: World, a: State) returns (b: State, more: seq<Entry>)
    requires w.detail(|a.log|).Some? || a.failures + 1 >= OFFLINE_AFTER_FAILURES
    ensures PollOnce(w, a) == ServicePending(w, b)
    ensures b.log == a.log + more && b.pending == a.pending && b.snapshot == w.detail(|a.log|)
    ensures forall e | e in more :: !e.Sent? && !e.Executing?
    ensures exists now: real :: OnlyShows(more, Observation(w.detail(|a.log|), now))
    ensures var s := w.detail(|a.log|);
            s.Some? && s.value.errorCode != "" && s.value.errorCode !in a.faultsReported ==>
              Posted(Fault(s.value.errorCode)) in more
  {
    hide Publish, ServicePending, Observed, ObicoStateText;
    var (c, goOn) := ReadPrinter(w, a);
    var now := w.clock(|c.log|);
    var told := PublishTrace(c, now);
    var d := Publish(c, now);
    b := ReportFault(d);
    more := b.log[|a.log|..];
    var shown := Emitted(Observation(c.snapshot, now), Observed(c.tracker, c.snapshot, now).events);
    var fault := b.log[|d.log|..];
    assert b.log == a.log + ([Read(w.detail(|a.log|), true)] + [shown] + told + fault);
    OneShown(Read(w.detail(|a.log|), true), shown, told, fault);
  }

  lemma FailedPoll(w: World, a: State)
    requires w.detail(|a.log|).None? && a.failures + 1 < OFFLINE_AFTER_FAILURES
    ensures PollOnce(w, a).log == a.log + [Read(None, true)] && PollOnce(w, a).pending == a.pending
  {
  }

  // ── polls and the pending pause ──────────────────────────────────────────────────────────

  /** After a poll that read the printer, a pause is pending only for a printer still warming up. */
  lemma PollSettlesPending(w: World, a: State)
    requires a.pending.None? || a.pending == Some(Pause)
    requires w.detail(|a.log|).Some?
    ensures var b := PollOnce(w, a);
            b.pending.Some? ==> b.pending == Some(Pause) && b.snapshot.Some? && NothingExtruded(b.snapshot.value)
  {
    hide PollOnce, Execute;
    var b, more := PollPrelude(w, a);
    if b.pending.Some? {
      var s := b.snapshot.value;
      if s.HasJob() && !s.IsPaused() && !s.WarmingUp() {
        var _ := ExecuteTrace(w, b.(pending := None), Pause, FromPoll);
      }
    }
  }

  /** A poll that fails, or finds the printer still warming up, sends nothing and keeps the intent. */
  lemma {:induction false} QuietPoll(w: World, a: State)
    requires var reply := w.detail(|a.log|); reply.Some? ==> NothingExtruded(reply.value)
    ensures var b := PollOnce(w, a);
            && a.log <= b.log && NoSends(Since(a, b)) && NoPollExecutions(Since(a, b))
            && b.pending == a.pending
  {
    hide PollOnce;
    if w.detail(|a.log|).None? && a.failures + 1 < OFFLINE_AFTER_FAILURES {
      FailedPoll(w, a);
      assert Since(a, PollOnce(w, a)) == [Read(None, true)];
    } else {
      var b, more := PollPrelude(w, a);
      assert b.log[|a.log|..] == more;
    }
  }

  /** A job that is not paused and of which something has been extruded: time printed, or a layer. */
  predicate Extruding(s: Snapshot) {
    InJob(s) && s.state != PAUSED && (s.durationS != 0 || (s.layer.Some? && s.layer.value != 0))
  }

  /** The poll sends the pause, first of all. */
  ghost predicate SendsPause(a: State, b: State) {
    var since := Since(a, b);
    exists i | 0 <= i < |since| - 1 ::
      && since[i] == Executing(Pause, FromPoll)
      && since[i + 1].Sent? && since[i + 1].cmd == Pause
      && NoSends(since[..i])
  }

  /** A poll that finds the job extruding and not paused sends the pending pause, first of all. */
  lemma ExtrudingPoll(w: World, a: State)
    requires a.pending == Some(Pause)
    requires var reply := w.detail(|a.log|);
             reply.Some? && Extruding(reply.value)
    ensures var b := PollOnce(w, a);
            a.log <= b.log && SendsPause(a, b)
  {
    hide PollOnce, Execute;
    var b, more := PollPrelude(w, a);
    var rest := ExecuteTrace(w, b.(pending := None), Pause, FromPoll);
    var after := PollOnce(w, a);
    assert after.log == a.log + (more + [Executing(Pause, FromPoll)] + rest);
    assert Since(a, after) == more + [Executing(Pause, FromPoll)] + rest;
    var since, i := Since(a, after), |more|;
    assert since[i] == Executing(Pause, FromPoll) && since[i + 1] == rest[0];
    assert since[..i] == more;
  }

  /** A poll gives the pending pause up without sending it exactly when the snapshot it reads has no job,
      an unfamiliar state counting as none, or is paused already. */
  lemma PollDropsExactly(w: World, a: State)
    requires a.pending == Some(Pause) && w.detail(|a.log|).Some?
    ensures var b, s := PollOnce(w, a), w.detail(|a.log|).value;
            (b.pending.None? && NoSends(Since(a, b))) <==> !InJob(s) || s.state == PAUSED
  {
    hide PollOnce, Execute;
    var s := w.detail(|a.log|).value;
    if s.WarmingUp() {
      QuietPoll(w, a);
    } else if s.HasJob() && !s.IsPaused() {
      ExtrudingPoll(w, a);
      var since := Since(a, PollOnce(w, a));
      var i :| 0 <= i < |since| - 1 && since[i] == Executing(Pause, FromPoll) && since[i + 1].Sent?;
      assert since[i + 1] in since;
    } else {
      var b, more := PollPrelude(w, a);
      assert Since(a, PollOnce(w, a)) == more;
    }
  }

  /** Steps that leave a deferred pause deferred: polls that fail or find the printer warming up, requests
      of any kind, and pauses executed from the queue. Only a resume or a cancel calls it off. */
  predicate Quiet(w: World, a: State, step: Step) {
    match step
    case Poll => var reply := w.detail(|a.log|); reply.Some? ==> NothingExtruded(reply.value)
    case DrainOne => a.commands == [] || a.commands[0] == Pause
    case _ => true
  }

  predicate AllQuiet(w: World, a: State, steps: seq<Step>)
    decreases |steps|
  {
    steps == [] || (Quiet(w, a, steps[0]) && AllQuiet(w, Do(w, a, steps[0]), steps[1..]))
  }

  lemma {:induction false} HandleAddsRequests(a: State, cmds: seq<string>) returns (more: seq<Entry>)
    ensures var b := HandleCommands(a, cmds);
            b.log == a.log + more && b.pending == a.pending
    ensures forall e | e in more :: e.Requested?
    decreases |cmds|
  {
    if cmds == [] {
      return [];
    }
    var cmd := CommandOf(cmds[0]);
    if cmd.None? {
      more := HandleAddsRequests(a, cmds[1..]);
    } else {
      var next := Enqueue(a, cmd.value, FromServer);
      var rest := HandleAddsRequests(next, cmds[1..]);
      var e := Requested(cmd.value, FromServer);
      Associative(a.log, [e], rest);
      more := [e] + rest;
    }
  }

  lemma StartFileAdds(w: World, a: State, fileName: string) returns (more: seq<Entry>)
    ensures var b := StartFile(w, a, fileName);
            b == a.(log := a.log + more) && forall e | e in more :: e.Printed?
  {
    more := StartFile(w, a, fileName).log[|a.log|..];
    assert a.log + more == StartFile(w, a, fileName).log;
  }

  lemma QuietStep(w: World, a: State, step: Step)
    requires a.pending == Some(Pause) && Quiet(w, a, step)
    ensures var b := Do(w, a, step);
            && a.log <= b.log && b.pending == Some(Pause) && NoPollExecutions(Since(a, b))
            && SendsAreQueuedPauses(Since(a, b))
  {
    hide PollOnce, HandleCommands, Execute, StartFile, SendsAreQueuedPauses;
    if !step.DrainOne? || a.commands == [] {
      OtherStepIsQuiet(w, a, step);
      NoSendsNorPauses(Since(a, Do(w, a, step)));
    } else {
      var b := a.(commands := a.commands[1..]);
      var more := ExecuteTrace(w, b, Pause, FromQueue);
      var after := Execute(w, b, Pause, FromQueue);
      assert after.log == a.log + ([Executing(Pause, FromQueue)] + more);
      assert Since(a, after) == [Executing(Pause, FromQueue)] + more;
      QueuedPauseSends(more);
    }
  }

  lemma OtherStepIsQuiet(w: World, a: State, step: Step)
    requires Quiet(w, a, step) && (step.DrainOne? ==> a.commands == [])
    ensures var b := Do(w, a, step);
            && a.log <= b.log && b.pending == a.pending && NoPollExecutions(Since(a, b)) && NoSends(Since(a, b))
  {
    hide PollOnce, HandleCommands, Execute, StartFile;
    match step
    case Poll => QuietPoll(w, a);
    case DrainOne =>
    case Console(cmd) =>
    case Server(cmds) =>
      var more := HandleAddsRequests(a, cmds);
      assert Since(a, HandleCommands(a, cmds)) == more;
    case StartOf(fileName) =>
      var more := StartFileAdds(w, a, fileName);
      assert Since(a, StartFile(w, a, fileName)) == more;
  }

  lemma SinceChain(a: State, b: State, c: State)
    requires a.log <= b.log <= c.log
    ensures a.log <= c.log && Since(a, c) == Since(a, b) + Since(b, c)
  {
  }

  /** However long the printer stays unreachable or warming up, and whatever further pauses are executed
      from the queue meanwhile, the pause stays pending, the poll loop executes nothing, and every command
      sent is a pause sent by one of those; the first later poll that finds the job extruding and not paused
      sends it. */
  lemma {:induction false} DeferredPauseIsSent(w: World, a: State, steps: seq<Step>)
    requires a.pending == Some(Pause) && AllQuiet(w, a, steps)
    ensures var b := Run(w, a, steps);
            && a.log <= b.log && b.pending == Some(Pause) && NoPollExecutions(Since(a, b))
            && SendsAreQueuedPauses(Since(a, b))
            && (var reply := w.detail(|b.log|);
                reply.Some? && Extruding(reply.value) ==>
                  SendsPause(b, PollOnce(w, b)))
    decreases |steps|
  {
    hide Do, Quiet, PollOnce, SendsAreQueuedPauses;
    if steps == [] {
      NoSendsNorPauses(Since(a, a));
      var reply := w.detail(|a.log|);
      if reply.Some? && Extruding(reply.value) {
        ExtrudingPoll(w, a);
      }
    } else {
      var next := Do(w, a, steps[0]);
      var b := Run(w, next, steps[1..]);
      QuietStep(w, a, steps[0]);
      DeferredPauseIsSent(w, next, steps[1..]);
      SinceChain(a, next, b);
      QueuedPausesAppend(Since(a, next), Since(next, b));
    }
  }

  // ── a resume or cancel drops the intent ──────────────────────────────────────────────────

  lemma StepWithoutIntent(w: World, a: State, step: Step)
    requires a.pending.None?
    ensures var b := Do(w, a, step);
            && a.log <= b.log && NoPollExecutions(Since(a, b))
            && (NoPauseFromQueue(Since(a, b)) ==> b.pending.None?)
  {
    hide PollOnce, HandleCommands, Execute, StartFile;
    match step
    case Poll =>
      if w.detail(|a.log|).None? && a.failures + 1 < OFFLINE_AFTER_FAILURES {
        FailedPoll(w, a);
        assert Since(a, PollOnce(w, a)) == [Read(None, true)];
      } else {
        var b, more := PollPrelude(w, a);
        assert Since(a, b) == more;
      }
    case DrainOne =>
      if a.commands != [] {
        var b := a.(commands := a.commands[1..]);
        var cmd := a.commands[0];
        var more := ExecuteTrace(w, b, cmd, FromQueue);
        var after := Execute(w, b, cmd, FromQueue);
        assert after.log == a.log + ([Executing(cmd, FromQueue)] + more);
        assert Since(a, after) == [Executing(cmd, FromQueue)] + more;
        assert Since(a, after)[0] == Executing(cmd, FromQueue);
        assert Executing(cmd, FromQueue) in Since(a, after);
      }
    case Console(cmd) =>
    case Server(cmds) =>
      var more := HandleAddsRequests(a, cmds);
      assert Since(a, HandleCommands(a, cmds)) == more;
    case StartOf(fileName) =>
      var more := StartFileAdds(w, a, fileName);
      assert Since(a, StartFile(w, a, fileName)) == more;
  }

  lemma {:induction false} RunWithoutIntent(w: World, a: State, steps: seq<Step>)
    requires a.pending.None?
    requires NoPauseFromQueue(Since(a, Run(w, a, steps)))
    ensures var b := Run(w, a, steps);
            a.log <= b.log && NoPollExecutions(Since(a, b)) && b.pending.None?
    decreases |steps|
  {
    hide Do;
    if steps != [] {
      var next := Do(w, a, steps[0]);
      StepWithoutIntent(w, a, steps[0]);
      RunGrows(w, next, steps[1..]);
      SinceChain(a, next, Run(w, next, steps[1..]));
      assert forall e | e in Since(a, next) :: e in Since(a, Run(w, a, steps));
      assert forall e | e in Since(next, Run(w, next, steps[1..])) :: e in Since(a, Run(w, a, steps));
      RunWithoutIntent(w, next, steps[1..]);
    }
  }

  lemma {:induction false} RunGrows(w: World, a: State, steps: seq<Step>)
    ensures a.log <= Run(w, a, steps).log
    decreases |steps|
  {
    hide Do;
    if steps != [] {
      DoGrows(w, a, steps[0]);
      RunGrows(w, Do(w, a, steps[0]), steps[1..]);
    }
  }

  lemma DoGrows(w: World, a: State, step: Step)
    ensures a.log <= Do(w, a, step).log
  {
    hide PollOnce, HandleCommands, Execute, StartFile;
    match step
    case Poll =>
      if w.detail(|a.log|).None? && a.failures + 1 < OFFLINE_AFTER_FAILURES {
        FailedPoll(w, a);
      } else {
        var b, more := PollPrelude(w, a);
        if b.pending.Some? && b.snapshot.Some? {
          var _ := ExecuteTrace(w, b.(pending := None), b.pending.value, FromPoll);
        }
      }
    case DrainOne =>
      if a.commands != [] {
        var _ := ExecuteTrace(w, a.(commands := a.commands[1..]), a.commands[0], FromQueue);
      }
    case Console(cmd) =>
    case Server(cmds) =>
      var _ := HandleAddsRequests(a, cmds);
    case StartOf(fileName) =>
      var _ := StartFileAdds(w, a, fileName);
  }

  /** Once a resume or cancel has been executed, whatever came of it, no poll executes anything until
      another pause has been executed from the queue. */
  lemma DroppedPauseStaysDropped(w: World, a: State, cmd: Command, steps: seq<Step>)
    requires cmd == Resume || cmd == Cancel
    requires var b := Execute(w, a, cmd, FromQueue); NoPauseFromQueue(Since(b, Run(w, b, steps)))
    ensures var b := Execute(w, a, cmd, FromQueue);
            var c := Run(w, b, steps);
            b.log <= c.log && NoPollExecutions(Since(b, c)) && c.pending.None?
  {
    hide Execute, Run;
    var _ := ExecuteTrace(w, a, cmd, FromQueue);
    RunWithoutIntent(w, Execute(w, a, cmd, FromQueue), steps);
  }

  /** In every run, after a poll that read the printer, a pause is pending only while it warms up. */
  lemma {:induction false} PendingMeansWarmingUp(w: World, steps: seq<Step>)
    requires w.detail(|Run(w, START, steps).log|).Some?
    ensures var b := Do(w, Run(w, START, steps), Poll);
            b.pending.Some? ==> b.pending == Some(Pause) && b.snapshot.Some? && NothingExtruded(b.snapshot.value)
  {
    hide Run, PollOnce, Sound, Recall, BulletinFits;
    StartConsistent(w);
    RunConsistent(w, START, steps);
    PollSettlesPending(w, Run(w, START, steps));
  }
}
