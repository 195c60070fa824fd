/**
 A deferred pause is tied to no job: when it reaches the job it was meant for.
 */
module AgentDeferral {
  import opened Sequences
  import opened Snapshots
  import opened JobTracking
  import opened Sessions
  import opened GcodeFiles
  import opened ObicoStatus
  import opened Agents
  import opened AgentHistory
  import opened AgentInvariant
  import opened AgentTheorems
  import opened AgentCommands
  import opened AgentPending

  // ── the job the agent goes by is the one it tracks ───────────────────────────────────────

  predicate Tracks(a: State) {
    a.snapshot.Some? && InJob(a.snapshot.value) ==> a.tracker.activeFile == Some(a.snapshot.value.fileName)
  }

  lemma PublishTracks(a: State, now: real)
    ensures Tracks(Publish(a, now))
  {
    var _ := PublishTrace(a, now);
  }

  lemma ExecuteTracks(w: World, a: State, cmd: Command, origin: Origin)
    requires Tracks(a)
    ensures Tracks(Execute(w, a, cmd, origin))
  {
    hide CallsFor, Execute, Trace, Tried;
    if a.snapshot.Some? && CallsFor(cmd, a.snapshot.value) {
      CommandConfirmed(w, a, cmd, origin);
    } else {
      NotCalledFor(w, a, cmd, origin);
    }
  }

  lemma PollTracks(w: World, a: State)
    requires Tracks(a)
    ensures Tracks(PollOnce(w, a))
  {
    hide Publish, Execute;
    var (b, goOn) := ReadPrinter(w, a);
    if goOn {
      var now := w.clock(|b.log|);
      PublishTracks(b, now);
      var c := ReportFault(Publish(b, now));
      if c.pending.Some? && c.snapshot.Some? {
        ExecuteTracks(w, c.(pending := None), c.pending.value, FromPoll);
      }
    }
  }

  lemma {:induction false} HandleTracks(a: State, cmds: seq<string>)
    requires Tracks(a)
    ensures Tracks(HandleCommands(a, cmds))
    decreases |cmds|
  {
    if cmds != [] {
      var cmd := CommandOf(cmds[0]);
      HandleTracks(if cmd.Some? then Enqueue(a, cmd.value, FromServer) else a, cmds[1..]);
    }
  }

  lemma DoTracks(w: World, a: State, step: Step)
    requires Tracks(a)
    ensures Tracks(Do(w, a, step))
  {
    hide PollOnce, HandleCommands, Execute, StartFile;
    match step
    case Poll => PollTracks(w, a);
    case DrainOne =>
      if a.commands != [] {
        ExecuteTracks(w, a.(commands := a.commands[1..]), a.commands[0], FromQueue);
      }
    case Console(cmd) =>
    case Server(cmds) => HandleTracks(a, cmds);
    case StartOf(fileName) =>
      var _ := StartFileAdds(w, a, fileName);
  }

  lemma {:induction false} RunTracks(w: World, a: State, steps: seq<Step>)
    requires Tracks(a)
    ensures Tracks(Run(w, a, steps))
    decreases |steps|
  {
    hide Do, Tracks;
    if steps != [] {
      DoTracks(w, a, steps[0]);
      RunTracks(w, Do(w, a, steps[0]), steps[1..]);
    }
  }

  /** In every run, while the snapshot the agent goes by shows a job, the open session is that job's. */
  lemma SnapshotIsTracked(w: World, steps: seq<Step>)
    requires var a := Run(w, START, steps); a.snapshot.Some? && InJob(a.snapshot.value)
    ensures var a := Run(w, START, steps); a.tracker.activeFile == Some(a.snapshot.value.fileName)
  {
    hide Run;
    RunTracks(w, START, steps);
  }

  // ── the events of a stretch of the log ───────────────────────────────────────────────────

  function EmittedEvents(log: seq<Entry>): seq<Event> {
    if log == [] then []
    else EmittedEvents(log[..|log| - 1]) + if Last(log).Emitted? then Last(log).events else []
  }

  lemma {:induction false} StretchAppend(a: seq<Entry>, b: seq<Entry>)
    ensures Shown(a + b) == Shown(a) + Shown(b)
    ensures EmittedEvents(a + b) == EmittedEvents(a) + EmittedEvents(b)
    decreases |b|
  {
    if b == [] {
      assert a + b == a;
    } else {
      var front := b[..|b| - 1];
      assert (a + b)[..|a + b| - 1] == a + front && Last(a + b) == Last(b);
      StretchAppend(a, front);
      var events := if Last(b).Emitted? then Last(b).events else [];
      Associative(EmittedEvents(a), EmittedEvents(front), events);
    }
  }

  lemma {:induction false} EmittedByTracker(w: World, log: seq<Entry>, i: nat)
    requires Sound(w, log) && i <= |log|
    ensures EmittedEvents(log[..i]) == Track(IDLE, Shown(log[..i])).events
    decreases i
  {
    hide Sound, Track, Recall;
    if i > 0 {
      var front, e := log[..i - 1], log[i - 1];
      assert log[..i][..i - 1] == front;
      EmittedByTracker(w, log, i - 1);
      assert EntryOk(w, i - 1, Recall(front), e) by { EntrySound(w, log, i - 1); }
      ToldRecalled(front);
      if e.Emitted? {
        TrackSnoc(Shown(front), e.seen);
      } else {
        assert Shown(front) + [] == Shown(front) && EmittedEvents(front) + [] == EmittedEvents(front);
      }
    } else {
      assert Track(IDLE, []).events == [] by { TrackNothing(); }
    }
  }

  lemma EntrySound(w: World, log: seq<Entry>, i: nat)
    requires Sound(w, log) && i < |log|
    ensures EntryOk(w, i, Recall(log[..i]), log[i])
  {
  }

  lemma TrackNothing()
    ensures Track(IDLE, []) == Tracked(IDLE, [])
  {
  }

  /** What a stretch of a sound log emits is what the tracker makes of what it is shown in that stretch. */
  lemma StretchByTracker(w: World, log: seq<Entry>, m: nat, n: nat)
    requires Sound(w, log) && m <= n <= |log|
    ensures EmittedEvents(log[m..n]) == Track(Track(IDLE, Shown(log[..m])).tracker, Shown(log[m..n])).events
  {
    hide Sound, Track, EmittedEvents, Shown;
    EmittedByTracker(w, log, m);
    EmittedByTracker(w, log, n);
    assert log[..n] == log[..m] + log[m..n];
    StretchAppend(log[..m], log[m..n]);
    TrackAppend(IDLE, Shown(log[..m]), Shown(log[m..n]));
    var first := Track(IDLE, Shown(log[..m])).events;
    var second := Track(Track(IDLE, Shown(log[..m])).tracker, Shown(log[m..n])).events;
    assert (first + second)[|first|..] == second;
    assert (first + EmittedEvents(log[m..n]))[|first|..] == EmittedEvents(log[m..n]);
  }

  // ── one session or another ───────────────────────────────────────────────────────────────

  predicate ShowsJobOn(o: Observation, file: string) {
    o.snapshot.Some? && o.snapshot.value.state != UNKNOWN ==>
      InJob(o.snapshot.value) && o.snapshot.value.fileName == file
  }

  predicate EndsInJob(shown: seq<Observation>) {
    shown != [] && Last(shown).snapshot.Some? && InJob(Last(shown).snapshot.value)
  }

  lemma {:induction false} IdleMustStart(t: Tracker, shown: seq<Observation>)
    requires t.activeFile.None? && EndsInJob(shown)
    ensures PrintStarted in Track(t, shown).events
    decreases |shown|
  {
    var first := Observed(t, shown[0].snapshot, shown[0].now);
    if |shown| > 1 && first.tracker.activeFile.None? {
      LastOfTail(shown);
      IdleMustStart(first.tracker, shown[1..]);
    }
  }

  /** Up to a snapshot with a job, no session is started exactly when every readable snapshot shows a job on
      the file of the session that is open. */
  lemma {:induction false} NoStartExactly(t: Tracker, shown: seq<Observation>, file: string)
    requires t.activeFile == Some(file) && EndsInJob(shown)
    ensures PrintStarted !in Track(t, shown).events <==> forall o | o in shown :: ShowsJobOn(o, file)
    decreases |shown|
  {
    var o, rest := shown[0], shown[1..];
    var first := Observed(t, o.snapshot, o.now);
    assert shown == [o] + rest;
    if ShowsJobOn(o, file) {
      assert first.tracker.activeFile == Some(file) && PrintStarted !in first.events;
      if rest != [] {
        LastOfTail(shown);
        NoStartExactly(first.tracker, rest, file);
      }
    } else if !InJob(o.snapshot.value) {
      LastOfTail(shown);
      IdleMustStart(first.tracker, rest);
    } else {
      assert PrintStarted in first.events;
    }
  }

  // ── where a deferred pause goes ──────────────────────────────────────────────────────────

  lemma {:induction false} ShownNothing(log: seq<Entry>)
    requires forall k | 0 <= k < |log| :: !log[k].Emitted?
    ensures Shown(log) == []
  {
    if log != [] {
      ShownNothing(log[..|log| - 1]);
    }
  }

  lemma ShownOnce(log: seq<Entry>, seen: Observation)
    requires OnlyShows(log, seen)
    ensures Shown(log) == [seen]
  {
    assert log == log[..1] + [log[1]] + log[2..];
    StretchAppend(log[..1] + [log[1]], log[2..]);
    StretchAppend(log[..1], [log[1]]);
    ShownNothing(log[..1]);
    ShownNothing(log[2..]);
    assert [log[1]][..0] == [];
    assert Shown([log[1]]) == Shown([]) + [seen];
  }

  /** Position `i` of the log is where the poll loop sends the deferred pause. */
  predicate SendsDeferred(log: seq<Entry>, i: nat) {
    && i + 1 < |log| && log[i] == Executing(Pause, FromPoll) && log[i + 1].Sent? && log[i + 1].cmd == Pause
    && NoPollExecutions(log[..i])
  }

  /** A pause deferred while a session is open, and sent however much later by the first poll that finds a job
      extruding, goes to that very session exactly when every readable snapshot published in between, the one
      it is sent on included, shows a job on the session's file. Otherwise another session has been
      started, and it is that one's job which is paused. */
  lemma DeferredPauseMeetsItsJobExactly(w: World, before: seq<Step>, steps: seq<Step>)
    requires var a := Run(w, START, before);
             && a.pending == Some(Pause) && a.tracker.activeFile.Some? && AllQuiet(w, a, steps)
             && (var reply := w.detail(|Run(w, a, steps).log|);
                 reply.Some? && Extruding(reply.value))
    ensures var a := Run(w, START, before);
            var since := Since(a, PollOnce(w, Run(w, a, steps)));
            exists i: nat ::
              && SendsDeferred(since, i) && Shown(since[..i]) != []
              && Last(Shown(since[..i])).snapshot == w.detail(|Run(w, a, steps).log|)
              && (PrintStarted !in EmittedEvents(since[..i]) <==>
                    forall o | o in Shown(since[..i]) :: ShowsJobOn(o, a.tracker.activeFile.value))
  {
    hide Run, PollOnce, AllQuiet, Track, SendsDeferred;
    var a := Run(w, START, before);
    var stretch := UpToTheSend(w, a, steps);
    var since := Since(a, PollOnce(w, Run(w, a, steps)));
    assert since[..|stretch|] == stretch && SendsDeferred(since, |stretch|);
    EventsSince(w, before, steps, stretch);
    NoStartExactly(a.tracker, Shown(stretch), a.tracker.activeFile.value);
  }

  lemma UpToTheSend(w: World, a: State, steps: seq<Step>) returns (stretch: seq<Entry>)
    requires a.pending == Some(Pause) && AllQuiet(w, a, steps)
    requires var reply := w.detail(|Run(w, a, steps).log|);
             reply.Some? && Extruding(reply.value)
    ensures var after := PollOnce(w, Run(w, a, steps));
            && a.log <= after.log && stretch <= Since(a, after) && SendsDeferred(Since(a, after), |stretch|)
    ensures EndsInJob(Shown(stretch)) && Last(Shown(stretch)).snapshot == w.detail(|Run(w, a, steps).log|)
  {
    hide Run, PollOnce, AllQuiet, Execute, SendsAreQueuedPauses, SendsPause, SendsDeferred, Shown;
    var b := Run(w, a, steps);
    DeferredPauseIsSent(w, a, steps);
    var c, more := PollPrelude(w, b);
    var rest := ExecuteTrace(w, c.(pending := None), Pause, FromPoll);
    var after := PollOnce(w, b);
    var quiet := Since(a, b);
    stretch := quiet + more;
    SendFollows(stretch, rest);
    var sent := [Executing(Pause, FromPoll)] + rest;
    assert after.log == a.log + (stretch + sent);
    assert Since(a, after) == stretch + sent;
    var now: real :| OnlyShows(more, Observation(w.detail(|b.log|), now));
    ShownOnce(more, Observation(w.detail(|b.log|), now));
    StretchAppend(quiet, more);
  }

  lemma SendFollows(stretch: seq<Entry>, rest: seq<Entry>)
    requires NoPollExecutions(stretch) && rest != [] && rest[0].Sent? && rest[0].cmd == Pause
    ensures SendsDeferred(stretch + ([Executing(Pause, FromPoll)] + rest), |stretch|)
  {
    var log := stretch + ([Executing(Pause, FromPoll)] + rest);
    assert log[..|stretch|] == stretch && log[|stretch| + 1] == rest[0];
  }

  /** What a run and the poll that follows emit, up to any point of it. */
  lemma EventsSince(w: World, before: seq<Step>, steps: seq<Step>, stretch: seq<Entry>)
    requires var a := Run(w, START, before); stretch <= Since(a, PollOnce(w, Run(w, a, steps)))
    requires var a := Run(w, START, before); a.log <= PollOnce(w, Run(w, a, steps)).log
    ensures var a := Run(w, START, before);
            EmittedEvents(stretch) == Track(a.tracker, Shown(stretch)).events
  {
    hide Run, PollOnce, Sound, Recall, Track, Known, Tells, TextAfter;
    var a := Run(w, START, before);
    var after := PollOnce(w, Run(w, a, steps));
    StartConsistent(w);
    RunConsistent(w, START, before);
    RunConsistent(w, a, steps);
    PollConsistent(w, Run(w, a, steps));
    ToldRecalled(a.log);
    var m, n := |a.log|, |a.log| + |stretch|;
    assert after.log[..m] == a.log && after.log[m..n] == stretch;
    StretchByTracker(w, after.log, m, n);
  }

  // ── a run in which it pauses the wrong job ───────────────────────────────────────────────

  const HEATING_UP := Snapshot(PRINTING, "a", 0.0, 0, None, "")
  const ANOTHER_JOB := Snapshot(PRINTING, "b", 0.1, 60, Some(1), "")

  /** A printer that accepts everything, shows one job warming up, cannot be read twice, and then prints
      another file. */
  const CHANGED_OVER := World(
    (n: nat) => if n < 25 then Some(HEATING_UP) else if n < 27 then None else Some(ANOTHER_JOB), (n: nat) => true,
    (n: nat) => Unreachable, (n: nat) => 1.0,
    Numbers((text: string) => None, (text: string) => None, (n: int) => n as real))

  lemma {:induction false} ReadsIgnored(w: World, left: nat, s: Snapshot, log: seq<Entry>)
    requires NothingExtruded(s) && forall n | |log| <= n < |log| + left :: w.detail(n) == Some(s)
    ensures var r := ReadBack(w, Pause, left, Some(s), log);
            r.outcome == NotTaken && r.snapshot == Some(s) && |r.log| == |log| + left
    decreases left
  {
    if left > 0 {
      ReadsIgnored(w, left - 1, s, log + [Read(Some(s), false)]);
    }
  }

  lemma {:induction false} TriesIgnored(w: World, left: nat, s: Snapshot, log: seq<Entry>)
    requires NothingExtruded(s)
    requires forall n | |log| <= n < |log| + 6 * left :: w.detail(n) == Some(s) && w.accepts(n)
    ensures var r := TryCommand(w, Pause, left, Some(s), log);
            r.outcome == NotTaken && r.snapshot == Some(s) && |r.log| == |log| + 6 * left
    decreases left
  {
    hide ReadBack;
    if left > 0 {
      var log' := log + [Sent(Pause, true)];
      ReadsIgnored(w, READBACK_ATTEMPTS, s, log');
      TriesIgnored(w, left - 1, s, ReadBack(w, Pause, READBACK_ATTEMPTS, Some(s), log').log);
    }
  }

  lemma PauseIgnored(w: World, a: State, s: Snapshot)
    requires a.snapshot == Some(s) && NothingExtruded(s)
    requires forall n | |a.log| < n < |a.log| + 19 :: w.detail(n) == Some(s) && w.accepts(n)
    ensures exists log: seq<Entry> ::
              |log| == |a.log| + 20 &&
              Execute(w, a, Pause, FromQueue) == Publish(a.(pending := Some(Pause), log := log), w.clock(|log|))
  {
    hide TryCommand, Publish;
    var log := a.log + [Executing(Pause, FromQueue)];
    TriesIgnored(w, MAX_COMMAND_ATTEMPTS, s, log);
    var tried := TryCommand(w, Pause, MAX_COMMAND_ATTEMPTS, Some(s), log);
    var c := a.(pending := Some(Pause), log := tried.log + [Posted(PauseDeferred)]);
    assert Execute(w, a, Pause, FromQueue) == Publish(c, w.clock(|c.log|));
  }

  /** Nothing new to publish. */
  lemma NothingNew(a: State, s: Snapshot, now: real)
    requires a.snapshot == Some(s) && InJob(s) && s.state != PAUSED
    requires a.tracker.activeFile == Some(s.fileName) && !a.tracker.paused && a.text == Printing
    requires a.settingsSent && a.lastSentAt == Some(now)
    ensures var b := Publish(a, now);
            |b.log| == |a.log| + 1 && b.pending == a.pending && b.tracker.activeFile == a.tracker.activeFile
            && b.failures == a.failures && b.commands == a.commands
  {
  }

  lemma FirstPoll()
    ensures var a := PollOnce(CHANGED_OVER, START);
            && |a.log| == 3 && a.snapshot == Some(HEATING_UP) && a.failures == 0 && a.pending.None?
            && a.tracker.activeFile == Some("a") && !a.tracker.paused && a.text == Printing
            && a.settingsSent && a.lastSentAt == Some(1.0) && a.commands == []
  {
  }

  /** Up to the deferral: one poll, a pause from the console, and its execution. */
  lemma DeferredForFirst()
    ensures var a := Run(CHANGED_OVER, START, [Poll, Console("pause"), DrainOne]);
            && |a.log| == 25 && a.pending == Some(Pause) && a.tracker.activeFile == Some("a") && a.failures == 0
  {
    hide PollOnce, Execute, Publish;
    var w := CHANGED_OVER;
    var a := PollOnce(w, START);
    FirstPoll();
    var b := a.(commands := [], log := a.log + [Requested(Pause, FromConsole)]);
    var c := Execute(w, b, Pause, FromQueue);
    PauseIgnored(w, b, HEATING_UP);
    var log: seq<Entry> :| |log| == |b.log| + 20 && c == Publish(b.(pending := Some(Pause), log := log), w.clock(|log|));
    NothingNew(b.(pending := Some(Pause), log := log), HEATING_UP, 1.0);
    var steps := [Poll, Console("pause"), DrainOne];
    assert steps[1..] == [Console("pause"), DrainOne] && steps[1..][1..] == [DrainOne] && [DrainOne][1..] == [];
    var queued := Do(w, a, Console("pause"));
    assert queued.commands == [Pause] && [Pause][1..] == [] && queued.(commands := []) == b;
    assert Run(w, START, steps) == Run(w, a, steps[1..]) == Run(w, queued, [DrainOne]) == Run(w, c, []) == c;
  }

  /** A pause asked for one job, deferred while it warms up, and sent to another one that was started while
      the printer could not be read. */
  lemma DeferredPauseHitsAnotherJob()
    ensures var before := [Poll, Console("pause"), DrainOne];
            var a := Run(CHANGED_OVER, START, before);
            var since := Since(a, PollOnce(CHANGED_OVER, Run(CHANGED_OVER, a, [Poll, Poll])));
            && a.pending == Some(Pause) && a.tracker.activeFile == Some("a")
            && exists i: nat :: SendsDeferred(since, i) && PrintStarted in EmittedEvents(since[..i])
  {
    hide Run, PollOnce, EmittedEvents, Shown, NoPollExecutions;
    var w, before := CHANGED_OVER, [Poll, Console("pause"), DrainOne];
    var a := Run(w, START, before);
    DeferredForFirst();
    TwoPollsFail(w, a);
    DeferredPauseMeetsItsJobExactly(w, before, [Poll, Poll]);
    var since := Since(a, PollOnce(w, Run(w, a, [Poll, Poll])));
    var i: nat :| i <= |since| && SendsDeferred(since, i) && Shown(since[..i]) != []
      && Last(Shown(since[..i])).snapshot == Some(ANOTHER_JOB)
      && (PrintStarted !in EmittedEvents(since[..i]) <==> forall o | o in Shown(since[..i]) :: ShowsJobOn(o, "a"));
    assert Last(Shown(since[..i])) in Shown(since[..i]) && !ShowsJobOn(Last(Shown(since[..i])), "a");
  }

  lemma TwoPollsFail(w: World, a: State)
    requires w.detail(|a.log|).None? && w.detail(|a.log| + 1).None? && a.failures == 0
    ensures AllQuiet(w, a, [Poll, Poll]) && |Run(w, a, [Poll, Poll]).log| == |a.log| + 2
  {
    hide PollOnce;
    FailedPoll(w, a);
    var b := PollOnce(w, a);
    assert b.failures == 1 by { FirstFailure(w, a); }
    FailedPoll(w, b);
    assert [Poll, Poll][1..] == [Poll] && [Poll][1..] == [];
    assert Do(w, a, Poll) == b && AllQuiet(w, PollOnce(w, b), []);
    assert AllQuiet(w, b, [Poll]);
    assert Run(w, a, [Poll, Poll]) == Run(w, b, [Poll]) == Run(w, PollOnce(w, b), []) == PollOnce(w, b);
  }

  lemma FirstFailure(w: World, a: State)
    requires w.detail(|a.log|).None? && a.failures == 0
    ensures PollOnce(w, a).failures == 1
  {
  }
}
