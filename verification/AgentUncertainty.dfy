/**
 What the agent makes of a printer it cannot reach, and of a machine state it does not know.
 */
module AgentUncertainty {
  import opened Sequences
  import opened Snapshots
  import opened JobTracking
  import opened Sessions
  import opened GcodeFiles
  import opened ObicoStatus
  import opened Agents
  import opened AgentHistory
  import opened AgentInvariant
  import opened AgentTheorems
  import opened AgentCommands
  import opened AgentPending

  // ── faults ───────────────────────────────────────────────────────────────────────────────

  /** In every run, a poll that reads an error code leaves it reported. */
  lemma FaultIsReported(w: World, steps: seq<Step>)
    requires var reply := w.detail(|Run(w, START, steps).log|); reply.Some? && reply.value.errorCode != ""
    ensures var a := Run(w, START, steps);
            Posted(Fault(w.detail(|a.log|).value.errorCode)) in PollOnce(w, a).log
  {
    hide Run, PollOnce, Execute, Sound, Recall, BulletinFits;
    var a := Run(w, START, steps);
    var code := w.detail(|a.log|).value.errorCode;
    StartConsistent(w);
    RunConsistent(w, START, steps);
    FaultsRecalled(a.log, code);
    DoGrows(w, a, Poll);
    var b, more := PollPrelude(w, a);
    ServiceGrows(w, b);
    var after := PollOnce(w, a);
    if Posted(Fault(code)) in a.log {
      assert forall k | 0 <= k < |a.log| :: after.log[k] == a.log[k];
    } else {
      var k :| 0 <= k < |more| && more[k] == Posted(Fault(code));
      assert after.log[|a.log| + k] == more[k];
    }
  }

  lemma ServiceGrows(w: World, a: State)
    ensures a.log <= ServicePending(w, a).log
  {
    hide Execute;
    if a.pending.Some? && a.snapshot.Some? {
      var _ := ExecuteTrace(w, a.(pending := None), a.pending.value, FromPoll);
    }
  }

  // ── losing the printer ───────────────────────────────────────────────────────────────────

  function PollCount(steps: seq<Step>): nat {
    if steps == [] then 0 else (if steps[0].Poll? then 1 else 0) + PollCount(steps[1..])
  }

  /** Every poll of the run fails; whatever is requested or executed in between is open. */
  predicate PollsFail(w: World, a: State, steps: seq<Step>)
    decreases |steps|
  {
    steps == [] ||
    ((steps[0].Poll? ==> w.detail(|a.log|).None?) && PollsFail(w, Do(w, a, steps[0]), steps[1..]))
  }

  predicate NothingExecuted(steps: seq<Step>) {
    forall i | 0 <= i < |steps| :: !steps[i].DrainOne?
  }

  /** A failed poll sends nothing and keeps the session; below the third in a row it changes nothing else. */
  lemma FailedPollOnce(w: World, a: State)
    requires w.detail(|a.log|).None?
    ensures var b := PollOnce(w, a);
            && b.failures == a.failures + 1 && b.tracker == a.tracker
            && (if b.failures < OFFLINE_AFTER_FAILURES then b.text == a.text && b.snapshot == a.snapshot
                else b.text == Offline && b.snapshot.None?)
            && a.log <= b.log && NoSends(Since(a, b))
  {
  }

  /** Commands and requests leave the count of failed polls alone, and a text that is not Offline stays so. */
  lemma OtherStepKeeps(w: World, a: State, step: Step)
    requires !step.Poll?
    ensures var b := Do(w, a, step);
            && b.failures == a.failures
            && (a.snapshot.None? ==> b.snapshot.None?)
            && (a.snapshot.None? ==> b.text == a.text)
            && (a.text != Offline ==> b.text != Offline)
            && (!step.DrainOne? ==> b.text == a.text && b.snapshot == a.snapshot && b.tracker == a.tracker
                                    && a.log <= b.log && NoSends(Since(a, b)))
  {
    hide HandleCommands, Execute, StartFile;
    match step
    case DrainOne =>
      if a.commands != [] {
        ExecuteKeeps(w, a.(commands := a.commands[1..]), a.commands[0], FromQueue);
      }
    case Console(cmd) =>
    case Server(cmds) =>
      var more := HandleAddsRequests(a, cmds);
      assert Since(a, HandleCommands(a, cmds)) == more;
      HandleKeeps(a, cmds);
    case StartOf(fileName) =>
      var more := StartFileAdds(w, a, fileName);
      assert Since(a, StartFile(w, a, fileName)) == more;
  }

  lemma {:induction false} HandleKeeps(a: State, cmds: seq<string>)
    ensures var b := HandleCommands(a, cmds); b == a.(commands := b.commands, log := b.log)
    decreases |cmds|
  {
    if cmds != [] {
      var cmd := CommandOf(cmds[0]);
      HandleKeeps(if cmd.Some? then Enqueue(a, cmd.value, FromServer) else a, cmds[1..]);
    }
  }

  lemma ExecuteKeeps(w: World, a: State, cmd: Command, origin: Origin)
    ensures var b := Execute(w, a, cmd, origin);
            && b.failures == a.failures
            && (a.snapshot.None? ==> b.snapshot.None? && b.text == a.text)
            && (a.text != Offline ==> b.text != Offline)
  {
    hide CallsFor, Execute, Trace, Tried;
    if a.snapshot.None? || !CallsFor(cmd, a.snapshot.value) {
      NotCalledFor(w, a, cmd, origin);
    } else {
      CommandConfirmed(w, a, cmd, origin);
      var tries: seq<Entry>, outcome, verdict: seq<Entry>, shown, told: seq<Entry> :|
        CommandTrace(w, a, Execute(w, a, cmd, origin), cmd, origin, tries, outcome, verdict, shown, told);
      TriesEndOn(cmd, tries, outcome, a.snapshot, Execute(w, a, cmd, origin).snapshot);
    }
  }

  lemma TriesEndOn(cmd: Command, tries: seq<Entry>, outcome: Outcome,
                   before: Option<Snapshot>, after: Option<Snapshot>)
    requires before.Some? && Trace(cmd, tries, outcome, before, after)
    ensures after.Some?
  {
    LatestOfSome(tries, before);
  }

  /** The text is Offline exactly from the third failed poll in a row on, and then nothing is known. */
  predicate LostAtThird(a: State) {
    && (a.text == Offline <==> a.failures >= OFFLINE_AFTER_FAILURES)
    && (a.failures >= OFFLINE_AFTER_FAILURES ==> a.snapshot.None?)
  }

  lemma {:induction false} FailuresCount(w: World, a: State, steps: seq<Step>)
    requires LostAtThird(a) && PollsFail(w, a, steps)
    ensures var b := Run(w, a, steps);
            && LostAtThird(b) && b.failures == a.failures + PollCount(steps)
            && (NothingExecuted(steps) ==>
                  && b.tracker == a.tracker && a.log <= b.log && NoSends(Since(a, b))
                  && (b.failures < OFFLINE_AFTER_FAILURES ==> b.text == a.text && b.snapshot == a.snapshot))
    decreases |steps|
  {
    hide Do, PollOnce;
    if steps != [] {
      var next := Do(w, a, steps[0]);
      if steps[0].Poll? {
        assert next == PollOnce(w, a) by { DoPoll(w, a); }
        FailedPollOnce(w, a);
      } else {
        OtherStepKeeps(w, a, steps[0]);
      }
      FailuresCount(w, next, steps[1..]);
      if NothingExecuted(steps) {
        assert NothingExecuted(steps[1..]);
        SinceChain(a, next, Run(w, next, steps[1..]));
      }
    }
  }

  lemma DoPoll(w: World, a: State)
    ensures Do(w, a, Poll) == PollOnce(w, a)
  {
  }

  /** From a printer that answered its last poll, and however commands and requests fall between the polls:
      while every poll fails, the text is Offline exactly from the third on. When no command is executed in
      between, nothing is sent and the print session survives all of them. */
  lemma OfflineExactly(w: World, a: State, steps: seq<Step>)
    requires a.failures == 0 && a.text != Offline && PollsFail(w, a, steps)
    ensures var b := Run(w, a, steps);
            && (b.text == Offline <==> PollCount(steps) >= 3)
            && b.failures == PollCount(steps)
            && (NothingExecuted(steps) ==>
                  && b.tracker == a.tracker && a.log <= b.log && NoSends(Since(a, b))
                  && (PollCount(steps) < 3 ==> b.text == a.text && b.snapshot == a.snapshot))
  {
    hide PollsFail, Run;
    FailuresCount(w, a, steps);
  }

  // ── unfamiliar states ────────────────────────────────────────────────────────────────────

  /** Position `k` of the log of a command is a read-back that shows no job. */
  predicate ReadsNoJob(w: World, before: State, after: State, k: nat) {
    && |before.log| < k < |after.log| && after.log[k].Read?
    && w.detail(k).Some? && !InJob(w.detail(k).value)
  }

  /** Only the publish follows position `k` of the log. */
  predicate OnlyPublishAfter(log: seq<Entry>, k: nat) {
    k + 1 < |log| && log[k + 1].Emitted? && AllTold(log[k + 2..])
  }

  /** Position `k` of the log of a command is the latest reply it read. */
  predicate LatestReply(w: World, before: State, after: State, k: nat) {
    && |before.log| < k < |after.log| && after.log[k].Read? && w.detail(k).Some?
    && forall m | k < m < |after.log| && after.log[m].Read? :: w.detail(m).None?
  }

  /** The latest reply, or the snapshot held when there is none, shows no job on another file. */
  ghost predicate StaysOnFile(w: World, before: State, after: State, file: string)
    requires before.snapshot.Some?
  {
    && (forall k: nat | LatestReply(w, before, after, k) && InJob(w.detail(k).value) :: w.detail(k).value.fileName == file)
    && ((forall k: nat :: !LatestReply(w, before, after, k)) ==> before.snapshot.value.fileName == file)
  }

  /** A cancel is taken to have worked as soon as a read-back shows no job, and only the publish follows.
      Some session is then open at Obico exactly when no read-back shows that, or the one that does shows a
      state the agent does not know: the read-back takes it for no job, the tracker for no news. It is the
      session there was, with its timestamp, exactly when besides that no other file has been seen last. */
  lemma CancelLeavesSessionExactly(w: World, a: State, origin: Origin)
    requires a.snapshot.Some? && InJob(a.snapshot.value) && a.tracker.activeFile.Some?
    ensures var after := Execute(w, a, Cancel, origin);
            && (forall k: nat | ReadsNoJob(w, a, after, k) ::
                  after.snapshot == w.detail(k) && OnlyPublishAfter(after.log, k))
            && (after.tracker.activeFile.Some? <==>
                  forall k: nat | ReadsNoJob(w, a, after, k) :: w.detail(k).value.state == UNKNOWN)
            && (after.tracker.activeFile == a.tracker.activeFile
                && after.tracker.currentPrintTs == a.tracker.currentPrintTs <==>
                  && (forall k: nat | ReadsNoJob(w, a, after, k) :: w.detail(k).value.state == UNKNOWN)
                  && StaysOnFile(w, a, after, a.tracker.activeFile.value))
  {
    hide Execute, CommandTrace, Trace, Observed, OnlyPublishAfter, StaysOnFile;
    CommandConfirmed(w, a, Cancel, origin);
    var after := Execute(w, a, Cancel, origin);
    var tries: seq<Entry>, outcome, verdict: seq<Entry>, shown, told: seq<Entry> :|
      CommandTrace(w, a, after, Cancel, origin, tries, outcome, verdict, shown, told);
    CancelObserved(w, a, after, origin, tries, outcome, verdict, shown, told);
    FileSeenLast(w, a, after, origin, tries, outcome, verdict, shown, told);
    forall k: nat | ReadsNoJob(w, a, after, k)
      ensures outcome == Taken && after.snapshot == w.detail(k) && OnlyPublishAfter(after.log, k)
    {
      NoJobIsLast(w, a, after, origin, tries, outcome, verdict, shown, told, k);
    }
    if outcome == Taken {
      TakenRead(w, a, after, origin, tries, outcome, verdict, shown, told);
    }
  }

  /** Whatever a command reads, it reads during its tries. */
  lemma ReadsAreTries(w: World, a: State, after: State, origin: Origin, tries: seq<Entry>, outcome: Outcome,
                      verdict: seq<Entry>, shown: Entry, told: seq<Entry>, k: nat)
    requires CommandTrace(w, a, after, Cancel, origin, tries, outcome, verdict, shown, told)
    ensures |a.log| < k < |after.log| && after.log[k].Read? <==>
              |a.log| < k < |a.log| + 1 + |tries| && tries[k - |a.log| - 1].Read?
    ensures |a.log| < k < |after.log| && after.log[k].Read? ==>
              after.log[k] == tries[k - |a.log| - 1] && after.log[k].reply == w.detail(k)
  {
    hide Trace, Sends, Reads, ObicoStateText, Observed;
    var start, rest := |a.log| + 1, verdict + [shown] + told;
    assert after.log == a.log + [Executing(Cancel, origin)] + tries + rest;
    if start <= k < start + |tries| {
      assert after.log[k] == tries[k - start];
    } else if start + |tries| <= k < |after.log| {
      assert after.log[k] == rest[k - start - |tries|] && after.log[k] in rest;
      assert forall e | e in rest :: e in verdict || e == shown || e in told;
    }
  }

  /** Where the latest of the snapshots read stands among the tries. */
  lemma {:induction false} LatestOfAt(tries: seq<Entry>, before: Option<Snapshot>) returns (j: int)
    ensures -1 <= j < |tries|
    ensures if j < 0 then LatestOf(tries, before) == before
            else tries[j].Read? && tries[j].reply.Some? && LatestOf(tries, before) == tries[j].reply
    ensures forall m | j < m < |tries| && tries[m].Read? :: tries[m].reply.None?
  {
    if tries == [] {
      return -1;
    }
    var n := |tries| - 1;
    if tries[n].Read? && tries[n].reply.Some? {
      return n;
    }
    j := LatestOfAt(tries[..n], before);
    forall m | j < m < |tries| && tries[m].Read?
      ensures tries[m].reply.None?
    {
      assert m < n ==> tries[m] == tries[..n][m];
    }
  }

  /** The file of the snapshot published, when it shows a job, is that of the latest reply. */
  lemma FileSeenLast(w: World, a: State, after: State, origin: Origin, tries: seq<Entry>, outcome: Outcome,
                     verdict: seq<Entry>, shown: Entry, told: seq<Entry>)
    requires CommandTrace(w, a, after, Cancel, origin, tries, outcome, verdict, shown, told)
    requires a.snapshot.Some? && InJob(a.snapshot.value) && a.tracker.activeFile.Some? && after.snapshot.Some?
    ensures var s, file := after.snapshot.value, a.tracker.activeFile.value;
            StaysOnFile(w, a, after, file) <==> !InJob(s) || s.fileName == file
  {
    assert after.snapshot == LatestOf(tries, a.snapshot);
    var j := LatestOfAt(tries, a.snapshot);
    hide CommandTrace, LatestOf;
    var at := |a.log| + 1 + j;
    forall k: nat
      ensures LatestReply(w, a, after, k) <==> j >= 0 && k == at
    {
      ReadsAreTries(w, a, after, origin, tries, outcome, verdict, shown, told, k);
      forall m: nat
        ensures |a.log| < m < |after.log| && after.log[m].Read? <==>
                  |a.log| < m < |a.log| + 1 + |tries| && tries[m - |a.log| - 1].Read?
        ensures |a.log| < m < |after.log| && after.log[m].Read? ==> tries[m - |a.log| - 1].reply == w.detail(m)
      {
        ReadsAreTries(w, a, after, origin, tries, outcome, verdict, shown, told, m);
      }
    }
    if j >= 0 {
      ReadsAreTries(w, a, after, origin, tries, outcome, verdict, shown, told, at);
      assert LatestReply(w, a, after, at);
    }
  }

  /** A read-back that shows no job is the last of the tries. */
  lemma NoJobIsLast(w: World, a: State, after: State, origin: Origin, tries: seq<Entry>, outcome: Outcome,
                    verdict: seq<Entry>, shown: Entry, told: seq<Entry>, k: nat)
    requires CommandTrace(w, a, after, Cancel, origin, tries, outcome, verdict, shown, told)
    requires ReadsNoJob(w, a, after, k)
    ensures outcome == Taken && after.snapshot == w.detail(k) && OnlyPublishAfter(after.log, k)
  {
    hide Sends, Reads, ObicoStateText, Observed;
    ReadsAreTries(w, a, after, origin, tries, outcome, verdict, shown, told, k);
    var start, rest := |a.log| + 1, verdict + [shown] + told;
    assert after.log == a.log + [Executing(Cancel, origin)] + tries + rest;
    var j := k - start;
    assert after.log[k] == tries[j] && tries[j] in tries;
    assert Shows(Cancel, tries[j]);
    assert outcome == Taken && j == |tries| - 1;
    LatestOfLast(tries, a.snapshot);
    assert after.log[k + 1] == rest[0] == shown;
    assert after.log[k + 2..] == told;
  }

  /** A cancel that worked read one. */
  lemma TakenRead(w: World, a: State, after: State, origin: Origin, tries: seq<Entry>, outcome: Outcome,
                  verdict: seq<Entry>, shown: Entry, told: seq<Entry>)
    requires CommandTrace(w, a, after, Cancel, origin, tries, outcome, verdict, shown, told)
    requires outcome == Taken
    ensures ReadsNoJob(w, a, after, |a.log| + |tries|) && after.snapshot == w.detail(|a.log| + |tries|)
  {
    hide Sends, Reads, ObicoStateText, Observed, AllTold;
    var k := |a.log| + |tries|;
    assert after.log == (a.log + [Executing(Cancel, origin)] + tries) + (verdict + [shown] + told);
    assert after.log[k] == (a.log + [Executing(Cancel, origin)] + tries)[k] == Last(tries);
    LatestOfLast(tries, a.snapshot);
  }

  /** What the tracker makes of a cancel: with a job the session goes on, or another one starts. */
  lemma CancelObserved(w: World, a: State, after: State, origin: Origin, tries: seq<Entry>, outcome: Outcome,
                       verdict: seq<Entry>, shown: Entry, told: seq<Entry>)
    requires CommandTrace(w, a, after, Cancel, origin, tries, outcome, verdict, shown, told)
    requires a.snapshot.Some? && InJob(a.snapshot.value) && a.tracker.activeFile.Some?
    ensures after.snapshot.Some? && (outcome == Taken <==> !InJob(after.snapshot.value))
    ensures var s, was, now := after.snapshot.value, a.tracker, after.tracker;
            && (now.activeFile.Some? <==> InJob(s) || s.state == UNKNOWN)
            && (now.activeFile == was.activeFile && now.currentPrintTs == was.currentPrintTs <==>
                  s.state == UNKNOWN || (InJob(s) && s.fileName == was.activeFile.value))
  {
    hide Sends, Reads, ObicoStateText, AllTold, Answered;
    if outcome == Taken {
      LatestOfLast(tries, a.snapshot);
    } else {
      JobStays(tries, a.snapshot);
    }
  }

  lemma {:induction false} LatestOfLast(tries: seq<Entry>, before: Option<Snapshot>)
    requires tries != [] && Last(tries).Read? && Last(tries).reply.Some?
    ensures LatestOf(tries, before) == Last(tries).reply
  {
  }

  lemma {:induction false} JobStays(tries: seq<Entry>, before: Option<Snapshot>)
    requires before.Some? && InJob(before.value)
    requires forall e | e in tries :: !Shows(Cancel, e)
    ensures LatestOf(tries, before).Some? && InJob(LatestOf(tries, before).value)
  {
    if tries != [] {
      var fewer := tries[..|tries| - 1];
      assert forall e | e in fewer :: e in tries;
      assert Last(tries) in tries;
      JobStays(fewer, before);
    }
  }

  // ── what follows, in runs from the start ─────────────────────────────────────────────────

  const JOB := Snapshot(PRINTING, "a", 0.5, 60, Some(1), "")

  /** A printer that accepts everything, answers its first read with a job and every later one with `later`. */
  function JobThen(later: Snapshot): World {
    World((n: nat) => if n == 0 then Some(JOB) else Some(later), (n: nat) => true,
          (n: nat) => Unreachable, (n: nat) => 1.0, Numbers((text: string) => None, (text: string) => None, (n: int) => n as real))
  }

  /** A print, a cancel from Obico, and a state the agent does not know: the cancel went out and counts as
      taken, yet Obico is still told Printing, with the session open and no warning. */
  lemma CancelledWithSessionOpen()
    ensures var w := JobThen(Snapshot(UNKNOWN, "", 0.0, 0, None, ""));
            var a := Run(w, START, [Poll, Server(["cancel"]), DrainOne]);
            && Sent(Cancel, true) in a.log && a.snapshot.Some? && !InJob(a.snapshot.value)
            && a.tracker.activeFile == Some("a") && a.text == Printing && a.commands == []
            && forall e | e in a.log :: !e.Posted?
  {
    hide Execute, PollOnce, HandleCommands;
    var unknown := Snapshot(UNKNOWN, "", 0.0, 0, None, "");
    var w := JobThen(unknown);
    var a := PollOnce(w, START);
    FirstPollOfJob(w, JOB);
    var b := HandleCommands(a, ["cancel"]);
    assert b == a.(commands := [Cancel], log := a.log + [Requested(Cancel, FromServer)]) by { HandleCancel(a); }
    var c := Execute(w, b.(commands := []), Cancel, FromQueue);
    CancelReadsUnknown(w, b.(commands := []), unknown);
    var steps := [Poll, Server(["cancel"]), DrainOne];
    assert steps[1..] == [Server(["cancel"]), DrainOne] && steps[1..][1..] == [DrainOne] && [DrainOne][1..] == [];
    assert [Cancel][1..] == [] && Do(w, b, DrainOne) == c;
    assert Run(w, START, steps) == Run(w, a, steps[1..]) == Run(w, b, [DrainOne]) == Run(w, c, []) == c;
  }

  lemma HandleCancel(a: State)
    requires a.commands == []
    ensures HandleCommands(a, ["cancel"]) == a.(commands := [Cancel], log := a.log + [Requested(Cancel, FromServer)])
  {
    assert ["cancel"][1..] == [];
    assert HandleCommands(a, ["cancel"]) == HandleCommands(Enqueue(a, Cancel, FromServer), []);
  }

  lemma CancelReadsUnknown(w: World, a: State, unknown: Snapshot)
    requires a.snapshot.Some? && InJob(a.snapshot.value) && unknown.state == UNKNOWN
    requires w.accepts(|a.log| + 1) && w.detail(|a.log| + 2) == Some(unknown)
    ensures var b := Execute(w, a, Cancel, FromQueue);
            && b.tracker == a.tracker && b.snapshot == Some(unknown) && b.text == a.text && b.commands == a.commands
            && Sent(Cancel, true) in b.log
            && (forall e | e in b.log :: e in a.log || !e.Posted?)
  {
    hide Publish, TryCommand;
    var log := a.log + [Executing(Cancel, FromQueue)];
    var log' := log + [Sent(Cancel, true)];
    assert ReadBack(w, Cancel, READBACK_ATTEMPTS, a.snapshot, log') ==
           Attempt(Taken, Some(unknown), log' + [Read(Some(unknown), false)]);
    TakenAtOnce(w, Cancel, a.snapshot, log, Attempt(Taken, Some(unknown), log' + [Read(Some(unknown), false)]));
    var c := a.(pending := None, snapshot := Some(unknown), log := log' + [Read(Some(unknown), false)]);
    var now := w.clock(|c.log|);
    assert Execute(w, a, Cancel, FromQueue) == Publish(c, now);
    var told := PublishTrace(c, now);
    assert Execute(w, a, Cancel, FromQueue).log[|a.log| + 1] == Sent(Cancel, true);
  }

  lemma TakenAtOnce(w: World, cmd: Command, snapshot: Option<Snapshot>, log: seq<Entry>, taken: Attempt)
    requires w.accepts(|log|) && taken.outcome == Taken
    requires ReadBack(w, cmd, READBACK_ATTEMPTS, snapshot, log + [Sent(cmd, true)]) == taken
    ensures TryCommand(w, cmd, MAX_COMMAND_ATTEMPTS, snapshot, log) == taken
  {
    hide ReadBack;
  }

  /** A job, then a busy machine without one: Obico is still told Printing, with no session behind it. */
  lemma PrintingWithoutSession()
    ensures exists w: World, steps: seq<Step> ::
              var a := Run(w, START, steps);
              a.text == Printing && a.tracker == IDLE && ObicoStatus.BuildStatus(a.snapshot, a.tracker, a.text, 0.0).Status?
  {
    hide Execute, PollOnce;
    var busy := Snapshot(BUSY, "", 0.0, 0, None, "");
    var w := JobThen(busy);
    var a := PollOnce(w, START);
    FirstPollOfJob(w, JOB);
    var b := PollOnce(w, a);
    assert b.text == Printing && b.tracker == IDLE && b.snapshot == Some(busy) by {
      SecondPollBusy(w, a, busy);
    }
    var steps := [Poll, Poll];
    assert steps[1..] == [Poll] && [Poll][1..] == [];
    assert Run(w, START, steps) == Run(w, a, [Poll]) == Run(w, b, []) == b;
  }

  lemma FirstPollOfJob(w: World, job: Snapshot)
    requires w.detail(0) == Some(job)
    requires InJob(job) && job.state != PAUSED && job.errorCode == "" && job.fileName == "a"
    ensures var a := PollOnce(w, START);
            && a.tracker.activeFile == Some("a") && a.text == Printing && a.snapshot == Some(job)
            && |a.log| > 0 && a.pending.None? && a.commands == [] && forall e | e in a.log :: !e.Posted?
  {
    hide Publish, Execute;
    var c := ReadPrinter(w, START).0;
    var now := w.clock(|c.log|);
    var _ := PublishTrace(c, now);
  }

  lemma SecondPollBusy(w: World, a: State, busy: Snapshot)
    requires a.tracker.activeFile.Some? && a.text == Printing && a.pending.None?
    requires w.detail(|a.log|) == Some(busy) && busy.state == BUSY && !InJob(busy) && busy.errorCode == ""
    ensures var b := PollOnce(w, a);
            b.text == Printing && b.tracker == IDLE && b.snapshot == Some(busy)
  {
    hide Publish, Execute;
    var c := ReadPrinter(w, a).0;
    var now := w.clock(|c.log|);
    var _ := PublishTrace(c, now);
  }
}
