/**
 What a reader of the agent's log sees over any run: what was on the wire and why, what Obico was
 told, and how the two agree with the printer.
 */
module AgentTheorems {
  import opened Sequences
  import opened Snapshots
  import opened JobTracking
  import opened Sessions
  import opened GcodeFiles
  import opened ObicoStatus
  import opened Agents
  import opened AgentHistory
  import opened AgentInvariant

  function LogOf(w: World, steps: seq<Step>): seq<Entry> {
    Run(w, START, steps).log
  }

  lemma RunSound(w: World, steps: seq<Step>, i: nat)
    requires i < |LogOf(w, steps)|
    ensures EntryOk(w, i, Recall(LogOf(w, steps)[..i]), LogOf(w, steps)[i])
  {
    hide EntryOk;
    StartConsistent(w);
    RunConsistent(w, START, steps);
  }

  // ── the wire ─────────────────────────────────────────────────────────────────────────────

  /** Entry `j` is the latest successful read before position `i`. */
  predicate LatestRead(log: seq<Entry>, i: nat, j: nat) {
    && j < i <= |log| && log[j].Read? && log[j].reply.Some?
    && forall k | j < k < i :: log[k].Read? ==> log[k].reply.None?
  }

  predicate LatestExecution(log: seq<Entry>, i: nat, j: nat) {
    && j < i <= |log| && log[j].Executing?
    && forall k | j < k < i :: !log[k].Executing?
  }

  lemma {:induction false} FindLatestRead(log: seq<Entry>, i: nat)
    requires i <= |log| && Recall(log[..i]).dealings.lastRead.Some?
    ensures exists j: nat :: LatestRead(log, i, j) && log[j].reply == Recall(log[..i]).dealings.lastRead
    decreases i
  {
    if i > 0 {
      assert log[..i][..i - 1] == log[..i - 1];
      var e := log[i - 1];
      if e.Read? && e.reply.Some? {
        assert LatestRead(log, i, i - 1);
      } else {
        FindLatestRead(log, i - 1);
        var j: nat :| LatestRead(log, i - 1, j) && log[j].reply == Recall(log[..i - 1]).dealings.lastRead;
        assert LatestRead(log, i, j);
      }
    }
  }

  lemma {:induction false} FindLatestExecution(log: seq<Entry>, i: nat)
    requires i <= |log| && Recall(log[..i]).dealings.lastExecution.Some?
    ensures exists j: nat :: LatestExecution(log, i, j) &&
                        Recall(log[..i]).dealings.lastExecution.value == Execution(log[j].cmd, log[j].origin)
    decreases i
  {
    if i > 0 {
      assert log[..i][..i - 1] == log[..i - 1];
      if log[i - 1].Executing? {
        assert LatestExecution(log, i, i - 1);
      } else {
        FindLatestExecution(log, i - 1);
        var j: nat :| LatestExecution(log, i - 1, j) &&
          Recall(log[..i - 1]).dealings.lastExecution.value == Execution(log[j].cmd, log[j].origin);
        assert LatestExecution(log, i, j);
      }
    }
  }

  /** How many polls have failed since one last succeeded. */
  function FailedPolls(log: seq<Entry>): nat {
    if log == [] then 0
    else
      var front, e := FailedPolls(log[..|log| - 1]), Last(log);
      if !e.Read? || !e.polled then front else if e.reply.Some? then 0 else front + 1
  }

  /** What the agent should be going by at position `i`: nothing once three polls in a row have failed or
      as long as nothing was read, the latest snapshot read otherwise. */
  ghost predicate IsCurrent(log: seq<Entry>, i: nat, snapshot: Option<Snapshot>)
    requires i <= |log|
  {
    if snapshot.None? then
      FailedPolls(log[..i]) >= 3 || forall k | 0 <= k < i :: log[k].Read? ==> log[k].reply.None?
    else
      FailedPolls(log[..i]) < 3 && exists j: nat :: LatestRead(log, i, j) && log[j].reply == snapshot
  }

  lemma {:induction false} FailedPollsRecalled(log: seq<Entry>)
    ensures Recall(log).dealings.pollFailures == FailedPolls(log)
  {
    if log != [] {
      FailedPollsRecalled(log[..|log| - 1]);
    }
  }

  lemma {:induction false} NothingRead(log: seq<Entry>, i: nat)
    requires i <= |log| && Recall(log[..i]).dealings.lastRead.None?
    ensures forall k | 0 <= k < i :: log[k].Read? ==> log[k].reply.None?
    decreases i
  {
    if i > 0 {
      assert log[..i][..i - 1] == log[..i - 1];
      NothingRead(log, i - 1);
    }
  }

  lemma CurrentRecalled(log: seq<Entry>, i: nat)
    requires i <= |log|
    ensures IsCurrent(log, i, Current(Recall(log[..i]).dealings))
  {
    hide Recall, FailedPolls;
    FailedPollsRecalled(log[..i]);
    if Recall(log[..i]).dealings.lastRead.None? {
      NothingRead(log, i);
    } else {
      FindLatestRead(log, i);
    }
  }

  /** In every run each pause goes out while the latest snapshot read has a job and is not paused, each
      resume while it has a job and is paused, each cancel while it has a job: first sends and resends
      alike, after refusals and after read-backs that read nothing. */
  lemma CommandSafety(w: World, steps: seq<Step>, i: nat)
    requires i < |LogOf(w, steps)| && LogOf(w, steps)[i].Sent?
    ensures var log := LogOf(w, steps);
            exists j: nat ::
              && LatestRead(log, i, j)
              && (var cmd, s := log[i].cmd, log[j].reply.value;
                  && s.fileName != "" && s.state in {PRINTING, HEATING, BUSY, PAUSED}
                  && (cmd == Pause ==> s.state != PAUSED) && (cmd == Resume ==> s.state == PAUSED))
  {
    hide Run, Recall;
    RunSound(w, steps, i);
    FindLatestRead(LogOf(w, steps), i);
  }

  /** How many requests came before position `i`, and how many were taken off the queue. */
  function RequestsBefore(log: seq<Entry>, i: nat): nat
    requires i <= |log|
  {
    if i == 0 then 0 else RequestsBefore(log, i - 1) + if log[i - 1].Requested? then 1 else 0
  }

  function ExecutionsBefore(log: seq<Entry>, i: nat, origin: Origin): nat
    requires i <= |log|
  {
    if i == 0 then 0
    else ExecutionsBefore(log, i - 1, origin) +
         if log[i - 1].Executing? && log[i - 1].origin == origin then 1 else 0
  }

  function DeferralsBefore(log: seq<Entry>, i: nat): nat
    requires i <= |log|
  {
    if i == 0 then 0 else DeferralsBefore(log, i - 1) + if log[i - 1] == Posted(PauseDeferred) then 1 else 0
  }

  lemma {:induction false} CountsRecalled(log: seq<Entry>, i: nat)
    requires i <= |log|
    ensures var d := Recall(log[..i]).dealings;
            && |d.requested| == RequestsBefore(log, i)
            && |d.executed| == ExecutionsBefore(log, i, FromQueue)
            && d.pollExecutions == ExecutionsBefore(log, i, FromPoll)
            && d.deferrals == DeferralsBefore(log, i)
    decreases i
  {
    if i > 0 {
      assert log[..i][..i - 1] == log[..i - 1];
      CountsRecalled(log, i - 1);
    }
  }

  /** The `n`-th request is an entry of the log. */
  lemma {:induction false} FindRequest(log: seq<Entry>, i: nat, n: nat)
    requires i <= |log| && n < |Recall(log[..i]).dealings.requested|
    ensures var request := Recall(log[..i]).dealings.requested[n];
            exists k | 0 <= k < i :: log[k] == Requested(request.cmd, request.source) && RequestsBefore(log, k) == n
    decreases i
  {
    if i > 0 {
      assert log[..i][..i - 1] == log[..i - 1];
      CountsRecalled(log, i - 1);
      if n < |Recall(log[..i - 1]).dealings.requested| {
        FindRequest(log, i - 1, n);
      } else {
        assert log[i - 1].Requested?;
      }
    }
  }

  /** Why a command is on the wire. */
  ghost predicate Warranted(log: seq<Entry>, i: nat)
    requires i < |log| && log[i].Sent?
  {
    exists j: nat ::
      && LatestExecution(log, i, j) && log[j].cmd == log[i].cmd
      && match log[j].origin
         case FromPoll => log[i].cmd == Pause && ExecutionsBefore(log, j, FromPoll) < DeferralsBefore(log, j)
         case FromQueue =>
           exists k | 0 <= k < j ::
             && log[k].Requested? && log[k].cmd == log[i].cmd
             && RequestsBefore(log, k) == ExecutionsBefore(log, j, FromQueue)
             && (log[i].cmd == Cancel ==> log[k].source == FromServer)
  }

  /** Every command on the wire is the one being executed. One executed by the poll loop is a pause,
      and has a deferral warning of its own behind it; one executed from the queue answers the request
      of the same rank, and a cancel only ever answers Obico. */
  lemma CommandProvenance(w: World, steps: seq<Step>, i: nat)
    requires i < |LogOf(w, steps)| && LogOf(w, steps)[i].Sent?
    ensures Warranted(LogOf(w, steps), i)
  {
    hide Run, Recall, CallsFor, TellingOk, RequestsBefore, ExecutionsBefore, DeferralsBefore;
    var log := LogOf(w, steps);
    RunSound(w, steps, i);
    FindLatestExecution(log, i);
    var j: nat :| LatestExecution(log, i, j) &&
      Recall(log[..i]).dealings.lastExecution.value == Execution(log[j].cmd, log[j].origin);
    RunSound(w, steps, j);
    CountsRecalled(log, j);
    var d := Recall(log[..j]).dealings;
    if log[j].origin == FromQueue {
      FindRequest(log, j, |d.executed|);
      var k :| 0 <= k < j && log[k] == Requested(d.requested[|d.executed|].cmd, d.requested[|d.executed|].source)
        && RequestsBefore(log, k) == |d.executed|;
      RunSound(w, steps, k);
    }
  }

  lemma {:induction false} FaultsRecalled(log: seq<Entry>, code: string)
    ensures code in Recall(log).dealings.faults <==> Posted(Fault(code)) in log
  {
    if log != [] {
      FaultsRecalled(log[..|log| - 1], code);
      assert log == log[..|log| - 1] + [Last(log)];
    }
  }

  /** A fault is reported while the latest snapshot read shows it, and never twice. */
  lemma FaultsReportedOnce(w: World, steps: seq<Step>, i: nat)
    requires i < |LogOf(w, steps)| && LogOf(w, steps)[i].Posted? && LogOf(w, steps)[i].event.Fault?
    ensures var log := LogOf(w, steps);
            && log[i] !in log[..i]
            && exists j: nat :: LatestRead(log, i, j) && log[j].reply.value.errorCode == log[i].event.code
  {
    hide Run, Recall;
    RunSound(w, steps, i);
    FaultsRecalled(LogOf(w, steps)[..i], LogOf(w, steps)[i].event.code);
    FindLatestRead(LogOf(w, steps), i);
  }

  /** The commands among the words of a message from Obico, in order. */
  function KnownCommands(cmds: seq<string>): seq<Command> {
    if cmds == [] then []
    else KnownCommands(cmds[..|cmds| - 1]) +
         match Last(cmds)
         case "pause" => [Pause]
         case "resume" => [Resume]
         case "cancel" => [Cancel]
         case _ => []
  }

  /** The console can queue a pause and a resume; any other word, a cancel too, changes nothing. */
  lemma ConsoleQueues(a: State, word: string)
    ensures RequestCommand(a, "pause") ==
            a.(commands := a.commands + [Pause], log := a.log + [Requested(Pause, FromConsole)])
    ensures RequestCommand(a, "resume") ==
            a.(commands := a.commands + [Resume], log := a.log + [Requested(Resume, FromConsole)])
    ensures word != "pause" && word != "resume" ==> RequestCommand(a, word) == a
  {
  }

  lemma {:induction false} HandleAppend(a: State, first: seq<string>, second: seq<string>)
    ensures HandleCommands(a, first + second) == HandleCommands(HandleCommands(a, first), second)
    decreases |first|
  {
    hide Enqueue;
    if first == [] {
      assert first + second == second;
    } else {
      assert (first + second)[1..] == first[1..] + second;
      var cmd := CommandOf(first[0]);
      HandleAppend(if cmd.Some? then Enqueue(a, cmd.value, FromServer) else a, first[1..], second);
    }
  }

  /** A message queues its known commands in order behind those already queued, and executes nothing. */
  lemma {:induction false} HandleQueuesKnown(a: State, cmds: seq<string>)
    ensures var b := HandleCommands(a, cmds);
            && b == a.(commands := a.commands + KnownCommands(cmds), log := b.log)
            && |b.log| == |a.log| + |KnownCommands(cmds)|
            && a.log <= b.log && forall k | |a.log| <= k < |b.log| ::
                 b.log[k] == Requested(KnownCommands(cmds)[k - |a.log|], FromServer)
    decreases |cmds|
  {
    if cmds == [] {
      assert a.commands + KnownCommands(cmds) == a.commands;
    } else {
      var front, last := cmds[..|cmds| - 1], Last(cmds);
      assert cmds == front + [last];
      HandleAppend(a, front, [last]);
      HandleQueuesKnown(a, front);
      assert [last][1..] == [];
      var b := HandleCommands(a, front);
      assert HandleCommands(b, [last]) ==
        (if CommandOf(last).Some? then Enqueue(b, CommandOf(last).value, FromServer) else b);
    }
  }

  /** In every run each print goes out while the latest snapshot read shows an idle machine and polls
      still get through; it names a file in the list read for it, and carries the mappings of the first
      entry of that name. */
  lemma PrintSafety(w: World, steps: seq<Step>, i: nat)
    requires i < |LogOf(w, steps)| && LogOf(w, steps)[i].Printed?
    ensures var log := LogOf(w, steps);
            && (exists j: nat :: LatestRead(log, i, j) && PrintOk(log[j].reply, log[i].job, log[i].files))
            && FailedPolls(log[..i]) < 3
            && w.files(i).Reply? && ParseGcodeFiles(w.files(i).body, w.numbers) == Ok(log[i].files)
  {
    hide Run, Recall, ParseGcodeFiles, Mappings, FailedPolls;
    RunSound(w, steps, i);
    CurrentRecalled(LogOf(w, steps), i);
  }

  /** A start from the console puts a print on the wire exactly when the list just read can be parsed and names
      the file, and the machine is ready, completed or cancelled; otherwise it changes nothing. */
  lemma StartSendsExactly(w: World, a: State, fileName: string)
    ensures var b, listing := StartFile(w, a, fileName), w.files(|a.log|);
            var goes :=
              && listing.Reply? && ParseGcodeFiles(listing.body, w.numbers).Ok?
              && a.snapshot.Some? && a.snapshot.value.state in {READY, COMPLETED, CANCELLED}
              && fileName != ""
              && exists f :: f in ParseGcodeFiles(listing.body, w.numbers).value && f.name == fileName;
            && (!goes ==> b == a)
            && (goes ==>
                  var files := ParseGcodeFiles(listing.body, w.numbers).value;
                  exists job: PrintJob ::
                    && b == a.(log := a.log + [Printed(job, files)])
                    && job.fileName == fileName && PrintOk(a.snapshot, job, files))
  {
    hide ParseGcodeFiles, StartPrint, ListRaises, Mappings;
    StartedPrints(a.snapshot, fileName, w.files(|a.log|), w.accepts(|a.log|), w.numbers);
  }

  // ── what Obico is told ───────────────────────────────────────────────────────────────────

  predicate LatestTold(log: seq<Entry>, i: nat, j: nat) {
    && j < i <= |log| && log[j].Told?
    && forall k | j < k < i :: !log[k].Told?
  }

  lemma {:induction false} FindLatestTold(log: seq<Entry>, i: nat)
    requires i <= |log|
    ensures var last := Recall(log[..i]).bulletin.lastTold;
            if last.Some? then
              exists j: nat :: LatestTold(log, i, j) && last.value == Telling(log[j].message, log[j].at)
            else forall k | 0 <= k < i :: !log[k].Told?
    decreases i
  {
    if i > 0 {
      assert log[..i][..i - 1] == log[..i - 1];
      FindLatestTold(log, i - 1);
      if log[i - 1].Told? {
        assert LatestTold(log, i, i - 1);
      } else if Recall(log[..i - 1]).bulletin.lastTold.Some? {
        var last := Recall(log[..i - 1]).bulletin.lastTold;
        var j: nat :| LatestTold(log, i - 1, j) && last.value == Telling(log[j].message, log[j].at);
        assert LatestTold(log, i, j);
      }
    }
  }

  lemma LatestToldUnique(log: seq<Entry>, i: nat, j: nat, k: nat)
    requires LatestTold(log, i, j) && LatestTold(log, i, k)
    ensures j == k
  {
  }

  /** Between steps, once anything was sent, the last message tells the state text the agent holds,
      an empty status exactly when that is Offline, and the tracker's current timestamp. */
  lemma ToldIsTrue(w: World, steps: seq<Step>, j: nat)
    requires LatestTold(LogOf(w, steps), |LogOf(w, steps)|, j)
    ensures var a := Run(w, START, steps);
            Tells(a.log[j].message, a.text, a.tracker.currentPrintTs)
  {
    hide Run, Recall, Tells, Sound, TextAfter, Track;
    StartConsistent(w);
    RunConsistent(w, START, steps);
    var log := LogOf(w, steps);
    assert log[..|log|] == log;
    FindLatestTold(log, |log|);
    if Recall(log).bulletin.lastTold.Some? {
      var last := Recall(log).bulletin.lastTold;
      var k: nat :| LatestTold(log, |log|, k) && last.value == Telling(log[k].message, log[k].at);
      LatestToldUnique(log, |log|, j, k);
    }
  }

  /** Only the first message carries settings; each later one without an event changes the state text
      or comes a heartbeat after the one before it; no message sets more or less than one flag unless
      its status is empty. */
  lemma Cadence(w: World, steps: seq<Step>, i: nat)
    requires i < |LogOf(w, steps)| && LogOf(w, steps)[i].Told?
    ensures var log := LogOf(w, steps);
            && OneFlag(log[i].message.status)
            && (log[i].message.settings <==> forall k | 0 <= k < i :: !log[k].Told?)
            && (forall j: nat | LatestTold(log, i, j) ::
                  log[i].message.event.Some?
                  || TextOf(log[i].message) != TextOf(log[j].message)
                  || log[i].at - log[j].at >= 30.0)
  {
    hide Run, Recall, TextOf, OneFlag, DealingOk;
    var log := LogOf(w, steps);
    RunSound(w, steps, i);
    FindLatestTold(log, i);
    forall j: nat | LatestTold(log, i, j)
      ensures log[i].message.event.Some?
              || TextOf(log[i].message) != TextOf(log[j].message)
              || log[i].at - log[j].at >= 30.0
    {
      var last := Recall(log[..i]).bulletin.lastTold;
      var k: nat :| LatestTold(log, i, k) && last.value == Telling(log[k].message, log[k].at);
      LatestToldUnique(log, i, j, k);
    }
  }

  function ToldEvents(log: seq<Entry>): seq<Event> {
    if log == [] then []
    else ToldEvents(log[..|log| - 1]) +
         if Last(log).Told? && Last(log).message.event.Some? then [Last(log).message.event.value] else []
  }

  /** What the tracker was shown, publish by publish. */
  function Shown(log: seq<Entry>): seq<Observation> {
    if log == [] then []
    else Shown(log[..|log| - 1]) + if Last(log).Emitted? then [Last(log).seen] else []
  }

  lemma {:induction false} ToldRecalled(log: seq<Entry>)
    ensures Recall(log).bulletin.toldEvents == ToldEvents(log)
    ensures Recall(log).bulletin.observations == Shown(log)
  {
    if log != [] {
      ToldRecalled(log[..|log| - 1]);
      assert ToldEvents(log[..|log| - 1]) + [] == ToldEvents(log[..|log| - 1]);
      assert Shown(log[..|log| - 1]) + [] == Shown(log[..|log| - 1]);
    }
  }

  /** The tracker is only ever shown what the printer last answered, or nothing while it is offline, and
      at the time the clock gave. */
  lemma ShownIsCurrent(w: World, steps: seq<Step>, i: nat)
    requires i < |LogOf(w, steps)| && LogOf(w, steps)[i].Emitted?
    ensures var log := LogOf(w, steps);
            IsCurrent(log, i, log[i].seen.snapshot) && log[i].seen.now == w.clock(i)
  {
    hide Run, Recall, IsCurrent;
    RunSound(w, steps, i);
    CurrentRecalled(LogOf(w, steps), i);
  }

  /** Every message, not only the last, tells what the tracker made of everything shown to it so far, and
      describes what the printer last answered, as of the publish it belongs to. Its status is empty exactly
      when no decisive snapshot has been shown since the last missing one; otherwise its text and its flags say
      what the last decisive one shows: a paused job, a job that is not paused, or none. */
  lemma EachMessageFits(w: World, steps: seq<Step>, i: nat)
    requires i < |LogOf(w, steps)| && LogOf(w, steps)[i].Told?
    ensures var log := LogOf(w, steps);
            var shown, message := Shown(log[..i]), log[i].message;
            && message.currentPrintTs == TrackerAfter(Known(shown)).currentPrintTs
            && shown != [] && log[i].at == Last(shown).now
            && (message.status.Status? ==> message.status.at == log[i].at)
            && (message.status.NoStatus? <==> forall k: nat :: !Settles(shown, k))
            && (forall k: nat | Settles(shown, k) :: DescribesJob(message.status, shown[k].snapshot.value))
            && exists current: Option<Snapshot> ::
                 IsCurrent(log, i, current) && StatusFits(message.status, current, TrackerAfter(Known(shown)))
  {
    hide Run, Recall, Track, Known, TrackerAfter, StatusFits, DealingOk, IsCurrent, TextAfter, Settles;
    TextIsDeclarative(Shown(LogOf(w, steps)[..i]));
    RunSound(w, steps, i);
    CurrentRecalled(LogOf(w, steps), i);
    ToldRecalled(LogOf(w, steps)[..i]);
    TrackerIsDeclarative(Shown(LogOf(w, steps)[..i]));
  }

  /** The text and the flags of a status are those of the snapshot. */
  predicate DescribesJob(status: Status, s: Snapshot) {
    && status.Status?
    && (status.paused <==> InJob(s) && s.state == PAUSED)
    && (status.printing <==> InJob(s) && s.state != PAUSED)
    && (status.ready <==> !InJob(s))
    && status.text == (if status.paused then Paused else if status.printing then Printing else Operational)
  }

  /** No event is lost, doubled or reordered on its way into a message: over any run the events the messages
      carry are those of the print sessions that the published snapshots split into. */
  lemma EventConservation(w: World, steps: seq<Step>)
    ensures var log := LogOf(w, steps);
            ToldEvents(log) == SessionLog(Split(Known(Shown(log))))
  {
    hide Run, Recall, Sound, TextAfter, Track, SessionLog, Split, Known;
    StartConsistent(w);
    RunConsistent(w, START, steps);
    var log := LogOf(w, steps);
    ToldRecalled(log);
    LogIsSessionLog(Shown(log));
  }

  /** The state text against the last readable snapshot. */
  predicate TextFits(text: StateText, k: seq<Sighting>) {
    match text
    case Offline => true
    case Operational => k != [] && !InJob(Last(k).snapshot)
    case _ =>
      && k != []
      && if InJob(Last(k).snapshot) then (text == Paused) == (Last(k).snapshot.state == PAUSED)
         else Last(k).snapshot.state == BUSY
  }

  lemma {:induction false} TextFitsKnown(shown: seq<Observation>)
    ensures TextFits(TextAfter(shown), Known(shown))
  {
    if shown != [] {
      var front, last := shown[..|shown| - 1], Last(shown);
      TextFitsKnown(front);
      assert shown == front + [last];
      KnownSnoc(front, last);
    }
  }

  /** The tracker and the state text agree with the last readable snapshot that was published, and so
      with each other: Operational means no session; a session whose text is not Offline is told Paused
      exactly when the tracker holds it paused, and Printing otherwise; and Printing or Paused is told
      without a session exactly while that snapshot is busy without a job. */
  lemma TrackerAndTextAgree(w: World, steps: seq<Step>)
    ensures var a := Run(w, START, steps);
            var k := Known(Shown(a.log));
            && a.tracker == TrackerAfter(k)
            && (a.text == Offline <==> forall i: nat :: !Settles(Shown(a.log), i))
            && (forall i: nat | Settles(Shown(a.log), i) :: a.text == TextFor(Shown(a.log)[i].snapshot.value))
            && (a.text == Operational ==> a.tracker == IDLE)
            && (a.tracker.activeFile.Some? && a.text != Offline ==>
                  a.text == if a.tracker.paused then Paused else Printing)
            && (a.text == Printing || a.text == Paused ==>
                  k != [] &&
                  (a.tracker.activeFile.None? <==>
                   Last(k).snapshot.state == BUSY && !InJob(Last(k).snapshot)))
  {
    hide Run, Recall, Sound, Track, Known, Tells, TextAfter, Settles;
    StartConsistent(w);
    RunConsistent(w, START, steps);
    var a := Run(w, START, steps);
    ToldRecalled(a.log);
    TextFitsKnown(Shown(a.log));
    TextIsDeclarative(Shown(a.log));
    TrackerIsDeclarative(Shown(a.log));
  }

  /** After a publish the last message is less than a heartbeat old. */
  lemma PublishIsTimely(a: State, now: real)
    ensures var b := Publish(a, now);
            b.lastSentAt.Some? && now - b.lastSentAt.value < 30.0
  {
    hide Observed, BuildStatus, ObicoStateText;
    var tracked := Observed(a.tracker, a.snapshot, now);
    if tracked.events != [] {
      var b := a.(tracker := tracked.tracker, text := ObicoStateText(a.snapshot, a.text))
                .Log(Emitted(Observation(a.snapshot, now), tracked.events));
      SendEventsAt(b, tracked.events, now);
    }
  }

  lemma {:induction false} SendEventsAt(a: State, events: seq<Event>, now: real)
    requires events != []
    ensures SendEvents(a, events, now).lastSentAt == Some(now)
    decreases |events|
  {
    hide MessageNow;
    var next := SendStatus(a, Some(events[0]), now);
    if |events| > 1 {
      SendEventsAt(next, events[1..], now);
    } else {
      assert SendEvents(next, events[1..], now) == next;
    }
  }
}
