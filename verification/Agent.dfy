/**
 The agent: one poll, one command, and the queue of commands between them, as a function of what the
 printer and the clock answer, and the methods that carry it out.

 A poll, a command and the start of a print are taken as atomic with respect to each other.
 */
module Agents {
  import opened Sequences
  import opened Snapshots
  import opened JobTracking
  import opened ObicoStatus
  import opened GcodeFiles

  const HEARTBEAT_S: real := 30.0
  const OFFLINE_AFTER_FAILURES: nat := 3
  const READBACK_ATTEMPTS: nat := 5
  const MAX_COMMAND_ATTEMPTS: nat := 3

  datatype Command = Pause | Resume | Cancel

  /** Who has a command executed: the poll loop re-issuing a pause, or the queue of requests. */
  datatype Origin = FromPoll | FromQueue

  datatype Source = FromConsole | FromServer

  /** The printer events posted to Obico. */
  datatype PrinterEvent =
    | Fault(code: string)
    | CommandFailed(cmd: Command)
    | PauseDeferred
    | DidNotTake(cmd: Command)

  /** Everything the agent does or is told, in order. */
  datatype Entry =
    | Read(reply: Option<Snapshot>, polled: bool)   // one `detail` call, by a poll or a read-back; None: it failed
    | Sent(cmd: Command, accepted: bool)        // one command on the wire
    | Emitted(seen: Observation, events: seq<Event>)   // what the tracker was shown, and returned
    | Told(message: Message, at: real)          // one status message
    | Posted(event: PrinterEvent)
    | Executing(cmd: Command, origin: Origin)
    | Requested(cmd: Command, source: Source)
    | Printed(job: PrintJob, files: seq<File>)       // one print sent, and the list just read for it

  /** The printer and the clock, free to answer anything; each call is told apart by how much has
      happened before it. `numbers` is how numbers are converted. */
  datatype World = World(
    detail: nat -> Option<Snapshot>,
    accepts: nat -> bool,
    files: nat -> Listing,
    clock: nat -> real,
    numbers: Numbers)

  datatype State = State(
    tracker: Tracker,
    snapshot: Option<Snapshot>,
    text: StateText,
    failures: nat,
    settingsSent: bool,
    lastSentAt: Option<real>,
    faultsReported: set<string>,
    pending: Option<Command>,
    commands: seq<Command>,
    log: seq<Entry>)
  {
    function Log(entry: Entry): State {
      this.(log := log + [entry])
    }
  }

  const START := State(IDLE, None, Offline, 0, false, None, {}, None, [], [])

  // ── reading the printer and telling Obico ────────────────────────────────────────────────

  /** The new state, and whether the poll goes on. */
  function ReadPrinter(w: World, a: State): (State, bool) {
    var reply := w.detail(|a.log|);
    var b := a.Log(Read(reply, true));
    if reply.Some? then (b.(snapshot := reply, failures := 0), true)
    else if a.failures + 1 < OFFLINE_AFTER_FAILURES then (b.(failures := a.failures + 1), false)
    else (b.(failures := a.failures + 1, snapshot := None), true)
  }

  function MessageNow(a: State, event: Option<Event>, now: real): Message {
    Message(BuildStatus(a.snapshot, a.tracker, a.text, now), a.tracker.currentPrintTs, event, !a.settingsSent)
  }

  function SendStatus(a: State, event: Option<Event>, now: real): State {
    a.(settingsSent := true, lastSentAt := Some(now)).Log(Told(MessageNow(a, event, now), now))
  }

  function SendEvents(a: State, events: seq<Event>, now: real): State
    decreases |events|
  {
    if events == [] then a else SendEvents(SendStatus(a, Some(events[0]), now), events[1..], now)
  }

  /** Nothing sent yet, or nothing for a heartbeat. */
  predicate Due(lastSentAt: Option<real>, now: real) {
    lastSentAt.None? || now - lastSentAt.value >= HEARTBEAT_S
  }

  function Publish(a: State, now: real): State {
    var tracked := Observed(a.tracker, a.snapshot, now);
    var events := tracked.events;
    var text := ObicoStateText(a.snapshot, a.text);
    var changed := text != a.text || events != [] || !a.settingsSent;
    var b := a.(tracker := tracked.tracker, text := text).Log(Emitted(Observation(a.snapshot, now), events));
    if changed || Due(a.lastSentAt, now) then
      if events == [] then SendStatus(b, None, now) else SendEvents(b, events, now)
    else b
  }

  function ReportFault(a: State): State {
    if a.snapshot.None? || a.snapshot.value.errorCode == "" || a.snapshot.value.errorCode in a.faultsReported
    then a
    else
      var code := a.snapshot.value.errorCode;
      a.(faultsReported := a.faultsReported + {code}).Log(Posted(Fault(code)))
  }

  // ── one command ──────────────────────────────────────────────────────────────────────────

  /** The state a read-back must show for the command to have taken. */
  predicate Expected(cmd: Command, s: Snapshot) {
    match cmd
    case Pause => s.IsPaused()
    case Resume => s.HasJob() && !s.IsPaused()
    case Cancel => !s.HasJob()
  }

  datatype Outcome = Taken | JobOver | NotTaken

  /** An outcome with the snapshot and log it leaves. */
  datatype Attempt = Attempt(outcome: Outcome, snapshot: Option<Snapshot>, log: seq<Entry>)

  function ReadBack(w: World, cmd: Command, left: nat, snapshot: Option<Snapshot>, log: seq<Entry>): Attempt {
    if left == 0 then Attempt(NotTaken, snapshot, log)
    else
      var reply := w.detail(|log|);
      var log' := log + [Read(reply, false)];
      if reply.None? then ReadBack(w, cmd, left - 1, snapshot, log')
      else if Expected(cmd, reply.value) then Attempt(Taken, reply, log')
      else if cmd != Cancel && !reply.value.HasJob() then Attempt(JobOver, reply, log')
      else ReadBack(w, cmd, left - 1, reply, log')
  }

  /** With `left` attempts left, the last of which reports a refusal. */
  function TryCommand(w: World, cmd: Command, left: nat, snapshot: Option<Snapshot>, log: seq<Entry>): Attempt {
    if left == 0 then Attempt(NotTaken, snapshot, log)
    else
      var accepted := w.accepts(|log|);
      var log' := log + [Sent(cmd, accepted)];
      if !accepted then
        if left == 1 then Attempt(NotTaken, snapshot, log' + [Posted(CommandFailed(cmd))])
        else TryCommand(w, cmd, left - 1, snapshot, log')
      else
        var back := ReadBack(w, cmd, READBACK_ATTEMPTS, snapshot, log');
        if back.outcome != NotTaken then back
        else TryCommand(w, cmd, left - 1, back.snapshot, back.log)
  }

  /** The command is worth sending to a printer in this state. */
  predicate Applicable(cmd: Command, s: Snapshot) {
    s.HasJob() && match cmd
      case Pause => !s.IsPaused()
      case Resume => s.IsPaused()
      case Cancel => true
  }

  function Conclude(a: State, cmd: Command, outcome: Outcome): State {
    if outcome != NotTaken then a
    else if cmd == Pause && a.snapshot.Some? && a.snapshot.value.WarmingUp() then
      a.(pending := Some(Pause)).Log(Posted(PauseDeferred))
    else a.Log(Posted(DidNotTake(cmd)))
  }

  function Execute(w: World, a: State, cmd: Command, origin: Origin): State {
    var b := a.(pending := if cmd == Pause then a.pending else None).Log(Executing(cmd, origin));
    if b.snapshot.None? || !Applicable(cmd, b.snapshot.value) then b
    else
      var tried := TryCommand(w, cmd, MAX_COMMAND_ATTEMPTS, b.snapshot, b.log);
      var c := Conclude(b.(snapshot := tried.snapshot, log := tried.log), cmd, tried.outcome);
      Publish(c, w.clock(|c.log|))
  }

  // ── one poll ─────────────────────────────────────────────────────────────────────────────

  function ServicePending(w: World, a: State): State {
    if a.pending.None? || a.snapshot.None? then a
    else
      var s := a.snapshot.value;
      if !s.HasJob() || s.IsPaused() then a.(pending := None)
      else if s.WarmingUp() then a
      else Execute(w, a.(pending := None), a.pending.value, FromPoll)
  }

  function PollOnce(w: World, a: State): State {
    var (b, goOn) := ReadPrinter(w, a);
    if !goOn then b
    else ServicePending(w, ReportFault(Publish(b, w.clock(|b.log|))))
  }

  // ── requests ─────────────────────────────────────────────────────────────────────────────

  function CommandOf(cmd: string): Option<Command> {
    if cmd == "pause" then Some(Pause)
    else if cmd == "resume" then Some(Resume)
    else if cmd == "cancel" then Some(Cancel)
    else None
  }

  function Enqueue(a: State, cmd: Command, source: Source): State {
    a.(commands := a.commands + [cmd]).Log(Requested(cmd, source))
  }

  /** A pause or resume from the console; anything else is turned away. */
  function RequestCommand(a: State, cmd: string): State {
    if cmd != "pause" && cmd != "resume" then a else Enqueue(a, CommandOf(cmd).value, FromConsole)
  }

  /** The commands of one message from Obico; unfamiliar ones are skipped. */
  function HandleCommands(a: State, cmds: seq<string>): State
    decreases |cmds|
  {
    if cmds == [] then a
    else
      var cmd := CommandOf(cmds[0]);
      HandleCommands(if cmd.Some? then Enqueue(a, cmd.value, FromServer) else a, cmds[1..])
  }

  function Drain(w: World, a: State): State {
    if a.commands == [] then a
    else Execute(w, a.(commands := a.commands[1..]), a.commands[0], FromQueue)
  }

  // ── starting a print ─────────────────────────────────────────────────────────────────────

  /** From the console: the file list is read again, and the print sent when the guard lets it. */
  function StartFile(w: World, a: State, fileName: string): State {
    var listing := w.files(|a.log|);
    var start := StartPrint(a.snapshot, fileName, listing, w.accepts(|a.log|), w.numbers);
    if start.sent.None? then a
    else a.Log(Printed(start.sent.value, ParseGcodeFiles(listing.body, w.numbers).value))
  }

  // ── runs ─────────────────────────────────────────────────────────────────────────────────

  datatype Step =
    | Poll
    | DrainOne                           // the command thread takes one request and executes it
    | Console(cmd: string)
    | Server(cmds: seq<string>)
    | StartOf(fileName: string)          // the console asks for a stored file to be printed

  function Do(w: World, a: State, step: Step): State {
    match step
    case Poll => PollOnce(w, a)
    case DrainOne => Drain(w, a)
    case Console(cmd) => RequestCommand(a, cmd)
    case Server(cmds) => HandleCommands(a, cmds)
    case StartOf(fileName) => StartFile(w, a, fileName)
  }

  function Run(w: World, a: State, steps: seq<Step>): State
    decreases |steps|
  {
    if steps == [] then a else Run(w, Do(w, a, steps[0]), steps[1..])
  }

  // ── the object ───────────────────────────────────────────────────────────────────────────

  class Agent {
    const world: World
    const tracker: JobTracker
    var snapshot: Option<Snapshot>
    var stateText: StateText
    var failures: nat
    var settingsSent: bool
    var lastSentAt: Option<real>
    var faultsReported: set<string>
    var pendingCommand: Option<Command>
    var commands: seq<Command>
    var log: seq<Entry>

    function Value(): State
      reads this, tracker
    {
      State(tracker.Value(), snapshot, stateText, failures, settingsSent, lastSentAt, faultsReported,
            pendingCommand, commands, log)
    }

    constructor (world: World)
      ensures this.world == world && fresh(tracker) && Value() == START
    {
      this.world := world;
      tracker := new JobTracker();
      snapshot, stateText, failures, settingsSent, lastSentAt := None, Offline, 0, false, None;
      faultsReported, pendingCommand, commands, log := {}, None, [], [];
    }

    /** One `detail` call. */
    method Detail(polled: bool) returns (reply: Option<Snapshot>)
      modifies `log
      ensures reply == world.detail(|old(log)|) && log == old(log) + [Read(reply, polled)]
    {
      reply := world.detail(|log|);
      log := log + [Read(reply, polled)];
    }

    /** One job command. */
    method Send(cmd: Command) returns (accepted: bool)
      modifies `log
      ensures accepted == world.accepts(|old(log)|) && log == old(log) + [Sent(cmd, accepted)]
    {
      accepted := world.accepts(|log|);
      log := log + [Sent(cmd, accepted)];
    }

    method ReadPrinterNow() returns (goOn: bool)
      modifies this
      ensures (Value(), goOn) == ReadPrinter(world, old(Value()))
    {
      var reply := Detail(true);
      if reply.Some? {
        snapshot := reply;
        failures := 0;
        return true;
      }
      failures := failures + 1;
      if failures < OFFLINE_AFTER_FAILURES {
        return false;
      }
      snapshot := None;
      return true;
    }

    method SendStatusNow(event: Option<Event>, now: real)
      modifies this
      ensures Value() == SendStatus(old(Value()), event, now)
    {
      var settings := !settingsSent;
      var status := BuildStatus(snapshot, tracker.Value(), stateText, now);
      log := log + [Told(Message(status, tracker.currentPrintTs, event, settings), now)];
      settingsSent := true;
      lastSentAt := Some(now);
    }

    method PublishNow(now: real)
      modifies this, tracker
      ensures Value() == Publish(old(Value()), now)
    {
      var events := tracker.Observe(snapshot, now);
      log := log + [Emitted(Observation(snapshot, now), events)];
      var newText := ObicoStateText(snapshot, stateText);
      var changed := newText != stateText || events != [] || !settingsSent;
      stateText := newText;
      if changed || lastSentAt.None? || now - lastSentAt.value >= HEARTBEAT_S {
        SendStatusNow(if events == [] then None else Some(events[0]), now);
        var i := 1;
        while i < |events|
          invariant events != [] ==> 1 <= i <= |events|
          invariant events != [] ==> SendEvents(Value(), events[i..], now) == Publish(old(Value()), now)
          invariant events == [] ==> Value() == Publish(old(Value()), now)
        {
          assert events[i..][1..] == events[i + 1..];
          SendStatusNow(Some(events[i]), now);
          i := i + 1;
        }
      }
    }

    method ReportFaultOnce()
      modifies this
      ensures Value() == ReportFault(old(Value()))
    {
      if snapshot.None? || snapshot.value.errorCode == "" || snapshot.value.errorCode in faultsReported {
        return;
      }
      faultsReported := faultsReported + {snapshot.value.errorCode};
      log := log + [Posted(Fault(snapshot.value.errorCode))];
    }

    method ReadBackLoop(cmd: Command) returns (outcome: Outcome)
      modifies `snapshot, `log
      ensures Attempt(outcome, snapshot, log) ==
              ReadBack(world, cmd, READBACK_ATTEMPTS, old(snapshot), old(log))
    {
      var left := READBACK_ATTEMPTS;
      while left > 0
        invariant ReadBack(world, cmd, left, snapshot, log) ==
                  ReadBack(world, cmd, READBACK_ATTEMPTS, old(snapshot), old(log))
      {
        left := left - 1;
        var reply := Detail(false);
        if reply.None? {
          continue;
        }
        snapshot := reply;
        if Expected(cmd, reply.value) {
          return Taken;
        }
        if cmd != Cancel && !reply.value.HasJob() {
          return JobOver;
        }
      }
      return NotTaken;
    }

    method AttemptCommand(cmd: Command) returns (outcome: Outcome)
      modifies `snapshot, `log
      ensures Attempt(outcome, snapshot, log) ==
              TryCommand(world, cmd, MAX_COMMAND_ATTEMPTS, old(snapshot), old(log))
    {
      var left := MAX_COMMAND_ATTEMPTS;
      while left > 0
        invariant TryCommand(world, cmd, left, snapshot, log) ==
                  TryCommand(world, cmd, MAX_COMMAND_ATTEMPTS, old(snapshot), old(log))
      {
        left := left - 1;
        var accepted := Send(cmd);
        if !accepted {
          if left == 0 {
            log := log + [Posted(CommandFailed(cmd))];
            return NotTaken;
          }
          continue;
        }
        var result := ReadBackLoop(cmd);
        if result != NotTaken {
          return result;
        }
      }
      return NotTaken;
    }

    method ExecuteCommand(cmd: Command, origin: Origin)
      modifies this, tracker
      ensures Value() == Execute(world, old(Value()), cmd, origin)
    {
      hide TryCommand, Publish;
      log := log + [Executing(cmd, origin)];
      if cmd == Resume || cmd == Cancel {
        pendingCommand := None;
      }
      if snapshot.None? || !snapshot.value.HasJob() {
        return;
      }
      var paused := snapshot.value.state == PAUSED;
      if (cmd == Pause && paused) || (cmd == Resume && !paused) {
        return;
      }
      var outcome := AttemptCommand(cmd);
      if outcome == NotTaken {
        if cmd == Pause && snapshot.Some? && snapshot.value.WarmingUp() {
          pendingCommand := Some(Pause);
          log := log + [Posted(PauseDeferred)];
        } else {
          log := log + [Posted(DidNotTake(cmd))];
        }
      }
      PublishNow(world.clock(|log|));
    }

    method ServicePendingCommand()
      modifies this, tracker
      ensures Value() == ServicePending(world, old(Value()))
    {
      if pendingCommand.None? || snapshot.None? {
        return;
      }
      if !snapshot.value.HasJob() {
        pendingCommand := None;
        return;
      }
      if snapshot.value.state == PAUSED {
        pendingCommand := None;
        return;
      }
      if snapshot.value.WarmingUp() {
        return;
      }
      var cmd := pendingCommand.value;
      pendingCommand := None;
      ExecuteCommand(cmd, FromPoll);
    }

    method Poll()
      modifies this, tracker
      ensures Value() == PollOnce(world, old(Value()))
    {
      var goOn := ReadPrinterNow();
      if !goOn {
        return;
      }
      PublishNow(world.clock(|log|));
      ReportFaultOnce();
      ServicePendingCommand();
    }

    /** From the console: starts a stored file, named in the list the printer gives now. */
    method StartStoredFile(fileName: string) returns (outcome: StartOutcome)
      modifies `log
      ensures Value() == StartFile(world, old(Value()), fileName)
      ensures outcome == StartPrint(snapshot, fileName, world.files(|old(log)|), world.accepts(|old(log)|),
                                    world.numbers).outcome
    {
      var listing := world.files(|log|);
      if listing.Unreachable? {
        return Refused(UnknownFile);
      }
      var files := ParseGcodeFilesLoop(listing.body, world.numbers);
      if files.Raise? {
        return Raised;
      }
      var state := if snapshot.Some? then Some(snapshot.value.state) else None;
      var refusal := MayStartPrint(state, fileName, NamesOf(files.value));
      if refusal.Some? {
        return Refused(refusal.value);
      }
      var chosen := files.value[FirstNamed(files.value, fileName)];
      var mappings := Mappings(chosen.tools);
      var accepted := world.accepts(|log|);
      log := log + [Printed(PrintJob(fileName, if chosen.usesMaterialStation then mappings else []), files.value)];
      outcome := if accepted then Started else Refused(NotReady);
    }

    /** From the console; false for anything but a pause or resume. */
    method Request(cmd: string) returns (queued: bool)
      modifies this
      ensures queued <==> cmd == "pause" || cmd == "resume"
      ensures Value() == RequestCommand(old(Value()), cmd)
    {
      if cmd != "pause" && cmd != "resume" {
        return false;
      }
      var command := CommandOf(cmd).value;
      log := log + [Requested(command, FromConsole)];
      commands := commands + [command];
      return true;
    }

    method HandleServerMessage(cmds: seq<string>)
      modifies this
      ensures Value() == HandleCommands(old(Value()), cmds)
    {
      var i := 0;
      while i < |cmds|
        invariant i <= |cmds|
        invariant HandleCommands(Value(), cmds[i..]) == HandleCommands(old(Value()), cmds)
      {
        assert cmds[i..][1..] == cmds[i + 1..];
        var cmd := CommandOf(cmds[i]);
        if cmd.Some? {
          log := log + [Requested(cmd.value, FromServer)];
          commands := commands + [cmd.value];
        }
        i := i + 1;
      }
    }

    /** One turn of the command thread. */
    method DrainOneCommand()
      modifies this, tracker
      ensures Value() == Drain(world, old(Value()))
    {
      if commands == [] {
        return;
      }
      var cmd := commands[0];
      commands := commands[1..];
      ExecuteCommand(cmd, FromQueue);
    }
  }
}
