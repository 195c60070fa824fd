/**
 What a reader of the agent's log can tell at each point of it, and what must hold of every entry
 given all that came before.
 */
module AgentHistory {
  import opened Sequences
  import opened Snapshots
  import opened JobTracking
  import opened Sessions
  import opened GcodeFiles
  import opened ObicoStatus
  import opened Agents

  datatype Execution = Execution(cmd: Command, origin: Origin)
  datatype Request = Request(cmd: Command, source: Source)
  datatype Telling = Telling(message: Message, at: real)

  /** The command side of the log. */
  datatype Dealings = Dealings(
    lastRead: Option<Snapshot>,          // the latest snapshot read, whether or not later reads failed
    pollFailures: nat,                   // polls that failed since one last succeeded
    lastExecution: Option<Execution>,
    pollExecutions: nat,                 // commands the poll loop had executed
    deferrals: nat,                      // deferral warnings posted
    executed: seq<Command>,              // commands executed from the queue
    requested: seq<Request>,
    faults: set<string>)                 // error codes reported

  /** The message side of the log. */
  datatype Bulletin = Bulletin(
    lastTold: Option<Telling>,
    toldEvents: seq<Event>,
    observations: seq<Observation>,
    emitted: seq<Event>)

  datatype History = History(dealings: Dealings, bulletin: Bulletin)

  const NOTHING := History(Dealings(None, 0, None, 0, 0, [], [], {}), Bulletin(None, [], [], []))

  function Deal(d: Dealings, entry: Entry): Dealings {
    match entry
    case Read(reply, polled) =>
      d.(lastRead := if reply.Some? then reply else d.lastRead,
         pollFailures := if !polled then d.pollFailures else if reply.Some? then 0 else d.pollFailures + 1)
    case Executing(cmd, origin) =>
      var e := d.(lastExecution := Some(Execution(cmd, origin)));
      if origin == FromPoll then e.(pollExecutions := d.pollExecutions + 1)
      else e.(executed := d.executed + [cmd])
    case Posted(event) =>
      if event == PauseDeferred then d.(deferrals := d.deferrals + 1)
      else if event.Fault? then d.(faults := d.faults + {event.code})
      else d
    case Requested(cmd, source) => d.(requested := d.requested + [Request(cmd, source)])
    case _ => d
  }

  function Tell(b: Bulletin, entry: Entry): Bulletin {
    match entry
    case Emitted(seen, events) => b.(observations := b.observations + [seen], emitted := b.emitted + events)
    case Told(message, at) =>
      b.(lastTold := Some(Telling(message, at)),
         toldEvents := b.toldEvents + if message.event.Some? then [message.event.value] else [])
    case _ => b
  }

  function Note(h: History, entry: Entry): History {
    History(Deal(h.dealings, entry), Tell(h.bulletin, entry))
  }

  function Recall(log: seq<Entry>): History {
    if log == [] then NOTHING else Note(Recall(log[..|log| - 1]), Last(log))
  }

  /** The snapshot the agent should be going by: the latest one read, until three polls in a row failed. */
  function Current(d: Dealings): Option<Snapshot> {
    if d.pollFailures >= OFFLINE_AFTER_FAILURES then None else d.lastRead
  }

  // ── what must hold of each entry ─────────────────────────────────────────────────────────

  /** What the printer and the clock answered is what the log says they did. */
  predicate AnswerOk(w: World, at: nat, entry: Entry) {
    match entry
    case Read(reply, polled) => reply == w.detail(at)
    case Sent(cmd, accepted) => accepted == w.accepts(at)
    case Emitted(seen, events) => seen.now == w.clock(at)
    case Printed(job, files) =>
      w.files(at).Reply? && ParseGcodeFiles(w.files(at).body, w.numbers) == Ok(files)
    case _ => true
  }

  /** The snapshot calls for the command: a job, for a pause one that is not paused, for a resume one that is. */
  predicate CallsFor(cmd: Command, s: Snapshot) {
    InJob(s) && (cmd == Pause ==> s.state != PAUSED) && (cmd == Resume ==> s.state == PAUSED)
  }

  /** A print of a file the list names, on an idle machine, with the mappings of its first entry. */
  predicate PrintOk(snapshot: Option<Snapshot>, job: PrintJob, files: seq<File>) {
    && snapshot.Some? && snapshot.value.state in {READY, COMPLETED, CANCELLED}
    && job.fileName != ""
    && exists i | 0 <= i < |files| ::
         && files[i].name == job.fileName && (forall j | 0 <= j < i :: files[j].name != job.fileName)
         && job.mappings == if files[i].usesMaterialStation then Mappings(files[i].tools) else []
  }

  /** A command goes out only while the latest snapshot read calls for it, and only as the command
      being executed; the poll loop executes nothing but a deferred pause, each on the strength of a
      deferral warning of its own; the queue executes requests in the order they came; the console
      requests no cancel; a fault is reported from the latest snapshot read, and once; the
      tracker is shown the current snapshot, and a print started only on an idle one. */
  predicate DealingOk(d: Dealings, entry: Entry) {
    match entry
    case Sent(cmd, accepted) =>
      && d.lastRead.Some? && CallsFor(cmd, d.lastRead.value)
      && d.lastExecution.Some? && d.lastExecution.value.cmd == cmd
      && (d.lastExecution.value.origin == FromPoll ==> cmd == Pause)
    case Executing(cmd, origin) =>
      if origin == FromPoll then cmd == Pause && d.pollExecutions < d.deferrals
      else |d.executed| < |d.requested| && d.requested[|d.executed|].cmd == cmd
    case Requested(cmd, source) => source == FromConsole ==> cmd != Cancel
    case Posted(event) =>
      event.Fault? ==>
        event.code !in d.faults && d.lastRead.Some? && event.code == d.lastRead.value.errorCode != ""
    case Emitted(seen, events) => seen.snapshot == Current(d)
    case Printed(job, files) => PrintOk(Current(d), job, files)
    case _ => true
  }

  /** The state text a message conveys; an empty status is how Obico is told Offline. */
  function TextOf(message: Message): StateText {
    if message.status.NoStatus? then Offline else message.status.text
  }

  /** The message says what the agent holds. */
  predicate Tells(message: Message, text: StateText, currentPrintTs: int) {
    && message.currentPrintTs == currentPrintTs
    && TextOf(message) == text
    && (message.status.NoStatus? <==> text == Offline)
  }

  /** Of the three flags the one that is set is that of the text. */
  predicate OneFlag(status: Status) {
    status.NoStatus? ||
    (&& status.text != Offline
     && (status.paused <==> status.text == Paused)
     && (status.printing <==> status.text == Printing)
     && (status.ready <==> status.text == Operational))
  }

  /** The status describes the snapshot: progress while a session is open, a code while in error. */
  predicate StatusFits(status: Status, seen: Option<Snapshot>, t: Tracker) {
    status.NoStatus? ||
    (&& seen.Some?
     && status.completion == (if t.activeFile.Some? then Some(seen.value.progress * 100.0) else None)
     && (status.error <==> seen.value.state == ERROR)
     && (status.errorCode.Some? <==> status.error && seen.value.errorCode != "")
     && (status.errorCode.Some? ==> status.errorCode.value == seen.value.errorCode)
     && status.fileName == if seen.value.fileName == "" then None else Some(seen.value.fileName))
  }

  /** A message describes the snapshot just shown to the tracker, what the tracker made of it, and the state
      text that everything shown so far comes to. Exactly the first carries settings; a later one without an
      event either changes the state text or comes a heartbeat after the one before; the flag of its text is
      set, and its time is that of the publish, unless the status is empty. The events of a publish are those the tracker emits. */
  predicate TellingOk(b: Bulletin, entry: Entry) {
    match entry
    case Told(message, at) =>
      && b.observations != []
      && Tells(message, TextAfter(b.observations), Track(IDLE, b.observations).tracker.currentPrintTs)
      && StatusFits(message.status, Last(b.observations).snapshot, Track(IDLE, b.observations).tracker)
      && at == Last(b.observations).now && (message.status.Status? ==> message.status.at == at)
      && (message.settings <==> b.lastTold.None?)
      && OneFlag(message.status)
      && (b.lastTold.Some? && message.event.None? ==>
            || TextOf(message) != TextOf(b.lastTold.value.message)
            || at - b.lastTold.value.at >= HEARTBEAT_S)
    case Emitted(seen, events) =>
      events == Observed(Track(IDLE, b.observations).tracker, seen.snapshot, seen.now).events
    case _ => true
  }

  predicate EntryOk(w: World, at: nat, h: History, entry: Entry) {
    && AnswerOk(w, at, entry)
    && DealingOk(h.dealings, entry)
    && TellingOk(h.bulletin, entry)
    && (entry.Told? ==> h.bulletin.observations != [] && Last(h.bulletin.observations).snapshot == Current(h.dealings))
  }

  ghost predicate Sound(w: World, log: seq<Entry>) {
    forall i | 0 <= i < |log| :: EntryOk(w, i, Recall(log[..i]), log[i])
  }

  lemma SoundSnoc(w: World, log: seq<Entry>, entry: Entry)
    requires Sound(w, log) && EntryOk(w, |log|, Recall(log), entry)
    ensures Sound(w, log + [entry])
    ensures Recall(log + [entry]) == Note(Recall(log), entry)
  {
    hide EntryOk, Note;
    var more := log + [entry];
    assert more[..|log|] == log;
    forall i | 0 <= i < |more|
      ensures EntryOk(w, i, Recall(more[..i]), more[i])
    {
      assert i < |log| ==> more[..i] == log[..i];
    }
  }

  // ── what holds between steps ─────────────────────────────────────────────────────────────

  predicate DealingsFit(a: State, d: Dealings) {
    && a.snapshot == Current(d) && a.failures == d.pollFailures
    && a.faultsReported == d.faults
    && (a.pending.None? || a.pending == Some(Pause))
    && d.pollExecutions + (if a.pending.Some? then 1 else 0) <= d.deferrals
  }

  function Commands(requests: seq<Request>): seq<Command> {
    seq(|requests|, i requires 0 <= i < |requests| => requests[i].cmd)
  }

  /** What is queued is what was requested and not executed yet. */
  predicate QueueFits(a: State, d: Dealings) {
    d.executed + a.commands == Commands(d.requested)
  }

  ghost predicate BulletinFits(a: State, b: Bulletin) {
    && (a.settingsSent <==> b.lastTold.Some?)
    && a.lastSentAt == (if b.lastTold.Some? then Some(b.lastTold.value.at) else None)
    && (b.lastTold.Some? ==> Tells(b.lastTold.value.message, a.text, a.tracker.currentPrintTs))
    && b.toldEvents == b.emitted
    && Track(IDLE, b.observations) == Tracked(a.tracker, b.emitted)
    && a.text == TextAfter(b.observations)
  }

  ghost predicate Consistent(w: World, a: State) {
    && Sound(w, a.log)
    && DealingsFit(a, Recall(a.log).dealings)
    && QueueFits(a, Recall(a.log).dealings)
    && BulletinFits(a, Recall(a.log).bulletin)
  }
}
