/**
 Every step of the agent keeps its log sound and its state consistent with what the log tells.
 */
module AgentInvariant {
  import opened Sequences
  import opened Snapshots
  import opened JobTracking
  import opened Sessions
  import opened GcodeFiles
  import opened ObicoStatus
  import opened Agents
  import opened AgentHistory

  // ── publishing ───────────────────────────────────────────────────────────────────────────

  /** What holds of the message side while a publish is under way. */
  predicate Publishing(a: State, b: Bulletin) {
    && (a.settingsSent <==> b.lastTold.Some?)
    && a.lastSentAt == (if b.lastTold.Some? then Some(b.lastTold.value.at) else None)
    && a.text == TextAfter(b.observations)
    && b.observations != [] && Last(b.observations).snapshot == a.snapshot
    && Track(IDLE, b.observations).tracker == a.tracker
  }

  lemma MissingIsOffline(a: State, b: Bulletin)
    requires Publishing(a, b)
    ensures a.snapshot.None? ==> a.text == Offline
  {
    hide Track;
  }

  lemma MessageTells(a: State, event: Option<Event>, now: real)
    requires a.snapshot.None? ==> a.text == Offline
    ensures Tells(MessageNow(a, event, now), a.text, a.tracker.currentPrintTs)
    ensures OneFlag(MessageNow(a, event, now).status)
    ensures StatusFits(MessageNow(a, event, now).status, a.snapshot, a.tracker)
    ensures MessageNow(a, event, now).status.Status? ==> MessageNow(a, event, now).status.at == now
  {
  }

  lemma SendStatusSound(w: World, a: State, event: Option<Event>, now: real)
    requires Sound(w, a.log) && Publishing(a, Recall(a.log).bulletin) && a.snapshot == Current(Recall(a.log).dealings)
    requires Last(Recall(a.log).bulletin.observations).now == now
    requires var last := Recall(a.log).bulletin.lastTold;
             event.None? && last.Some? ==>
               a.text != TextOf(last.value.message) || now - last.value.at >= HEARTBEAT_S
    ensures var b, was := SendStatus(a, event, now), Recall(a.log);
            && Sound(w, b.log)
            && Recall(b.log) == was.(bulletin := was.bulletin.(
                 lastTold := Some(Telling(MessageNow(a, event, now), now)),
                 toldEvents := was.bulletin.toldEvents + if event.Some? then [event.value] else []))
            && Publishing(b, Recall(b.log).bulletin)
  {
    MissingIsOffline(a, Recall(a.log).bulletin);
    hide Sound, Recall, Track, TextAfter;
    MessageTells(a, event, now);
    SoundSnoc(w, a.log, Told(MessageNow(a, event, now), now));
  }

  /** What a message per event does to the history: the last of them tells what the agent now holds. */
  ghost predicate ToldAll(was: History, next: History, events: seq<Event>, a: State, now: real) {
    && next.dealings == was.dealings
    && next.bulletin.lastTold.Some?
    && next.bulletin == was.bulletin.(
         lastTold := next.bulletin.lastTold, toldEvents := was.bulletin.toldEvents + events)
    && next.bulletin.lastTold.value.at == now
    && Tells(next.bulletin.lastTold.value.message, a.text, a.tracker.currentPrintTs)
  }

  lemma FirstTold(w: World, a: State, event: Event, now: real)
    requires Sound(w, a.log) && Publishing(a, Recall(a.log).bulletin) && a.snapshot == Current(Recall(a.log).dealings)
    requires Last(Recall(a.log).bulletin.observations).now == now
    ensures var b := SendStatus(a, Some(event), now);
            && Sound(w, b.log) && Publishing(b, Recall(b.log).bulletin)
            && Recall(b.log).bulletin.observations == Recall(a.log).bulletin.observations
            && ToldAll(Recall(a.log), Recall(b.log), [event], a, now)
  {
    MissingIsOffline(a, Recall(a.log).bulletin);
    hide Sound, Recall, Tells, MessageNow, Track, TextAfter, Current, Publishing;
    SendStatusSound(w, a, Some(event), now);
    MessageTells(a, Some(event), now);
  }

  lemma ToldOneMore(h0: History, h1: History, h2: History, events: seq<Event>, a: State, now: real)
    requires events != [] && ToldAll(h0, h1, [events[0]], a, now) && ToldAll(h1, h2, events[1..], a, now)
    ensures ToldAll(h0, h2, events, a, now)
  {
    hide Tells;
    Associative(h0.bulletin.toldEvents, [events[0]], events[1..]);
    assert [events[0]] + events[1..] == events;
  }

  lemma {:induction false} SendEventsSound(w: World, a: State, events: seq<Event>, now: real)
    requires events != []
    requires Sound(w, a.log) && Publishing(a, Recall(a.log).bulletin) && a.snapshot == Current(Recall(a.log).dealings)
    requires Last(Recall(a.log).bulletin.observations).now == now
    ensures var b := SendEvents(a, events, now);
            && Sound(w, b.log) && ToldAll(Recall(a.log), Recall(b.log), events, a, now)
            && b == a.(settingsSent := true, lastSentAt := Some(now), log := b.log)
    decreases |events|
  {
    hide Sound, Recall, MessageNow, Publishing, Tells, Current;
    FirstTold(w, a, events[0], now);
    var next := SendStatus(a, Some(events[0]), now);
    if |events| == 1 {
      assert SendEvents(a, events, now) == SendEvents(next, events[1..], now) == next;
      assert [events[0]] == events;
    } else {
      SendEventsSound(w, next, events[1..], now);
      var b := SendEvents(next, events[1..], now);
      assert SendEvents(a, events, now) == b;
      ToldOneMore(Recall(a.log), Recall(next.log), Recall(b.log), events, a, now);
    }
  }

  /** Without an event the tracker keeps its session and whether it is paused. */
  lemma EventlessKeepsSession(t: Tracker, snapshot: Option<Snapshot>, now: real)
    requires Observed(t, snapshot, now).events == []
    ensures var next := Observed(t, snapshot, now).tracker;
            next == t.(lastProgress := next.lastProgress)
  {
  }

  lemma TextSnoc(observations: seq<Observation>, seen: Observation)
    ensures TextAfter(observations + [seen]) == ObicoStateText(seen.snapshot, TextAfter(observations))
  {
    assert (observations + [seen])[..|observations|] == observations;
  }

  lemma TrackSnoc(observations: seq<Observation>, seen: Observation)
    ensures var was := Track(IDLE, observations);
            var now := Observed(was.tracker, seen.snapshot, seen.now);
            Track(IDLE, observations + [seen]) == now.(events := was.events + now.events)
  {
    TrackAppend(IDLE, observations, [seen]);
    SingleObservation(Track(IDLE, observations).tracker, seen);
  }

  /** A publish, whatever the snapshot has become since the last one. */
  lemma PublishSound(w: World, a: State, now: real)
    requires Sound(w, a.log) && BulletinFits(a, Recall(a.log).bulletin)
    requires a.snapshot == Current(Recall(a.log).dealings) && now == w.clock(|a.log|)
    ensures var b := Publish(a, now);
            && Sound(w, b.log) && BulletinFits(b, Recall(b.log).bulletin)
            && Recall(b.log).dealings == Recall(a.log).dealings
            && b == a.(tracker := b.tracker, text := b.text, settingsSent := b.settingsSent,
                       lastSentAt := b.lastSentAt, log := b.log)
            && b.lastSentAt.Some? && now - b.lastSentAt.value < HEARTBEAT_S
  {
    hide Sound, Recall, Observed, TextAfter, Tells, MessageNow, Track;
    var seen := Observation(a.snapshot, now);
    var tracked := Observed(a.tracker, a.snapshot, now);
    var was := Recall(a.log).bulletin;
    var text := ObicoStateText(a.snapshot, a.text);
    SoundSnoc(w, a.log, Emitted(seen, tracked.events));
    TrackSnoc(was.observations, seen);
    TextSnoc(was.observations, seen);
    var b := a.(tracker := tracked.tracker, text := text).Log(Emitted(seen, tracked.events));
    if tracked.events == [] {
      EventlessKeepsSession(a.tracker, a.snapshot, now);
      assert was.emitted + [] == was.emitted;
      assert was.toldEvents + [] == was.toldEvents;
      if text != a.text || !a.settingsSent || Due(a.lastSentAt, now) {
        TellsItsText(was.lastTold, a);
        SendStatusSound(w, b, None, now);
        MessageTells(b, None, now);
      }
    } else {
      SendEventsSound(w, b, tracked.events, now);
    }
  }

  lemma TellsItsText(last: Option<Telling>, a: State)
    requires last.Some? ==> Tells(last.value.message, a.text, a.tracker.currentPrintTs)
    ensures last.Some? ==> TextOf(last.value.message) == a.text
  {
  }

  // ── one command ──────────────────────────────────────────────────────────────────────────

  /** The latest read calls for the command that is being executed. */
  predicate Underway(cmd: Command, snapshot: Option<Snapshot>, d: Dealings) {
    && snapshot.Some? && snapshot == Current(d)
    && Applicable(cmd, snapshot.value)
    && d.lastExecution.Some? && d.lastExecution.value.cmd == cmd
    && (d.lastExecution.value.origin == FromPoll ==> cmd == Pause)
  }

  /** Reads, sends and a report of failure leave all but the latest snapshot as it was. */
  ghost predicate OnlyRead(before: seq<Entry>, r: Attempt) {
    Recall(r.log) == Recall(before).(dealings := Recall(before).dealings.(lastRead := r.snapshot))
  }

  lemma {:induction false} ReadBackSound(
    w: World, cmd: Command, left: nat, snapshot: Option<Snapshot>, log: seq<Entry>)
    requires Sound(w, log) && Underway(cmd, snapshot, Recall(log).dealings)
    ensures var r := ReadBack(w, cmd, left, snapshot, log);
            && Sound(w, r.log) && OnlyRead(log, r) && r.snapshot.Some?
            && (r.outcome == NotTaken ==> Underway(cmd, r.snapshot, Recall(r.log).dealings))
    decreases left
  {
    hide Sound, Recall;
    if left > 0 {
      var reply := w.detail(|log|);
      SoundSnoc(w, log, Read(reply, false));
      var log' := log + [Read(reply, false)];
      if reply.None? {
        ReadBackSound(w, cmd, left - 1, snapshot, log');
      } else if !Expected(cmd, reply.value) && (cmd == Cancel || reply.value.HasJob()) {
        ReadBackSound(w, cmd, left - 1, reply, log');
      }
    }
  }

  lemma {:induction false} TryCommandSound(
    w: World, cmd: Command, left: nat, snapshot: Option<Snapshot>, log: seq<Entry>)
    requires Sound(w, log) && Underway(cmd, snapshot, Recall(log).dealings)
    ensures var r := TryCommand(w, cmd, left, snapshot, log);
            Sound(w, r.log) && OnlyRead(log, r) && r.snapshot.Some?
    decreases left
  {
    hide Sound, Recall, ReadBack;
    if left > 0 {
      var accepted := w.accepts(|log|);
      SoundSnoc(w, log, Sent(cmd, accepted));
      var log' := log + [Sent(cmd, accepted)];
      if !accepted {
        if left == 1 {
          SoundSnoc(w, log', Posted(CommandFailed(cmd)));
        } else {
          TryCommandSound(w, cmd, left - 1, snapshot, log');
        }
      } else {
        ReadBackSound(w, cmd, READBACK_ATTEMPTS, snapshot, log');
        var back := ReadBack(w, cmd, READBACK_ATTEMPTS, snapshot, log');
        if back.outcome == NotTaken {
          TryCommandSound(w, cmd, left - 1, back.snapshot, back.log);
        }
      }
    }
  }

  /** The state just before a command is executed: taken off the queue, or off the pending intent. */
  predicate ReadyToExecute(a: State, d: Dealings, cmd: Command, origin: Origin) {
    && DealingsFit(a, d)
    && match origin
       case FromQueue => d.executed + [cmd] + a.commands == Commands(d.requested)
       case FromPoll => QueueFits(a, d) && cmd == Pause && a.pending.None? && d.pollExecutions < d.deferrals
  }

  lemma {:induction false} ExecuteConsistent(w: World, a: State, cmd: Command, origin: Origin)
    requires Sound(w, a.log) && BulletinFits(a, Recall(a.log).bulletin)
    requires ReadyToExecute(a, Recall(a.log).dealings, cmd, origin)
    ensures Consistent(w, Execute(w, a, cmd, origin))
  {
    hide Sound, Recall, BulletinFits, TryCommand, Publish;
    if origin == FromQueue {
      var d := Recall(a.log).dealings;
      assert (d.executed + [cmd] + a.commands)[|d.executed|] == cmd;
    }
    SoundSnoc(w, a.log, Executing(cmd, origin));
    var b := a.(pending := if cmd == Pause then a.pending else None).Log(Executing(cmd, origin));
    BulletinCarries(a, b, Recall(a.log).bulletin);
    if b.snapshot.Some? && Applicable(cmd, b.snapshot.value) {
      TryCommandSound(w, cmd, MAX_COMMAND_ATTEMPTS, b.snapshot, b.log);
      var tried := TryCommand(w, cmd, MAX_COMMAND_ATTEMPTS, b.snapshot, b.log);
      var c := b.(snapshot := tried.snapshot, log := tried.log);
      BulletinCarries(b, c, Recall(b.log).bulletin);
      ConcludeConsistent(w, c, cmd, tried.outcome);
    }
  }

  /** The verdict on a command, and the publish that follows it. */
  lemma ConcludeConsistent(w: World, a: State, cmd: Command, outcome: Outcome)
    requires Consistent(w, a)
    ensures var b := Conclude(a, cmd, outcome); Consistent(w, Publish(b, w.clock(|b.log|)))
  {
    hide Sound, Recall, BulletinFits, Publish;
    var b := Conclude(a, cmd, outcome);
    if outcome == NotTaken {
      SoundSnoc(w, a.log, Last(b.log));
    }
    BulletinCarries(a, b, Recall(a.log).bulletin);
    PublishSound(w, b, w.clock(|b.log|));
  }

  lemma BulletinCarries(a: State, b: State, bulletin: Bulletin)
    requires BulletinFits(a, bulletin)
    requires b.settingsSent == a.settingsSent && b.lastSentAt == a.lastSentAt && b.text == a.text
    requires b.tracker == a.tracker
    ensures BulletinFits(b, bulletin)
  {
    hide Tells, TextAfter, Track;
  }

  // ── polls and requests ───────────────────────────────────────────────────────────────────

  lemma PollConsistent(w: World, a: State)
    requires Consistent(w, a)
    ensures Consistent(w, PollOnce(w, a))
  {
    hide Sound, Recall, BulletinFits, Execute, Publish;
    var (b, goOn) := ReadPrinter(w, a);
    SoundSnoc(w, a.log, Read(w.detail(|a.log|), true));
    BulletinCarries(a, b, Recall(a.log).bulletin);
    if goOn {
      var now := w.clock(|b.log|);
      PublishSound(w, b, now);
      var c := Publish(b, now);
      var d := ReportFault(c);
      if d != c {
        SoundSnoc(w, c.log, Last(d.log));
      }
      BulletinCarries(c, d, Recall(c.log).bulletin);
      ServiceConsistent(w, d);
    }
  }

  lemma ServiceConsistent(w: World, a: State)
    requires Consistent(w, a)
    ensures Consistent(w, ServicePending(w, a))
  {
    hide Sound, Recall, BulletinFits, Execute;
    var dropped := a.(pending := None);
    BulletinCarries(a, dropped, Recall(a.log).bulletin);
    if a.pending.Some? && a.snapshot.Some? {
      var s := a.snapshot.value;
      if s.HasJob() && !s.IsPaused() && !s.WarmingUp() {
        ExecuteConsistent(w, dropped, a.pending.value, FromPoll);
      }
    }
  }

  lemma EnqueueConsistent(w: World, a: State, cmd: Command, source: Source)
    requires Consistent(w, a) && (source == FromConsole ==> cmd != Cancel)
    ensures Consistent(w, Enqueue(a, cmd, source))
  {
    hide Sound, Recall, BulletinFits;
    var b := Enqueue(a, cmd, source);
    SoundSnoc(w, a.log, Requested(cmd, source));
    BulletinCarries(a, b, Recall(a.log).bulletin);
    var d := Recall(a.log).dealings;
    assert Commands(d.requested + [Request(cmd, source)]) == Commands(d.requested) + [cmd];
    Associative(d.executed, a.commands, [cmd]);
  }

  lemma {:induction false} HandleConsistent(w: World, a: State, cmds: seq<string>)
    requires Consistent(w, a)
    ensures Consistent(w, HandleCommands(a, cmds))
    decreases |cmds|
  {
    hide Consistent, Enqueue;
    if cmds != [] {
      var cmd := CommandOf(cmds[0]);
      if cmd.Some? {
        EnqueueConsistent(w, a, cmd.value, FromServer);
      }
      HandleConsistent(w, if cmd.Some? then Enqueue(a, cmd.value, FromServer) else a, cmds[1..]);
    }
  }

  lemma DrainConsistent(w: World, a: State)
    requires Consistent(w, a)
    ensures Consistent(w, Drain(w, a))
  {
    hide Sound, Recall, BulletinFits, Execute;
    if a.commands != [] {
      var b := a.(commands := a.commands[1..]);
      var d := Recall(a.log).dealings;
      BulletinCarries(a, b, Recall(a.log).bulletin);
      Associative(d.executed, [a.commands[0]], b.commands);
      assert [a.commands[0]] + b.commands == a.commands;
      ExecuteConsistent(w, b, a.commands[0], FromQueue);
    }
  }

  lemma StartFileConsistent(w: World, a: State, fileName: string)
    requires Consistent(w, a)
    ensures Consistent(w, StartFile(w, a, fileName))
  {
    hide Sound, Recall, BulletinFits, StartPrint, ParseGcodeFiles, Mappings;
    var listing := w.files(|a.log|);
    StartedPrints(a.snapshot, fileName, listing, w.accepts(|a.log|), w.numbers);
    var b := StartFile(w, a, fileName);
    if b != a {
      SoundSnoc(w, a.log, Last(b.log));
      BulletinCarries(a, b, Recall(a.log).bulletin);
    }
  }

  lemma DoConsistent(w: World, a: State, step: Step)
    requires Consistent(w, a)
    ensures Consistent(w, Do(w, a, step))
  {
    hide Consistent, PollOnce, Drain, HandleCommands, Enqueue, StartFile;
    match step
    case Poll => PollConsistent(w, a);
    case DrainOne => DrainConsistent(w, a);
    case Console(cmd) =>
      if cmd == "pause" || cmd == "resume" {
        EnqueueConsistent(w, a, CommandOf(cmd).value, FromConsole);
      }
    case Server(cmds) => HandleConsistent(w, a, cmds);
    case StartOf(fileName) => StartFileConsistent(w, a, fileName);
  }

  /** Whatever the printer and the clock answer, every run keeps every entry of its log in order and
      ends in a state that agrees with it. */
  lemma {:induction false} RunConsistent(w: World, a: State, steps: seq<Step>)
    requires Consistent(w, a)
    ensures Consistent(w, Run(w, a, steps))
    decreases |steps|
  {
    hide Consistent, Do;
    if steps != [] {
      DoConsistent(w, a, steps[0]);
      RunConsistent(w, Do(w, a, steps[0]), steps[1..]);
    }
  }

  lemma StartConsistent(w: World)
    ensures Consistent(w, START)
  {
  }
}
