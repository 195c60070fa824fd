/**
 The tracker against a declarative reading of the same snapshots: cut the readable ones into maximal
 runs of one file's job, and describe each run on its own.
 */
module Sessions {
  import opened Sequences
  import opened Snapshots
  import opened JobTracking

  // ── the declarative reading ──────────────────────────────────────────────────────────────

  /** A readable snapshot and when it was taken. */
  datatype Sighting = Sighting(snapshot: Snapshot, now: real)

  /** The readable snapshots, in order. */
  function Known(observations: seq<Observation>): seq<Sighting> {
    if observations == [] then []
    else
      var o := observations[0];
      (if IsKnown(o.snapshot) then [Sighting(o.snapshot.value, o.now)] else []) + Known(observations[1..])
  }

  predicate SameJob(a: Snapshot, b: Snapshot) {
    a.HasJob() && b.HasJob() && a.fileName == b.fileName
  }

  /** How many leading sightings show a job on this file. */
  function RunLength(k: seq<Sighting>, file: string): (n: nat)
    ensures n <= |k|
    ensures forall i | 0 <= i < n :: k[i].snapshot.HasJob() && k[i].snapshot.fileName == file
    ensures n < |k| ==> !(k[n].snapshot.HasJob() && k[n].snapshot.fileName == file)
  {
    if k != [] && k[0].snapshot.HasJob() && k[0].snapshot.fileName == file
    then 1 + RunLength(k[1..], file) else 0
  }

  /** A maximal run of one file's job, and the readable snapshot that ended it, if one has. */
  datatype Session = Session(run: seq<Sighting>, closer: Option<Snapshot>)

  function Split(k: seq<Sighting>): (sessions: seq<Session>)
    ensures forall s | s in sessions :: s.run != []
    decreases |k|
  {
    if k == [] then []
    else if !k[0].snapshot.HasJob() then Split(k[1..])
    else
      var n := RunLength(k, k[0].snapshot.fileName);
      [Session(k[..n], if n < |k| then Some(k[n].snapshot) else None)] + Split(k[n..])
  }

  /** The changes between paused and not along a run. */
  function Transitions(wasPaused: bool, run: seq<Sighting>): seq<Event>
    decreases |run|
  {
    if run == [] then []
    else PauseTransition(wasPaused, run[0].snapshot) + Transitions(run[0].snapshot.IsPaused(), run[1..])
  }

  function Closing(s: Session): seq<Event>
    requires s.run != []
  {
    if s.closer.None? then [] else [EndEvent(Last(s.run).snapshot.progress, s.closer.value)]
  }

  function SessionEvents(s: Session): seq<Event>
    requires s.run != []
  {
    [PrintStarted] + Transitions(s.run[0].snapshot.IsPaused(), s.run[1..]) + Closing(s)
  }

  function SessionLog(sessions: seq<Session>): seq<Event>
    requires forall s | s in sessions :: s.run != []
  {
    if sessions == [] then [] else SessionEvents(sessions[0]) + SessionLog(sessions[1..])
  }

  /** Where the maximal same-file run that ends `k` began. */
  function RunStart(k: seq<Sighting>): (i: nat)
    requires k != []
    ensures i < |k|
    ensures forall j | i < j < |k| :: SameJob(k[j - 1].snapshot, k[j].snapshot)
    ensures i > 0 ==> !SameJob(k[i - 1].snapshot, k[i].snapshot)
  {
    if |k| >= 2 && SameJob(k[|k| - 2].snapshot, k[|k| - 1].snapshot) then RunStart(k[..|k| - 1])
    else |k| - 1
  }

  /** What the tracker should hold after the readable snapshots `k`. */
  function TrackerAfter(k: seq<Sighting>): Tracker {
    if k == [] || !Last(k).snapshot.HasJob() then IDLE
    else
      var s := Last(k).snapshot;
      Tracker(Truncate(k[RunStart(k)].now), Some(s.fileName), s.IsPaused(), s.progress)
  }

  // ── unreadable snapshots change nothing ──────────────────────────────────────────────────

  /** The tracker run over readable snapshots only. */
  function TrackKnown(t: Tracker, k: seq<Sighting>): Tracked
    decreases |k|
  {
    if k == [] then Tracked(t, [])
    else
      var first := Observed(t, Some(k[0].snapshot), k[0].now);
      var rest := TrackKnown(first.tracker, k[1..]);
      rest.(events := first.events + rest.events)
  }

  predicate AllKnown(k: seq<Sighting>) {
    forall i | 0 <= i < |k| :: k[i].snapshot.state != UNKNOWN
  }

  lemma {:induction false} KnownAreKnown(observations: seq<Observation>)
    ensures AllKnown(Known(observations))
  {
    if observations != [] {
      KnownAreKnown(observations[1..]);
    }
  }

  /** Snapshots that are missing or unfamiliar change no event, no timestamp and nothing else. */
  lemma {:induction false} StutterInvariance(t: Tracker, observations: seq<Observation>)
    ensures Track(t, observations) == TrackKnown(t, Known(observations))
    decreases |observations|
  {
    if observations != [] {
      hide Ends, Follow;
      var o := observations[0];
      var k := Known(observations[1..]);
      var next := Observed(t, o.snapshot, o.now);
      StutterInvariance(next.tracker, observations[1..]);
      if IsKnown(o.snapshot) {
        assert Known(observations)[1..] == k;
      } else {
        assert Known(observations) == k;
        assert next.events + Track(t, observations[1..]).events == Track(t, observations[1..]).events;
      }
    }
  }

  // ── the event log ────────────────────────────────────────────────────────────────────────

  /** From the middle of a session on `file`: what is left of it, then every later session. */
  function RestLog(wasPaused: bool, progress: real, file: string, k: seq<Sighting>): seq<Event> {
    var n := RunLength(k, file);
    Transitions(wasPaused, k[..n])
    + (if n < |k| then [EndEvent(if n == 0 then progress else k[n - 1].snapshot.progress, k[n].snapshot)] else [])
    + SessionLog(Split(k[n..]))
  }

  lemma RestLogEnds(wasPaused: bool, progress: real, file: string, k: seq<Sighting>)
    requires k != [] && RunLength(k, file) == 0
    ensures RestLog(wasPaused, progress, file, k) == [EndEvent(progress, k[0].snapshot)] + SessionLog(Split(k))
  {
    hide EndEvent, Split, SessionLog;
    assert k[0..] == k && k[..0] == [];
  }

  lemma RestLogGoesOn(wasPaused: bool, progress: real, file: string, k: seq<Sighting>)
    requires k != [] && RunLength(k, file) > 0
    ensures var s := k[0].snapshot;
            RestLog(wasPaused, progress, file, k) ==
            PauseTransition(wasPaused, s) + RestLog(s.IsPaused(), s.progress, file, k[1..])
  {
    hide EndEvent, Split, SessionLog, PauseTransition;
    var n, s := RunLength(k, file), k[0].snapshot;
    assert k[1..][n - 1..] == k[n..];
    assert k[..n][1..] == k[1..][..n - 1];
    assert n < |k| ==> k[1..][n - 1] == k[n];
    assert n > 1 ==> k[1..][n - 2] == k[n - 1];
    var end := if n < |k| then [EndEvent(k[n - 1].snapshot.progress, k[n].snapshot)] else [];
    Regroup(PauseTransition(wasPaused, s), Transitions(s.IsPaused(), k[1..][..n - 1]), end,
            SessionLog(Split(k[n..])));
  }

  lemma {:induction false} ActiveLog(t: Tracker, k: seq<Sighting>)
    requires AllKnown(k) && t.activeFile.Some?
    ensures TrackKnown(t, k).events == RestLog(t.paused, t.lastProgress, t.activeFile.value, k)
    decreases |k|, 1
  {
    hide RestLog, Split, SessionLog;
    var file := t.activeFile.value;
    if k == [] {
      EmptyRestLog(t.paused, t.lastProgress, file);
    } else {
      var s := k[0].snapshot;
      if RunLength(k, file) == 0 {
        RestLogEnds(t.paused, t.lastProgress, file, k);
        IdleLog(k);
        var started := Follow(IDLE, s, k[0].now);
        Associative([EndEvent(t.lastProgress, s)], started.events, TrackKnown(started.tracker, k[1..]).events);
      } else {
        RestLogGoesOn(t.paused, t.lastProgress, file, k);
        ActiveLog(Observed(t, Some(s), k[0].now).tracker, k[1..]);
      }
    }
  }

  lemma EmptyRestLog(wasPaused: bool, progress: real, file: string)
    ensures RestLog(wasPaused, progress, file, []) == []
  {
  }

  /** From between sessions. */
  lemma {:induction false} IdleLog(k: seq<Sighting>)
    requires AllKnown(k)
    ensures TrackKnown(IDLE, k).events == SessionLog(Split(k))
    decreases |k|, 0
  {
    if k != [] {
      var s := k[0].snapshot;
      if !s.HasJob() {
        IdleLog(k[1..]);
      } else {
        var next := Observed(IDLE, Some(s), k[0].now).tracker;
        var n := RunLength(k, s.fileName);
        ActiveLog(next, k[1..]);
        FirstSession(k);
      }
    }
  }

  lemma {:induction false} FirstSession(k: seq<Sighting>)
    requires k != [] && k[0].snapshot.HasJob()
    ensures var s := k[0].snapshot;
            SessionLog(Split(k)) ==
            [PrintStarted] + RestLog(s.IsPaused(), s.progress, s.fileName, k[1..])
  {
    hide EndEvent, PauseTransition;
    var s := k[0].snapshot;
    var n := RunLength(k, s.fileName);
    assert k[1..][n - 1..] == k[n..];
    assert k[..n][1..] == k[1..][..n - 1];
    assert n < |k| ==> k[1..][n - 1] == k[n];
    assert n > 1 ==> k[1..][n - 2] == k[n - 1];
    var session := Session(k[..n], if n < |k| then Some(k[n].snapshot) else None);
    assert Split(k)[0] == session && Split(k)[1..] == Split(k[n..]);
    var later := Transitions(s.IsPaused(), k[1..][..n - 1]);
    assert SessionEvents(session) == [PrintStarted] + later + Closing(session);
    Regroup([PrintStarted], later, Closing(session), SessionLog(Split(k[n..])));
  }

  /** The events emitted over any observations are those of the sessions the readable ones split into. */
  lemma {:induction false} LogIsSessionLog(observations: seq<Observation>)
    ensures Track(IDLE, observations).events == SessionLog(Split(Known(observations)))
  {
    KnownAreKnown(observations);
    StutterInvariance(IDLE, observations);
    IdleLog(Known(observations));
  }

  /** A missing or unfamiliar snapshot can be slipped in anywhere without a trace. */
  lemma {:induction false} InsertUnreadable(before: seq<Observation>, o: Observation, after: seq<Observation>)
    requires o.snapshot.None? || o.snapshot.value.state == UNKNOWN
    ensures Track(IDLE, before + [o] + after) == Track(IDLE, before + after)
  {
    TrackAppend(IDLE, before + [o], after);
    TrackAppend(IDLE, before, [o]);
    TrackAppend(IDLE, before, after);
    var t := Track(IDLE, before).tracker;
    assert [o][1..] == [];
    assert Track(t, [o]) == Tracked(t, []);
    assert Track(IDLE, before).events + [] == Track(IDLE, before).events;
  }

  // ── the tracker's state ──────────────────────────────────────────────────────────────────

  /** The readable snapshots are all but the missing ones and those of an unknown state. */
  lemma {:induction false} KnownSnoc(observations: seq<Observation>, o: Observation)
    ensures Known(observations + [o]) ==
            Known(observations) + if o.snapshot.Some? && o.snapshot.value.state != UNKNOWN
                                  then [Sighting(o.snapshot.value, o.now)] else []
  {
    if observations == [] {
      assert [o][1..] == [];
      assert observations + [o] == [o];
    } else {
      assert (observations + [o])[1..] == observations[1..] + [o];
      KnownSnoc(observations[1..], o);
    }
  }

  /** One more readable snapshot moves the tracker to what that snapshot calls for. */
  lemma TrackerAfterSnoc(k: seq<Sighting>, s: Sighting)
    requires s.snapshot.state != UNKNOWN
    ensures Observed(TrackerAfter(k), Some(s.snapshot), s.now).tracker == TrackerAfter(k + [s])
  {
    var more := k + [s];
    assert more[..|more| - 1] == k;
    if s.snapshot.HasJob() && k != [] && SameJob(Last(k).snapshot, s.snapshot) {
      assert more[|more| - 2] == Last(k);
      assert RunStart(more) == RunStart(k);
      assert more[RunStart(k)] == k[RunStart(k)];
    }
  }

  /** After any observations the active file, the paused flag and the last progress are those of the
      last readable snapshot, and the timestamp is that of the first of its maximal same-file run. */
  lemma TrackerIsDeclarative(observations: seq<Observation>)
    ensures var t, k := Track(IDLE, observations).tracker, Known(observations);
            && t == TrackerAfter(k)
            && (t.activeFile.Some? <==> k != [] && InJob(Last(k).snapshot))
            && (t.activeFile.Some? ==>
                  var s, since := Last(k).snapshot, k[RunStart(k)].now;
                  && t.activeFile.value == s.fileName && t.lastProgress == s.progress
                  && (t.paused <==> s.state == PAUSED)
                  && IsWholePartOf(t.currentPrintTs, since))
            && (t.activeFile.None? ==> t.currentPrintTs == -1)
  {
    TrackedAfter(observations);
  }

  /** A snapshot of a job: a file, and a state in which the machine is at work on it. */
  predicate InJob(s: Snapshot) {
    s.fileName != "" && (s.state == PRINTING || s.state == HEATING || s.state == BUSY || s.state == PAUSED)
  }

  /** The integer part of a number, towards zero. */
  predicate IsWholePartOf(n: int, x: real) {
    if x >= 0.0 then n as real <= x < n as real + 1.0 else n as real - 1.0 < x <= n as real
  }

  lemma {:induction false} TrackedAfter(observations: seq<Observation>)
    ensures Track(IDLE, observations).tracker == TrackerAfter(Known(observations))
  {
    if observations != [] {
      hide Observed, TrackerAfter;
      var front, o := observations[..|observations| - 1], Last(observations);
      assert observations == front + [o];
      TrackedAfter(front);
      TrackAppend(IDLE, front, [o]);
      var t := Track(IDLE, front).tracker;
      SingleObservation(t, o);
      KnownSnoc(front, o);
      if IsKnown(o.snapshot) {
        TrackerAfterSnoc(Known(front), Sighting(o.snapshot.value, o.now));
      } else {
        UnreadableObservation(t, o);
        assert Known(front) + [] == Known(front);
      }
    } else {
      assert TrackerAfter([]) == IDLE;
    }
  }

  lemma SingleObservation(t: Tracker, o: Observation)
    ensures Track(t, [o]) == Observed(t, o.snapshot, o.now)
  {
    hide Observed;
    assert [o][1..] == [];
    var first := Observed(t, o.snapshot, o.now);
    assert Track(first.tracker, []) == Tracked(first.tracker, []);
    assert first.events + [] == first.events;
  }

  lemma UnreadableObservation(t: Tracker, o: Observation)
    requires !IsKnown(o.snapshot)
    ensures Observed(t, o.snapshot, o.now) == Tracked(t, [])
  {
  }

  // ── the grammar of the log ───────────────────────────────────────────────────────────────

  /** Pauses and resumes in turn, beginning with the one that leaves `paused`. */
  predicate Alternates(paused: bool, events: seq<Event>)
    decreases |events|
  {
    events == [] ||
    (events[0] == (if paused then PrintResumed else PrintPaused) && Alternates(!paused, events[1..]))
  }

  lemma {:induction false} TransitionsAlternate(wasPaused: bool, run: seq<Sighting>)
    ensures Alternates(wasPaused, Transitions(wasPaused, run))
    ensures |Transitions(wasPaused, run)| == Changes(wasPaused, run)
    decreases |run|
  {
    if run != [] {
      var s := run[0].snapshot;
      TransitionsAlternate(s.IsPaused(), run[1..]);
      var later := Transitions(s.IsPaused(), run[1..]);
      var now := PauseTransition(wasPaused, s);
      if now == [] {
        assert now + later == later;
      } else {
        assert (now + later)[1..] == later;
      }
    }
  }

  /** How often a run goes from paused to not paused or back. */
  function Changes(wasPaused: bool, run: seq<Sighting>): nat
    decreases |run|
  {
    if run == [] then 0
    else
      var paused := run[0].snapshot.state == PAUSED;
      (if paused == wasPaused then 0 else 1) + Changes(paused, run[1..])
  }

  /** What a session that had come to `progress` ends in, once `closer` is read. */
  predicate Verdict(e: Event, progress: real, closer: Snapshot) {
    && (e == PrintDone <==> closer.state == COMPLETED || (closer.state == READY && progress >= 0.995))
    && (e == PrintCancelled <==> closer.state == CANCELLED)
    && (e == PrintFailed <==>
          closer.state !in {COMPLETED, CANCELLED, READY} || (closer.state == READY && progress < 0.995))
  }

  /** A session is one file's job throughout, and what closes it is not. Its events: started, then pauses and
      resumes in turn, one for each change, then one end unless it goes on. */
  ghost predicate SessionShape(s: Session, events: seq<Event>)
    requires s.run != []
  {
    OneJob(s) && exists middle: seq<Event>, end: seq<Event> :: SessionParts(s, events, middle, end)
  }

  predicate OneJob(s: Session)
    requires s.run != []
  {
    var file := s.run[0].snapshot.fileName;
    && (forall i | 0 <= i < |s.run| :: InJob(s.run[i].snapshot) && s.run[i].snapshot.fileName == file)
    && (s.closer.Some? ==> !(InJob(s.closer.value) && s.closer.value.fileName == file))
  }

  predicate SessionParts(s: Session, events: seq<Event>, middle: seq<Event>, end: seq<Event>)
    requires s.run != []
  {
    var paused := s.run[0].snapshot.state == PAUSED;
    && events == [PrintStarted] + middle + end
    && Alternates(paused, middle) && |middle| == Changes(paused, s.run[1..])
    && (if s.closer.None? then end == []
        else |end| == 1 && Verdict(end[0], Last(s.run).snapshot.progress, s.closer.value))
  }

  lemma SessionEventsShape(s: Session)
    requires s.run != []
    requires forall i | 0 <= i < |s.run| :: SameJob(s.run[0].snapshot, s.run[i].snapshot)
    requires s.closer.Some? ==> !SameJob(s.run[0].snapshot, s.closer.value)
    ensures SessionShape(s, SessionEvents(s))
  {
    var first := s.run[0].snapshot;
    assert OneJob(s);
    TransitionsAlternate(first.IsPaused(), s.run[1..]);
    if s.closer.Some? {
      EndIsVerdict(Last(s.run).snapshot.progress, s.closer.value);
    }
    hide Verdict, EndEvent, Alternates, Transitions, Changes, OneJob;
    assert SessionParts(s, SessionEvents(s), Transitions(first.IsPaused(), s.run[1..]), Closing(s));
  }

  lemma EndIsVerdict(progress: real, closer: Snapshot)
    ensures Verdict(EndEvent(progress, closer), progress, closer)
  {
  }

  /** The sessions a log splits into are maximal runs. */
  lemma {:induction false} SplitRuns(k: seq<Sighting>)
    ensures forall s | s in Split(k) ::
              && (forall i | 0 <= i < |s.run| :: SameJob(s.run[0].snapshot, s.run[i].snapshot))
              && (s.closer.Some? ==> !SameJob(s.run[0].snapshot, s.closer.value))
    decreases |k|
  {
    if k != [] {
      if !k[0].snapshot.HasJob() {
        SplitRuns(k[1..]);
      } else {
        var n := RunLength(k, k[0].snapshot.fileName);
        SplitRuns(k[n..]);
        var first := Session(k[..n], if n < |k| then Some(k[n].snapshot) else None);
        assert Split(k) == [first] + Split(k[n..]);
        assert forall i | 0 <= i < n :: first.run[i] == k[i];
      }
    }
  }

  lemma {:induction false} OnlyLastOpen(k: seq<Sighting>)
    ensures var sessions := Split(k);
            && (forall i | 0 <= i < |sessions| - 1 :: sessions[i].closer.Some?)
            && ((sessions != [] && Last(sessions).closer.None?) <==> (k != [] && Last(k).snapshot.HasJob()))
    decreases |k|
  {
    hide RunLength;
    if k != [] {
      if !k[0].snapshot.HasJob() {
        OnlyLastOpen(k[1..]);
      } else {
        var n := RunLength(k, k[0].snapshot.fileName);
        OnlyLastOpen(k[n..]);
        assert Split(k) == [Session(k[..n], if n < |k| then Some(k[n].snapshot) else None)] + Split(k[n..]);
        if n < |k| {
          ClosedThenMore(k[n..]);
        }
      }
    }
  }

  /** Sightings that end in a job split into at least one session. */
  lemma {:induction false} ClosedThenMore(k: seq<Sighting>)
    requires k != []
    ensures Last(k).snapshot.HasJob() ==> Split(k) != []
    decreases |k|
  {
    if !k[0].snapshot.HasJob() && |k| > 1 {
      ClosedThenMore(k[1..]);
    }
  }

  /** Every log is a sequence of well-shaped sessions, of which only the last can be open; it is open
      exactly when the tracker has an active file. */
  lemma {:induction false} EventGrammar(observations: seq<Observation>)
    ensures var sessions := Split(Known(observations));
            && Track(IDLE, observations).events == SessionLog(sessions)
            && (forall i | 0 <= i < |sessions| :: SessionShape(sessions[i], SessionEvents(sessions[i])))
            && (forall i | 0 <= i < |sessions| - 1 :: sessions[i].closer.Some?)
            && ((sessions != [] && Last(sessions).closer.None?) <==>
                Track(IDLE, observations).tracker.activeFile.Some?)
  {
    hide SessionShape, SessionEvents, Track, Split, TrackerAfter;
    var k := Known(observations);
    LogIsSessionLog(observations);
    TrackerIsDeclarative(observations);
    OnlyLastOpen(k);
    SplitRuns(k);
    forall i | 0 <= i < |Split(k)|
      ensures SessionShape(Split(k)[i], SessionEvents(Split(k)[i]))
    {
      SessionEventsShape(Split(k)[i]);
    }
  }

  /** One snapshot gives two events only by replacing one file's job with another's: a failure, then
      a start. */
  lemma TwoEventsAreASwap(t: Tracker, snapshot: Option<Snapshot>, now: real)
    ensures var events := Observed(t, snapshot, now).events;
            && |events| <= 2
            && (|events| == 2 ==> events == [PrintFailed, PrintStarted])
            && (|events| == 2 <==>
                snapshot.Some? && InJob(snapshot.value) && t.activeFile.Some?
                && t.activeFile.value != snapshot.value.fileName)
  {
  }
}
