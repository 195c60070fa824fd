/**
 The job tracker: consecutive snapshots turned into print events, and the integer that names a
 print session.
 */
module JobTracking {
  import opened Sequences
  import opened Snapshots

  datatype Event = PrintStarted | PrintPaused | PrintResumed | PrintDone | PrintCancelled | PrintFailed

  const DONE_THRESHOLD: real := 0.995

  /** Python's `int` of a float: towards zero. */
  function Truncate(x: real): int {
    if x >= 0.0 then x.Floor else -(-x).Floor
  }

  // ── one observation ──────────────────────────────────────────────────────────────────────

  datatype Tracker = Tracker(currentPrintTs: int, activeFile: Option<string>, paused: bool, lastProgress: real)

  const IDLE := Tracker(-1, None, false, 0.0)

  /** A tracker and the events it has emitted. */
  datatype Tracked = Tracked(tracker: Tracker, events: seq<Event>)

  /** Neither an unreadable printer nor an unfamiliar state says anything about the job. */
  predicate IsKnown(snapshot: Option<Snapshot>) {
    snapshot.Some? && snapshot.value.state != UNKNOWN
  }

  function EndEvent(lastProgress: real, closer: Snapshot): Event {
    if closer.state == COMPLETED then PrintDone
    else if closer.state == CANCELLED then PrintCancelled
    else if closer.state == READY && lastProgress >= DONE_THRESHOLD then PrintDone
    else PrintFailed
  }

  /** The active session, if any, does not go on with `s`. */
  predicate Ends(t: Tracker, s: Snapshot) {
    t.activeFile.Some? && (!s.HasJob() || s.fileName != t.activeFile.value)
  }

  function Follow(t: Tracker, s: Snapshot, now: real): Tracked {
    if !s.HasJob() then Tracked(t, [])
    else if t.activeFile.None? then
      Tracked(Tracker(Truncate(now), Some(s.fileName), s.IsPaused(), s.progress), [PrintStarted])
    else
      Tracked(t.(paused := s.IsPaused(), lastProgress := s.progress), PauseTransition(t.paused, s))
  }

  function PauseTransition(wasPaused: bool, s: Snapshot): seq<Event> {
    if s.IsPaused() == wasPaused then []
    else if s.IsPaused() then [PrintPaused]
    else [PrintResumed]
  }

  function Observed(t: Tracker, snapshot: Option<Snapshot>, now: real): Tracked {
    if !IsKnown(snapshot) then Tracked(t, [])
    else
      var s := snapshot.value;
      if Ends(t, s) then
        var next := Follow(IDLE, s, now);
        next.(events := [EndEvent(t.lastProgress, s)] + next.events)
      else Follow(t, s, now)
  }

  // ── the object ───────────────────────────────────────────────────────────────────────────

  class JobTracker {
    var currentPrintTs: int
    var activeFile: Option<string>
    var paused: bool
    var lastProgress: real

    function Value(): Tracker
      reads this
    {
      Tracker(currentPrintTs, activeFile, paused, lastProgress)
    }

    constructor ()
      ensures Value() == IDLE
    {
      currentPrintTs, activeFile, paused, lastProgress := -1, None, false, 0.0;
    }

    method Observe(snapshot: Option<Snapshot>, now: real) returns (events: seq<Event>)
      modifies this
      ensures Tracked(Value(), events) == Observed(old(Value()), snapshot, now)
    {
      events := [];
      if snapshot.None? || snapshot.value.state == UNKNOWN {
        return;
      }
      var s := snapshot.value;
      if activeFile.Some? && (!s.HasJob() || s.fileName != activeFile.value) {
        var end := End(s);
        events := events + [end];
      }
      if s.HasJob() {
        if activeFile.None? {
          var start := Start(s, now);
          events := events + [start];
        } else {
          var transition := Transition(s);
          events := events + transition;
        }
        lastProgress := s.progress;
      }
    }

    method Start(s: Snapshot, now: real) returns (event: Event)
      modifies this
      ensures event == PrintStarted
      ensures Value() == Tracker(Truncate(now), Some(s.fileName), s.IsPaused(), old(lastProgress))
    {
      currentPrintTs := Truncate(now);
      activeFile := Some(s.fileName);
      paused := s.state == PAUSED;
      return PrintStarted;
    }

    method Transition(s: Snapshot) returns (events: seq<Event>)
      modifies this
      ensures events == PauseTransition(old(paused), s)
      ensures Value() == old(Value()).(paused := s.IsPaused())
    {
      var pausedNow := s.state == PAUSED;
      if pausedNow == paused {
        return [];
      }
      paused := pausedNow;
      return [if pausedNow then PrintPaused else PrintResumed];
    }

    method End(s: Snapshot) returns (event: Event)
      modifies this
      ensures event == EndEvent(old(lastProgress), s) && Value() == IDLE
    {
      if s.state == COMPLETED {
        event := PrintDone;
      } else if s.state == CANCELLED {
        event := PrintCancelled;
      } else {
        var finished := lastProgress >= DONE_THRESHOLD;
        event := if s.state == READY && finished then PrintDone else PrintFailed;
      }
      currentPrintTs, activeFile, paused, lastProgress := -1, None, false, 0.0;
    }
  }

  // ── a run of observations ────────────────────────────────────────────────────────────────

  datatype Observation = Observation(snapshot: Option<Snapshot>, now: real)

  /** The tracker run over observations, with everything it emits. */
  function Track(t: Tracker, observations: seq<Observation>): Tracked
    decreases |observations|
  {
    if observations == [] then Tracked(t, [])
    else
      var first := Observed(t, observations[0].snapshot, observations[0].now);
      var rest := Track(first.tracker, observations[1..]);
      rest.(events := first.events + rest.events)
  }

  lemma {:induction false} TrackAppend(t: Tracker, a: seq<Observation>, b: seq<Observation>)
    ensures var first := Track(t, a);
            var second := Track(first.tracker, b);
            Track(t, a + b) == Tracked(second.tracker, first.events + second.events)
    decreases |a|
  {
    if a == [] {
      assert a + b == b;
    } else {
      var first := Observed(t, a[0].snapshot, a[0].now);
      assert (a + b)[1..] == a[1..] + b;
      TrackAppend(first.tracker, a[1..], b);
    }
  }
}
