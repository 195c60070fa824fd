/**
 What Obico is told: the state text and the status message, from a snapshot and the tracker.
 */
module ObicoStatus {
  import opened Sequences
  import opened Snapshots
  import opened JobTracking

  datatype StateText = Offline | Operational | Printing | Paused

  function ObicoStateText(snapshot: Option<Snapshot>, previous: StateText): StateText {
    if snapshot.None? then Offline
    else
      var s := snapshot.value;
      if s.state == UNKNOWN then previous
      else if s.HasJob() then (if s.state == PAUSED then Paused else Printing)
      else if s.state == BUSY then previous
      else Operational
  }

  /** The state text after a publish of each observation. */
  function TextAfter(shown: seq<Observation>): StateText {
    if shown == [] then Offline
    else ObicoStateText(Last(shown).snapshot, TextAfter(shown[..|shown| - 1]))
  }

  /** The snapshot says by itself what the text is to be: its state is known, and not busy without a file. */
  predicate Decisive(s: Snapshot) {
    s.state != UNKNOWN && (s.state != BUSY || s.fileName != "")
  }

  function TextFor(s: Snapshot): StateText {
    if s.fileName == "" then Operational
    else if s.state == PAUSED then Paused
    else if s.state == PRINTING || s.state == HEATING || s.state == BUSY then Printing
    else Operational
  }

  /** The last decisive snapshot, with none missing since. */
  predicate Settles(shown: seq<Observation>, i: nat) {
    && i < |shown| && shown[i].snapshot.Some? && Decisive(shown[i].snapshot.value)
    && forall j | i < j < |shown| :: shown[j].snapshot.Some? && !Decisive(shown[j].snapshot.value)
  }

  /** The text is Offline exactly when no decisive snapshot has followed the last missing one; otherwise the
      last decisive snapshot alone says what it is. */
  lemma {:induction false} TextIsDeclarative(shown: seq<Observation>)
    ensures TextAfter(shown) == Offline <==> forall i: nat :: !Settles(shown, i)
    ensures forall i: nat | Settles(shown, i) :: TextAfter(shown) == TextFor(shown[i].snapshot.value)
  {
    if shown != [] {
      var front, n := shown[..|shown| - 1], |shown| - 1;
      var last := shown[n].snapshot;
      TextIsDeclarative(front);
      forall i: nat
        ensures Settles(shown, i) <==>
                last.Some? && if Decisive(last.value) then i == n else Settles(front, i)
      {
        assert i < n ==> shown[i] == front[i];
        assert forall j | i < j < n :: shown[j] == front[j];
      }
      assert last.Some? && Decisive(last.value) ==> Settles(shown, n);
    }
  }

  /** The parts of the status that depend on the state; the temperatures and layers are not modelled. */
  datatype Status =
    | NoStatus
    | Status(
        at: real,
        text: StateText,
        paused: bool,
        printing: bool,
        ready: bool,
        error: bool,
        errorCode: Option<string>,
        fileName: Option<string>,
        completion: Option<real>)

  function NonEmpty(s: string): Option<string> {
    if s == "" then None else Some(s)
  }

  function BuildStatus(snapshot: Option<Snapshot>, tracker: Tracker, text: StateText, now: real): Status {
    if snapshot.None? || text == Offline then NoStatus
    else
      var s := snapshot.value;
      var hasError := s.state == ERROR;
      Status(now, text, text == Paused, text == Printing, text == Operational, hasError,
             if hasError then NonEmpty(s.errorCode) else None,
             NonEmpty(s.fileName),
             if tracker.activeFile.Some? then Some(s.progress * 100.0) else None)
  }

  /** A message to Obico; `settings` when it carries the settings block. */
  datatype Message = Message(status: Status, currentPrintTs: int, event: Option<Event>, settings: bool)
}
