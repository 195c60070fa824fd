/**
 The agent and the queue together: what of all that the agent says reaches Obico.
 */
module AgentDelivery {
  import opened Sequences
  import opened JobTracking
  import opened Sessions
  import opened Agents
  import opened AgentTheorems
  import Queue = ObicoQueue

  /** Status messages and printer events go to Obico through the queue, in the order of the log. */
  predicate Outgoing(e: Entry) {
    e.Told? || e.Posted?
  }

  function Outbox(log: seq<Entry>): seq<Entry> {
    if log == [] then []
    else Outbox(log[..|log| - 1]) + if Outgoing(Last(log)) then [Last(log)] else []
  }

  /** A queue that was handed what the log says, one message after another, and whatever it did since. */
  ghost predicate Carries(moves: seq<Queue.Step<Entry>>, log: seq<Entry>) {
    Queue.Run(1, moves).begun == Outbox(log)
  }

  function Received(moves: seq<Queue.Step<Entry>>): seq<Entry> {
    Queue.Consumed(Queue.Run(1, moves).removed)
  }

  // ── what arrives, arrives in order ───────────────────────────────────────────────────────

  lemma {:induction false} ToldEventsOfOutbox(log: seq<Entry>)
    ensures ToldEvents(Outbox(log)) == ToldEvents(log)
  {
    if log != [] {
      var front := Outbox(log[..|log| - 1]);
      ToldEventsOfOutbox(log[..|log| - 1]);
      if Outgoing(Last(log)) {
        assert (front + [Last(log)])[..|front|] == front;
      } else {
        assert front + [] == front && ToldEvents(front) + [] == ToldEvents(front);
      }
    }
  }

  /** Fewer messages carry fewer events, in the same order. */
  lemma {:induction false} EventsOfSubsequence(a: seq<Entry>, b: seq<Entry>, idx: seq<nat>)
    requires Picks(idx, a, b)
    ensures Subsequence(ToldEvents(a), ToldEvents(b))
    decreases |b|
  {
    hide Subsequence;
    if b == [] {
      assert idx == [];
      SubsequenceOfPrefix<Event>([], []);
    } else {
      var n := |b| - 1;
      var front, last := b[..n], b[n];
      var carried := if last.Told? && last.message.event.Some? then [last.message.event.value] else [];
      assert ToldEvents(b) == ToldEvents(front) + carried;
      if a != [] && Last(idx) == n {
        var m := |a| - 1;
        PicksOfFront(idx, a, b);
        EventsOfSubsequence(a[..m], front, idx[..m]);
        assert a[m] == last;
        SubsequenceOfPrefix(carried, carried);
        SubsequenceAppend(ToldEvents(a[..m]), ToldEvents(front), carried, carried);
      } else {
        PicksFromFront(idx, a, b);
        EventsOfSubsequence(a, front, idx);
        SubsequenceOfPrefix<Event>([], carried);
        SubsequenceAppend(ToldEvents(a), ToldEvents(front), [], carried);
        assert ToldEvents(a) + [] == ToldEvents(a);
      }
    }
  }

  lemma PicksOfFront(idx: seq<nat>, a: seq<Entry>, b: seq<Entry>)
    requires a != [] && b != [] && Picks(idx, a, b) && Last(idx) == |b| - 1
    ensures Picks(idx[..|a| - 1], a[..|a| - 1], b[..|b| - 1])
  {
    assert forall i | 0 <= i < |idx| - 1 :: idx[i] < idx[|idx| - 1];
  }

  lemma PicksFromFront(idx: seq<nat>, a: seq<Entry>, b: seq<Entry>)
    requires b != [] && Picks(idx, a, b) && (a != [] ==> Last(idx) != |b| - 1)
    ensures Picks(idx, a, b[..|b| - 1])
  {
    assert forall i | 0 <= i < |idx| - 1 :: idx[i] < idx[|idx| - 1];
  }

  lemma ReceivedFromOutbox(moves: seq<Queue.Step<Entry>>, log: seq<Entry>)
    requires Carries(moves, log)
    ensures Subsequence(Received(moves), Outbox(log))
    ensures var s := Queue.Run(1, moves);
            |s.removed| <= |Outbox(log)| && forall k | 0 <= k < |s.removed| :: s.removed[k].message == Outbox(log)[k]
  {
    var s := Queue.Run(1, moves);
    Queue.SoleSenderInOrder(moves);
    Queue.RunConserves(1, moves);
    Queue.ConsumedInOrder(s.removed);
    var messages := Queue.Messages(s.removed);
    assert Outbox(log) == messages + (s.queue + Queue.Hand(s.senders[0]));
    SubsequenceOfPrefix(messages, Outbox(log));
    SubsequenceTransitive(Received(moves), messages, Outbox(log));
    assert forall k | 0 <= k < |s.removed| :: messages[k] == s.removed[k].message;
  }

  /** Over any run of the agent, and whatever the queue drops: what Obico receives is part of what it was sent,
      in order, and the events among it are part of those of the print sessions, in order. */
  lemma ReceivedInOrder(w: World, steps: seq<Step>, moves: seq<Queue.Step<Entry>>)
    requires Carries(moves, LogOf(w, steps))
    ensures var log := LogOf(w, steps);
            && Subsequence(Received(moves), Outbox(log))
            && Subsequence(ToldEvents(Received(moves)), SessionLog(Split(Known(Shown(log)))))
  {
    hide Run, ToldEvents, Outbox, Received, SessionLog, Carries, Shown, Split, Known;
    var log := LogOf(w, steps);
    ReceivedFromOutbox(moves, log);
    var idx: seq<nat> :| Picks(idx, Received(moves), Outbox(log));
    EventsOfSubsequence(Received(moves), Outbox(log), idx);
    ToldEventsOfOutbox(log);
    EventConservation(w, steps);
  }

  // ── the settings ─────────────────────────────────────────────────────────────────────────

  /** Entry `k` of the outbox is the first status message. */
  predicate FirstTold(out: seq<Entry>, k: nat) {
    k < |out| && out[k].Told? && forall j | 0 <= j < k :: !out[j].Told?
  }

  /** Where an entry of the outbox stands in the log, and that none of the messages before it is missing. */
  lemma {:induction false} OutboxAt(log: seq<Entry>, k: nat) returns (i: nat)
    requires k < |Outbox(log)|
    ensures i < |log| && Outgoing(log[i]) && log[i] == Outbox(log)[k] && Outbox(log[..i]) == Outbox(log)[..k]
  {
    var n := |log| - 1;
    var front := Outbox(log[..n]);
    if k < |front| {
      i := OutboxAt(log[..n], k);
      assert log[..n][..i] == log[..i] && Outbox(log)[..k] == front[..k];
    } else {
      i := n;
      assert Outbox(log)[..k] == front;
    }
  }

  lemma {:induction false} ToldInOutbox(log: seq<Entry>)
    ensures (exists j :: 0 <= j < |log| && log[j].Told?) <==> exists j :: 0 <= j < |Outbox(log)| && Outbox(log)[j].Told?
  {
    if log != [] {
      var n, out := |log| - 1, Outbox(log);
      var front := Outbox(log[..n]);
      ToldInOutbox(log[..n]);
      assert forall j | 0 <= j < |front| :: out[j] == front[j];
      if log[n].Told? {
        assert out[|front|] == log[n];
      } else {
        assert forall j | 0 <= j < |log| && log[j].Told? :: log[..n][j].Told?;
      }
    }
  }

  /** In every run exactly the first status message carries the settings. */
  lemma SettingsInFirst(w: World, steps: seq<Step>, k: nat)
    requires k < |Outbox(LogOf(w, steps))| && Outbox(LogOf(w, steps))[k].Told?
    ensures var out := Outbox(LogOf(w, steps)); out[k].message.settings <==> FirstTold(out, k)
  {
    hide Run, Outbox;
    var log := LogOf(w, steps);
    var i := OutboxAt(log, k);
    Cadence(w, steps, i);
    ToldInOutbox(log[..i]);
    var out := Outbox(log);
    assert forall j | 0 <= j < i :: log[..i][j] == log[j];
    assert forall j | 0 <= j < k :: out[..k][j] == out[j];
  }

  predicate HasSettings(e: Entry) {
    e.Told? && e.message.settings
  }

  lemma {:induction false} ConsumedMembers(removed: seq<Queue.Removal<Entry>>, e: Entry)
    ensures e in Queue.Consumed(removed) <==>
            exists k :: 0 <= k < |removed| && !removed[k].dropped && removed[k].message == e
  {
    if removed != [] {
      var front := removed[..|removed| - 1];
      ConsumedMembers(front, e);
      assert forall k | 0 <= k < |front| :: removed[k] == front[k];
    }
  }

  /** The settings reach Obico exactly when the first status message was taken off the queue, and not dropped
      from it. */
  lemma SettingsReceivedExactly(w: World, steps: seq<Step>, moves: seq<Queue.Step<Entry>>, k: nat)
    requires Carries(moves, LogOf(w, steps)) && FirstTold(Outbox(LogOf(w, steps)), k)
    ensures var removed := Queue.Run(1, moves).removed;
            (exists e :: e in Received(moves) && HasSettings(e)) <==> k < |removed| && !removed[k].dropped
  {
    hide Run, Outbox, Queue.Run, Queue.Consumed, FirstTold;
    var out, removed := Outbox(LogOf(w, steps)), Queue.Run(1, moves).removed;
    ReceivedFromOutbox(moves, LogOf(w, steps));
    if e :| e in Received(moves) && HasSettings(e) {
      ConsumedMembers(removed, e);
      var j :| 0 <= j < |removed| && !removed[j].dropped && removed[j].message == e;
      SettingsInFirst(w, steps, j);
      assert j == k by { FirstToldUnique(out, j, k); }
    }
    if k < |removed| && !removed[k].dropped {
      assert out[k].Told? by { FirstToldUnique(out, k, k); }
      SettingsInFirst(w, steps, k);
      ConsumedMembers(removed, out[k]);
    }
  }

  lemma FirstToldUnique(out: seq<Entry>, j: nat, k: nat)
    requires FirstTold(out, j) && FirstTold(out, k)
    ensures j == k && out[k].Told?
  {
  }

  lemma {:induction false} RemovedStays(moves: seq<Queue.Step<Entry>>, more: seq<Queue.Step<Entry>>)
    ensures Queue.Run(1, moves).removed <= Queue.Run(1, moves + more).removed
    decreases |more|
  {
    if more == [] {
      assert moves + more == moves;
    } else {
      var front := more[..|more| - 1];
      assert (moves + more)[..|moves + more| - 1] == moves + front;
      RemovedStays(moves, front);
    }
  }

  /** When more than a queueful was said before any connection was there, and the first status message was among
      what no longer fits, the settings never reach Obico, whatever is said and taken afterwards. */
  lemma SettingsLostForGood(w: World, steps: seq<Step>, moves: seq<Queue.Step<Entry>>, more: seq<Queue.Step<Entry>>, k: nat)
    requires Carries(moves + more, LogOf(w, steps)) && FirstTold(Outbox(LogOf(w, steps)), k)
    requires forall j | 0 <= j < |moves| :: !moves[j].Consume?
    requires k + 50 < |Queue.Run(1, moves).put| && Queue.Run(1, moves).senders == [Queue.Idle]
    ensures forall e | e in Received(moves + more) :: !HasSettings(e)
  {
    hide Run, Outbox, Queue.Run, Received, FirstTold, Carries;
    var s := Queue.Run(1, moves);
    Queue.WithoutConnectionKeepsNewest(1, moves);
    Queue.RunConserves(1, moves);
    assert k < |s.removed|;
    NothingTaken(moves, k);
    RemovedStays(moves, more);
    SettingsReceivedExactly(w, steps, moves + more, k);
  }

  lemma {:induction false} NothingTaken(moves: seq<Queue.Step<Entry>>, k: nat)
    requires forall j | 0 <= j < |moves| :: !moves[j].Consume?
    requires k < |Queue.Run(1, moves).removed|
    ensures Queue.Run(1, moves).removed[k].dropped
  {
    var front := moves[..|moves| - 1];
    if k < |Queue.Run(1, front).removed| {
      NothingTaken(front, k);
    }
  }
}
