/**
 The bounded queue between the agent's threads and the websocket: a sender that finds it full drops
 the oldest message and tries again, while the connection takes messages from the front.
 */
module ObicoQueue {
  import opened Sequences

  const QUEUE_MAX: nat := 50

  /** The last fifty messages of `s`. */
  function Newest<M>(s: seq<M>): seq<M> {
    if |s| <= 50 then s else s[|s| - 50..]
  }

  class ObicoServer<M> {
    var queue: seq<M>

    ghost predicate Valid()
      reads this
    {
      |queue| <= QUEUE_MAX
    }

    constructor ()
      ensures Valid() && queue == []
    {
      queue := [];
    }

    /** Undisturbed, a send keeps the newest messages, the one sent among them. */
    method Send(message: M)
      requires Valid()
      modifies this
      ensures Valid()
      ensures queue == Newest(old(queue) + [message])
    {
      ghost var dropped := 0;
      while true
        invariant Valid() && dropped <= |old(queue)| && queue == old(queue)[dropped..]
        invariant dropped == 0 || (dropped == 1 && |old(queue)| == QUEUE_MAX)
        decreases |queue|
      {
        if |queue| < QUEUE_MAX {
          queue := queue + [message];
          return;
        }
        if |queue| > 0 {
          queue := queue[1..];
          dropped := dropped + 1;
        }
      }
    }

    /** The connection's side: the oldest message, or None when its wait times out. */
    method Take() returns (message: Option<M>)
      requires Valid()
      modifies this
      ensures Valid()
      ensures if old(queue) == [] then message == None && queue == []
              else message == Some(old(queue)[0]) && queue == old(queue)[1..]
    {
      if |queue| == 0 {
        return None;
      }
      message, queue := Some(queue[0]), queue[1..];
    }

    /** The connection's loop: each turn takes a message, if there is one, and sends it on. */
    method Pump(turns: nat) returns (sent: seq<M>)
      requires Valid()
      modifies this
      ensures Valid()
      ensures sent + queue == old(queue)
      ensures |sent| == if turns < |old(queue)| then turns else |old(queue)|
    {
      sent := [];
      var turn := 0;
      while turn < turns
        invariant Valid() && turn <= turns
        invariant sent + queue == old(queue)
        invariant |sent| == if turn < |old(queue)| then turn else |old(queue)|
      {
        turn := turn + 1;
        var message := Take();
        if message.None? {
          continue;
        }
        sent := sent + [message.value];
      }
    }
  }

  // ── every interleaving ───────────────────────────────────────────────────────────────────

  /** Where a sending thread stands in `send`. Each queue operation is atomic, the loop is not. */
  datatype Sender<M> =
    | Idle
    | Putting(message: M, dropped: bool)   // about to put; `dropped` once it made room itself
    | FoundFull(message: M)                // its put failed; about to drop the oldest

  /** A message that left the queue: taken by the connection, or dropped by a sender. */
  datatype Removal<M> = Removal(message: M, dropped: bool)

  /** `begun` is every message a sender was ever called with, in order; `put` every one put; `removed`
      every one that left. */
  datatype Shared<M> = Shared(
    queue: seq<M>,
    begun: seq<M>,
    put: seq<M>,
    removed: seq<Removal<M>>,
    senders: seq<Sender<M>>)

  datatype Step<M> =
    | Begin(sender: nat, message: M)
    | TryPut(sender: nat)
    | DropOldest(sender: nat)
    | Consume

  function Initial<M>(senders: nat): Shared<M> {
    Shared([], [], [], [], seq(senders, (i: nat) => Idle))
  }

  function Remove<M>(s: Shared<M>, dropped: bool): Shared<M> {
    if s.queue == [] then s
    else s.(queue := s.queue[1..], removed := s.removed + [Removal(s.queue[0], dropped)])
  }

  /** A step that does not fit where its sender stands changes nothing. */
  function Do<M>(s: Shared<M>, step: Step<M>): Shared<M> {
    match step
    case Begin(i, message) =>
      if i < |s.senders| && s.senders[i].Idle?
      then s.(begun := s.begun + [message], senders := s.senders[i := Putting(message, false)]) else s
    case TryPut(i) =>
      if i < |s.senders| && s.senders[i].Putting? then
        var message := s.senders[i].message;
        if |s.queue| < QUEUE_MAX
        then s.(queue := s.queue + [message], put := s.put + [message], senders := s.senders[i := Idle])
        else s.(senders := s.senders[i := FoundFull(message)])
      else s
    case DropOldest(i) =>
      if i < |s.senders| && s.senders[i].FoundFull?
      then Remove(s, true).(senders := s.senders[i := Putting(s.senders[i].message, true)]) else s
    case Consume => Remove(s, false)
  }

  function Run<M>(senders: nat, steps: seq<Step<M>>): Shared<M> {
    if steps == [] then Initial(senders) else Do(Run(senders, steps[..|steps| - 1]), Last(steps))
  }

  function Messages<M>(removed: seq<Removal<M>>): seq<M> {
    seq(|removed|, i requires 0 <= i < |removed| => removed[i].message)
  }

  function Consumed<M>(removed: seq<Removal<M>>): seq<M> {
    if removed == [] then []
    else Consumed(removed[..|removed| - 1]) + if Last(removed).dropped then [] else [Last(removed).message]
  }

  function Dropped<M>(removed: seq<Removal<M>>): seq<M> {
    if removed == [] then []
    else Dropped(removed[..|removed| - 1]) + if Last(removed).dropped then [Last(removed).message] else []
  }

  // ── conservation ─────────────────────────────────────────────────────────────────────────

  lemma {:induction false} RunConserves<M(!new)>(senders: nat, steps: seq<Step<M>>)
    ensures var s := Run(senders, steps);
            && |s.queue| <= QUEUE_MAX
            && s.put == Messages(s.removed) + s.queue
  {
    if steps != [] {
      RunConserves(senders, steps[..|steps| - 1]);
      var s := Run(senders, steps[..|steps| - 1]);
      if s.queue != [] {
        forall dropped: bool
          ensures Messages(s.removed + [Removal(s.queue[0], dropped)]) + s.queue[1..] == s.put
        {
          assert Messages(s.removed + [Removal(s.queue[0], dropped)]) == Messages(s.removed) + [s.queue[0]];
        }
      }
    }
  }

  lemma {:induction false} ConsumedInOrder<M(!new)>(removed: seq<Removal<M>>)
    ensures Subsequence(Consumed(removed), Messages(removed))
    ensures |Consumed(removed)| + |Dropped(removed)| == |removed|
    ensures multiset(Consumed(removed)) + multiset(Dropped(removed)) == multiset(Messages(removed))
  {
    if removed == [] {
      SubsequenceOfPrefix<M>([], []);
    } else {
      var front, last := removed[..|removed| - 1], Last(removed).message;
      ConsumedInOrder(front);
      assert Messages(removed) == Messages(front) + [last];
      if Last(removed).dropped {
        SubsequenceOfPrefix<M>([], [last]);
        SubsequenceAppend(Consumed(front), Messages(front), [], [last]);
        assert Consumed(front) + [] == Consumed(front);
      } else {
        SubsequenceOfPrefix([last], [last]);
        SubsequenceAppend(Consumed(front), Messages(front), [last], [last]);
      }
    }
  }

  function InHand<M>(sender: Sender<M>): multiset<M> {
    if sender.Idle? then multiset{} else multiset{sender.message}
  }

  /** The messages senders were called with and have not put yet. */
  function Held<M>(senders: seq<Sender<M>>): multiset<M> {
    if senders == [] then multiset{} else InHand(senders[0]) + Held(senders[1..])
  }

  lemma {:induction false} HeldUpdate<M(!new)>(senders: seq<Sender<M>>, i: nat, sender: Sender<M>)
    requires i < |senders|
    ensures Held(senders[i := sender]) + InHand(senders[i]) == Held(senders) + InHand(sender)
  {
    hide InHand;
    var updated := senders[i := sender];
    if i == 0 {
      assert updated[1..] == senders[1..];
    } else {
      assert updated[1..] == senders[1..][i - 1 := sender];
      HeldUpdate(senders[1..], i - 1, sender);
      AddToBoth(InHand(senders[0]), Held(updated[1..]), InHand(senders[i]), Held(senders[1..]), InHand(sender));
    }
  }

  lemma AddToBoth<M(!new)>(x: multiset<M>, a: multiset<M>, b: multiset<M>, c: multiset<M>, d: multiset<M>)
    requires a + b == c + d
    ensures (x + a) + b == (x + c) + d
  {
    assert (x + a) + b == x + (a + b);
    assert (x + c) + d == x + (c + d);
  }

  lemma {:induction false} HeldIdle<M(!new)>(senders: seq<Sender<M>>)
    requires forall i | 0 <= i < |senders| :: senders[i].Idle?
    ensures Held(senders) == multiset{}
  {
    if senders != [] {
      assert senders[0].Idle?;
      HeldIdle(senders[1..]);
    }
  }

  ghost predicate BegunAccounted<M>(s: Shared<M>) {
    multiset(s.begun) == multiset(s.put) + Held(s.senders)
  }

  /** What a sender's change of position does to the balance: its hand and the puts change together. */
  lemma HandBalance<M(!new)>(begun: seq<M>, put: seq<M>, senders: seq<Sender<M>>, i: nat, sender: Sender<M>,
                             begun': seq<M>, put': seq<M>)
    requires i < |senders|
    requires multiset(begun) == multiset(put) + Held(senders)
    requires multiset(begun') + multiset(put) + InHand(senders[i]) == multiset(begun) + multiset(put') + InHand(sender)
    ensures multiset(begun') == multiset(put') + Held(senders[i := sender])
  {
    hide Held, InHand;
    HeldUpdate(senders, i, sender);
    var held, held' := Held(senders), Held(senders[i := sender]);
    var was, now := InHand(senders[i]), InHand(sender);
    forall m: M
      ensures multiset(begun')[m] == (multiset(put') + held')[m]
    {
      assert (held' + was)[m] == held'[m] + was[m];
      assert (held + now)[m] == held[m] + now[m];
      assert (multiset(put) + held)[m] == multiset(put)[m] + held[m];
      assert (multiset(begun') + multiset(put) + was)[m] == multiset(begun')[m] + multiset(put)[m] + was[m];
      assert (multiset(begun) + multiset(put') + now)[m] == multiset(begun)[m] + multiset(put')[m] + now[m];
    }
  }

  lemma DoKeepsBegun<M(!new)>(s: Shared<M>, step: Step<M>)
    requires BegunAccounted(s)
    ensures BegunAccounted(Do(s, step))
  {
    hide Held, InHand, Do;
    if !step.Consume? && step.sender < |s.senders| {
      var t := Do(s, step);
      StepBalance(s, step);
      HandBalance(s.begun, s.put, s.senders, step.sender, t.senders[step.sender], t.begun, t.put);
    } else {
      NoSenderMoves(s, step);
    }
  }

  lemma NoSenderMoves<M(!new)>(s: Shared<M>, step: Step<M>)
    requires step.Consume? || step.sender >= |s.senders|
    ensures var t := Do(s, step); t.begun == s.begun && t.put == s.put && t.senders == s.senders
  {
  }

  lemma StepBalance<M(!new)>(s: Shared<M>, step: Step<M>)
    requires !step.Consume? && step.sender < |s.senders|
    ensures var t, i := Do(s, step), step.sender;
            && |t.senders| == |s.senders| && t.senders == s.senders[i := t.senders[i]]
            && multiset(t.begun) + multiset(s.put) + InHand(s.senders[i]) ==
               multiset(s.begun) + multiset(t.put) + InHand(t.senders[i])
  {
    hide InHand;
    var message := MessageMoves(s, step);
    var t, was, now := Do(s, step), InHand(s.senders[step.sender]), InHand(Do(s, step).senders[step.sender]);
    MovedBalance(s.begun, s.put, was, t.begun, t.put, now, message);
  }

  /** A step takes a message in hand, puts the one in hand, or does neither. */
  ghost predicate Moved<M>(begun: seq<M>, put: seq<M>, was: multiset<M>,
                           begun': seq<M>, put': seq<M>, now: multiset<M>, message: seq<M>) {
    || (begun' == begun && put' == put && now == was)
    || (begun' == begun + message && put' == put && was == multiset{} && now == multiset(message))
    || (begun' == begun && put' == put + message && was == multiset(message) && now == multiset{})
  }

  lemma MessageMoves<M(!new)>(s: Shared<M>, step: Step<M>) returns (message: seq<M>)
    requires !step.Consume? && step.sender < |s.senders|
    ensures var t, i := Do(s, step), step.sender;
            && |t.senders| == |s.senders| && t.senders == s.senders[i := t.senders[i]]
            && Moved(s.begun, s.put, InHand(s.senders[i]), t.begun, t.put, InHand(t.senders[i]), message)
  {
    match step
    case Begin(_, m) => message := [m];
    case TryPut(i) => message := if s.senders[i].Idle? then [] else [s.senders[i].message];
    case DropOldest(_) => message := [];
  }

  lemma MovedBalance<M(!new)>(begun: seq<M>, put: seq<M>, was: multiset<M>,
                              begun': seq<M>, put': seq<M>, now: multiset<M>, message: seq<M>)
    requires Moved(begun, put, was, begun', put', now, message)
    ensures multiset(begun') + multiset(put) + was == multiset(begun) + multiset(put') + now
  {
    assert multiset(begun + message) == multiset(begun) + multiset(message);
    assert multiset(put + message) == multiset(put) + multiset(message);
  }

  /** No sender forgets its message between finding the queue full and putting it. */
  lemma {:induction false} BegunIsPutOrHeld<M(!new)>(senders: nat, steps: seq<Step<M>>)
    ensures BegunAccounted(Run(senders, steps))
  {
    hide Do, BegunAccounted;
    if steps == [] {
      NothingBegun<M>(senders);
    } else {
      BegunIsPutOrHeld(senders, steps[..|steps| - 1]);
      DoKeepsBegun(Run(senders, steps[..|steps| - 1]), Last(steps));
    }
  }

  lemma NothingBegun<M(!new)>(senders: nat)
    ensures BegunAccounted(Initial<M>(senders))
  {
    HeldIdle(Initial<M>(senders).senders);
  }

  /** Over every interleaving of senders and the connection: the bound holds; what was taken, followed
      by what is queued, is what was put with some messages left out; and every message a sender was
      called with is exactly one of taken, dropped, queued, or still in the sender's hands. */
  lemma {:induction false} QueueConserves<M(!new)>(senders: nat, steps: seq<Step<M>>)
    ensures var s := Run(senders, steps);
            && |s.queue| <= 50
            && Subsequence(Consumed(s.removed) + s.queue, s.put)
            && multiset(Consumed(s.removed)) + multiset(Dropped(s.removed)) + multiset(s.queue)
               + Held(s.senders) == multiset(s.begun)
            && |Consumed(s.removed)| + |Dropped(s.removed)| + |s.queue| + |Held(s.senders)| == |s.begun|
  {
    hide Run, Held, Consumed, Dropped, Messages;
    var s := Run(senders, steps);
    RunConserves(senders, steps);
    ConsumedInOrder(s.removed);
    BegunIsPutOrHeld(senders, steps);
    SubsequenceOfPrefix(s.queue, s.queue);
    SubsequenceAppend(Consumed(s.removed), Messages(s.removed), s.queue, s.queue);
    assert |s.begun| == |multiset(s.begun)| == |multiset(s.put)| + |Held(s.senders)|;
    assert |s.put| == |multiset(s.put)|;
  }

  // ── each sender's own order ──────────────────────────────────────────────────────────────

  /** The messages of sender `i`, in order, when `owner` says whose each one is. */
  function Of<M>(messages: seq<M>, owner: M -> nat, i: nat): seq<M> {
    if messages == [] then []
    else Of(messages[..|messages| - 1], owner, i) + if owner(Last(messages)) == i then [Last(messages)] else []
  }

  lemma OfSnoc<M>(messages: seq<M>, message: M, owner: M -> nat, i: nat)
    ensures Of(messages + [message], owner, i) == Of(messages, owner, i) + if owner(message) == i then [message] else []
  {
    assert (messages + [message])[..|messages|] == messages;
  }

  function Hand<M>(sender: Sender<M>): seq<M> {
    if sender.Idle? then [] else [sender.message]
  }

  /** Each sender has put the messages it was called with, in that order, but for one it may still hold. */
  ghost predicate InOwnOrder<M(!new)>(s: Shared<M>, owner: M -> nat) {
    forall i | 0 <= i < |s.senders| ::
      && (!s.senders[i].Idle? ==> owner(s.senders[i].message) == i)
      && Of(s.begun, owner, i) == Of(s.put, owner, i) + Hand(s.senders[i])
  }

  lemma DoKeepsOwnOrder<M(!new)>(s: Shared<M>, step: Step<M>, owner: M -> nat)
    requires InOwnOrder(s, owner) && (step.Begin? ==> owner(step.message) == step.sender)
    ensures InOwnOrder(Do(s, step), owner)
  {
    hide Of;
    var t := Do(s, step);
    forall i | 0 <= i < |t.senders|
      ensures !t.senders[i].Idle? ==> owner(t.senders[i].message) == i
      ensures Of(t.begun, owner, i) == Of(t.put, owner, i) + Hand(t.senders[i])
    {
      assert Of(s.begun, owner, i) == Of(s.put, owner, i) + Hand(s.senders[i]);
      match step
      case Begin(j, message) =>
        OfSnoc(s.begun, message, owner, i);
      case TryPut(j) =>
        if j < |s.senders| && s.senders[j].Putting? {
          OfSnoc(s.put, s.senders[j].message, owner, i);
        }
      case DropOldest(j) =>
      case Consume =>
    }
  }

  /** Over every interleaving the messages of each sender are put in the order it was called with them. */
  lemma {:induction false} PutInOwnOrder<M(!new)>(senders: nat, steps: seq<Step<M>>, owner: M -> nat)
    requires forall j | 0 <= j < |steps| :: steps[j].Begin? ==> owner(steps[j].message) == steps[j].sender
    ensures InOwnOrder(Run(senders, steps), owner)
  {
    hide Do, InOwnOrder;
    if steps == [] {
      assert InOwnOrder(Initial<M>(senders), owner) by { NothingOwned(senders, owner); }
    } else {
      PutInOwnOrder(senders, steps[..|steps| - 1], owner);
      DoKeepsOwnOrder(Run(senders, steps[..|steps| - 1]), Last(steps), owner);
    }
  }

  lemma NothingOwned<M(!new)>(senders: nat, owner: M -> nat)
    ensures InOwnOrder(Initial<M>(senders), owner)
  {
  }

  lemma {:induction false} OfAll<M>(messages: seq<M>)
    ensures Of(messages, (m: M) => 0, 0) == messages
  {
    if messages != [] {
      OfAll(messages[..|messages| - 1]);
    }
  }

  lemma {:induction false} SenderCount<M>(senders: nat, steps: seq<Step<M>>)
    ensures |Run(senders, steps).senders| == senders
  {
    if steps != [] {
      SenderCount(senders, steps[..|steps| - 1]);
    }
  }

  lemma NoSuchSender<M>(s: Shared<M>, step: Step<M>)
    requires |s.senders| == 1
    ensures step.Begin? && step.sender != 0 ==> Do(s, step) == s
  {
  }

  lemma {:induction false} SoleSenderOnly<M>(steps: seq<Step<M>>) returns (own: seq<Step<M>>)
    ensures Run(1, own) == Run(1, steps)
    ensures forall j | 0 <= j < |own| :: own[j].Begin? ==> own[j].sender == 0
  {
    if steps == [] {
      return [];
    }
    hide Do;
    var step := Last(steps);
    own := SoleSenderOnly(steps[..|steps| - 1]);
    SenderCount(1, steps[..|steps| - 1]);
    NoSuchSender(Run(1, steps[..|steps| - 1]), step);
    if !step.Begin? || step.sender == 0 {
      assert (own + [step])[..|own|] == own;
      own := own + [step];
    }
  }

  /** A single sender's messages are put in the order it was called with them, all but one it may hold. */
  lemma SoleSenderInOrder<M(!new)>(steps: seq<Step<M>>)
    ensures var s := Run(1, steps);
            |s.senders| == 1 && s.begun == s.put + Hand(s.senders[0])
  {
    var own := SoleSenderOnly(steps);
    var owner := (m: M) => 0;
    PutInOwnOrder(1, own, owner);
    SenderCount(1, steps);
    OfAll(Run(1, steps).begun);
    OfAll(Run(1, steps).put);
  }

  // ── the methods as steps ─────────────────────────────────────────────────────────────────

  /** The steps of a send no other thread disturbs: the second try is made only from a full queue. */
  function SendSteps<M>(s: Shared<M>, i: nat, message: M): seq<Step<M>> {
    if |s.queue| < QUEUE_MAX then [Begin(i, message), TryPut(i)]
    else [Begin(i, message), TryPut(i), DropOldest(i), TryPut(i)]
  }

  function DoAll<M>(s: Shared<M>, steps: seq<Step<M>>): Shared<M>
    decreases |steps|
  {
    if steps == [] then s else DoAll(Do(s, steps[0]), steps[1..])
  }

  /** An undisturbed send, step by step, does to the queue what `Send` does. */
  lemma SendIsSteps<M(!new)>(s: Shared<M>, i: nat, message: M)
    requires i < |s.senders| && s.senders[i].Idle? && |s.queue| <= QUEUE_MAX
    ensures var t := DoAll(s, SendSteps(s, i, message));
            && t.queue == Newest(s.queue + [message])
            && t.put == s.put + [message] && t.senders == s.senders
  {
    var steps := SendSteps(s, i, message);
    var a := Do(s, Begin(i, message));
    var b := Do(a, TryPut(i));
    assert steps[1..] == [TryPut(i)] + steps[2..] && steps[2..] == steps[1..][1..];
    assert DoAll(s, steps) == DoAll(a, steps[1..]) == DoAll(b, steps[2..]);
    if |s.queue| < QUEUE_MAX {
      assert b.senders == s.senders;
    } else {
      var c := Do(b, DropOldest(i));
      var d := Do(c, TryPut(i));
      var again: seq<Step<M>> := [TryPut(i)];
      assert steps[2..][1..] == again && again[1..] == [];
      assert DoAll(b, steps[2..]) == DoAll(c, again) == DoAll(d, []) == d;
      assert d.senders == s.senders;
    }
  }

  /** Turns of the connection's loop, as steps, do to the queue what `Pump` does. */
  lemma {:induction false} PumpIsSteps<M(!new)>(s: Shared<M>, turns: nat)
    ensures var t := DoAll(s, seq(turns, _ => Consume));
            && Consumed(t.removed) + t.queue == Consumed(s.removed) + s.queue
            && |t.queue| == (if turns < |s.queue| then |s.queue| - turns else 0)
            && t == s.(queue := t.queue, removed := t.removed)
    decreases turns
  {
    var steps: seq<Step<M>> := seq(turns, _ => Consume);
    if turns > 0 {
      var next := Do(s, Consume);
      assert steps[1..] == seq(turns - 1, _ => Consume);
      PumpIsSteps(next, turns - 1);
      if s.queue != [] {
        assert next.removed[..|s.removed|] == s.removed;
        assert Consumed(next.removed) == Consumed(s.removed) + [s.queue[0]];
      }
    }
  }

  // ── without a connection ─────────────────────────────────────────────────────────────────

  /** Senders that made room and have not put yet. */
  function Owing<M>(senders: seq<Sender<M>>): nat {
    if senders == [] then 0
    else Owing(senders[1..]) + if senders[0].Putting? && senders[0].dropped then 1 else 0
  }

  lemma {:induction false} OwingUpdate<M>(senders: seq<Sender<M>>, i: nat, sender: Sender<M>)
    requires i < |senders|
    ensures Owing(senders[i := sender]) - Owing(senders) ==
            (if sender.Putting? && sender.dropped then 1 else 0) -
            (if senders[i].Putting? && senders[i].dropped then 1 else 0)
  {
    var updated := senders[i := sender];
    if i == 0 {
      assert updated[1..] == senders[1..];
    } else {
      assert updated[1..] == senders[1..][i - 1 := sender];
      OwingUpdate(senders[1..], i - 1, sender);
    }
  }

  lemma {:induction false} OwingIdle<M>(senders: seq<Sender<M>>)
    requires forall i | 0 <= i < |senders| :: senders[i].Idle?
    ensures Owing(senders) == 0
  {
    if senders != [] {
      assert senders[0].Idle?;
      OwingIdle(senders[1..]);
    }
  }

  /** While nothing is taken, room below the bound is owed by senders that dropped. */
  lemma {:induction false} RoomIsOwed<M(!new)>(senders: nat, steps: seq<Step<M>>)
    requires forall j | 0 <= j < |steps| :: !steps[j].Consume?
    ensures var s := Run(senders, steps);
            && |s.senders| == senders
            && (s.removed != [] || (exists i | 0 <= i < |s.senders| :: s.senders[i].FoundFull?) ==>
                  QUEUE_MAX <= |s.queue| + Owing(s.senders))
  {
    if steps != [] {
      var front := steps[..|steps| - 1];
      RoomIsOwed(senders, front);
      RunConserves(senders, front);
      var s, step := Run(senders, front), Last(steps);
      var t := Do(s, step);
      if !step.Consume? && step.sender < |s.senders| {
        OwingUpdate(s.senders, step.sender, t.senders[step.sender]);
        assert t.senders == s.senders[step.sender := t.senders[step.sender]];
      }
    }
  }

  /** With no connection to take messages, and no send under way, any number of senders leave the
      queue holding exactly the newest messages. */
  lemma {:induction false} WithoutConnectionKeepsNewest<M(!new)>(senders: nat, steps: seq<Step<M>>)
    requires forall j | 0 <= j < |steps| :: !steps[j].Consume?
    requires forall i | 0 <= i < |Run(senders, steps).senders| :: Run(senders, steps).senders[i].Idle?
    ensures Run(senders, steps).queue == Newest(Run(senders, steps).put)
  {
    var s := Run(senders, steps);
    RunConserves(senders, steps);
    RoomIsOwed(senders, steps);
    OwingIdle(s.senders);
    assert s.put[|s.removed|..] == s.queue;
  }

  // ── dropping with room to spare ──────────────────────────────────────────────────────────

  function Fill<M>(message: M, n: nat): seq<Step<M>> {
    if n == 0 then [] else Fill(message, n - 1) + [Begin(0, message), TryPut(0)]
  }

  lemma RunSnoc<M(!new)>(senders: nat, steps: seq<Step<M>>, step: Step<M>)
    ensures Run(senders, steps + [step]) == Do(Run(senders, steps), step)
  {
    assert (steps + [step])[..|steps|] == steps;
  }

  lemma {:induction false} FillRuns<M(!new)>(senders: nat, message: M, n: nat)
    requires 0 < senders && n <= QUEUE_MAX
    ensures var s := Run(senders, Fill(message, n));
            && |s.queue| == n && |s.removed| == 0
            && |s.senders| == senders && forall i | 0 <= i < senders :: s.senders[i].Idle?
  {
    if n > 0 {
      var front := Fill(message, n - 1);
      FillRuns(senders, message, n - 1);
      RunSnoc(senders, front, Begin(0, message));
      RunSnoc(senders, front + [Begin(0, message)], TryPut(0));
      assert Fill(message, n) == front + [Begin(0, message)] + [TryPut(0)];
    }
  }

  /** The oldest message can be dropped from a queue that has room again: the sender acts on having
      found it full before the connection took one. */
  lemma DropsWithRoom<M(!new)>(message: M)
    ensures exists steps: seq<Step<M>> ::
              var before, after := Run(1, steps), Run(1, steps + [DropOldest(0)]);
              |before.queue| < QUEUE_MAX && |Dropped(after.removed)| == |Dropped(before.removed)| + 1
  {
    hide Run, Fill, Dropped;
    var full := Fill(message, QUEUE_MAX);
    FillRuns(1, message, QUEUE_MAX);
    FindsFull(1, full, 0, message);
    var a := full + [Begin(0, message)] + [TryPut(0)];
    var steps := a + [Consume];
    RunSnoc(1, a, Consume);
    RunSnoc(1, steps, DropOldest(0));
    DropCounts(Run(1, steps), 0);
  }

  /** It happens without any connection too: two senders that both found the queue full. */
  lemma TwoSendersDropWithRoom<M(!new)>(message: M)
    ensures exists steps: seq<Step<M>> ::
              && (forall j | 0 <= j < |steps| :: !steps[j].Consume?)
              && (var before, after := Run(2, steps), Run(2, steps + [DropOldest(0)]);
                  |before.queue| < QUEUE_MAX && |Dropped(after.removed)| == |Dropped(before.removed)| + 1)
  {
    hide Run, Fill, Dropped;
    var full := Fill(message, QUEUE_MAX);
    FillRuns(2, message, QUEUE_MAX);
    FillTakesNothing(message, QUEUE_MAX);
    FindsFull(2, full, 0, message);
    var a := full + [Begin(0, message)] + [TryPut(0)];
    FindsFull(2, a, 1, message);
    var b := a + [Begin(1, message)] + [TryPut(1)];
    var steps := b + [DropOldest(1)];
    RunSnoc(2, b, DropOldest(1));
    RunSnoc(2, steps, DropOldest(0));
    DropCounts(Run(2, steps), 0);
  }

  /** A sender that begins on a full queue finds it full. */
  lemma FindsFull<M(!new)>(senders: nat, steps: seq<Step<M>>, i: nat, message: M)
    requires var s := Run(senders, steps); i < |s.senders| && s.senders[i].Idle? && |s.queue| == QUEUE_MAX
    ensures var s, t := Run(senders, steps), Run(senders, steps + [Begin(i, message)] + [TryPut(i)]);
            t.queue == s.queue && t.senders == s.senders[i := FoundFull(message)]
  {
    hide Run;
    RunSnoc(senders, steps, Begin(i, message));
    RunSnoc(senders, steps + [Begin(i, message)], TryPut(i));
  }

  lemma DropCounts<M(!new)>(s: Shared<M>, i: nat)
    requires i < |s.senders| && s.senders[i].FoundFull? && s.queue != []
    ensures |Dropped(Do(s, DropOldest(i)).removed)| == |Dropped(s.removed)| + 1
  {
    var t := Do(s, DropOldest(i));
    assert t.removed[..|t.removed| - 1] == s.removed;
  }

  lemma {:induction false} FillTakesNothing<M(!new)>(message: M, n: nat)
    ensures forall j | 0 <= j < |Fill(message, n)| :: !Fill(message, n)[j].Consume?
  {
    if n > 0 {
      FillTakesNothing(message, n - 1);
    }
  }

  /** A sender that found the queue full keeps its message and stands there until it drops. */
  lemma {:induction false} StaysFoundFull<M(!new)>(senders: nat, steps: seq<Step<M>>, i: nat, waits: seq<Step<M>>)
    requires i < |Run(senders, steps).senders| && Run(senders, steps).senders[i].FoundFull?
    requires forall j | 0 <= j < |waits| :: waits[j] != DropOldest(i)
    ensures var s, t := Run(senders, steps), Run(senders, steps + waits);
            |t.senders| == |s.senders| && t.senders[i] == s.senders[i]
  {
    hide Run;
    if waits == [] {
      assert steps + waits == steps;
    } else {
      var front := waits[..|waits| - 1];
      StaysFoundFull(senders, steps, i, front);
      assert steps + waits == (steps + front) + [Last(waits)];
      RunSnoc(senders, steps + front, Last(waits));
    }
  }

  /** Any number of senders, one of which has just found the queue full: whatever happens before it
      drops, it holds its message, and it will find room to spare exactly when what left the queue in the
      meantime, taken by the connection or dropped by other senders, outnumbers what others put. */
  lemma {:induction false} RoomAtDropExactly<M(!new)>(
    senders: nat, steps: seq<Step<M>>, i: nat, waits: seq<Step<M>>)
    requires var s := Run(senders, steps);
             i < |s.senders| && s.senders[i].FoundFull? && |s.queue| == 50
    requires forall j | 0 <= j < |waits| :: waits[j] != DropOldest(i)
    ensures var s, t := Run(senders, steps), Run(senders, steps + waits);
            var taken := |Consumed(t.removed)| - |Consumed(s.removed)|;
            var dropped := |Dropped(t.removed)| - |Dropped(s.removed)|;
            && i < |t.senders| && t.senders[i] == s.senders[i]
            && (|t.queue| < 50 <==> taken + dropped > |t.put| - |s.put|)
  {
    hide Run, Consumed, Dropped;
    StaysFoundFull(senders, steps, i, waits);
    RunConserves(senders, steps);
    RunConserves(senders, steps + waits);
    ConsumedInOrder(Run(senders, steps).removed);
    ConsumedInOrder(Run(senders, steps + waits).removed);
  }

  /** With a single sender nothing is put or dropped meanwhile, so it comes down to whether the
      connection took a message. */
  lemma {:induction false} SoleSenderRoomExactly<M(!new)>(steps: seq<Step<M>>, waits: seq<Step<M>>)
    requires var s := Run(1, steps); |s.senders| == 1 && s.senders[0].FoundFull? && |s.queue| == 50
    requires forall j | 0 <= j < |waits| :: !waits[j].DropOldest?
    ensures var s := Run(1, steps + waits);
            && |s.senders| == 1 && s.senders[0].FoundFull?
            && (|s.queue| < 50 <==> exists j | 0 <= j < |waits| :: waits[j].Consume?)
            && |s.queue| <= 50
  {
    hide Run;
    if waits == [] {
      assert steps + waits == steps;
    } else {
      var front := waits[..|waits| - 1];
      SoleSenderRoomExactly(steps, front);
      assert steps + waits == (steps + front) + [Last(waits)];
      RunSnoc(1, steps + front, Last(waits));
      assert (exists j | 0 <= j < |waits| :: waits[j].Consume?) <==>
             (exists j | 0 <= j < |front| :: front[j].Consume?) || waits[|waits| - 1].Consume?;
    }
  }
}
