/**
 The relay: one reader stores the newest frame of the camera's stream, and any number of client
 responses each write it out when it is newer than what they wrote last. The objects come first;
 then every interleaving of their steps as a state machine, and what every client receives.
 */
module Relay {
  import opened Sequences
  import opened Bytes
  import opened Mjpeg
  import opened MjpegTheorems
  import opened Reserve

  /** A frame and the clock time it was stored at. */
  datatype Stamped = Stamped(jpeg: bytes, time: real)

  function Newest(stored: seq<Stamped>): Option<Stamped> {
    if stored == [] then None else Some(Last(stored))
  }

  /** What a client waiting for a frame newer than `after` is given once it wakes or times out. */
  function NewFrame(latest: Option<Stamped>, after: real): Option<Stamped> {
    if latest.Some? && latest.value.time > after then latest else None
  }

  /** The first `n` frames of a connection, each stamped with the clock reading at its store. */
  function StampedFrames(frames: seq<bytes>, clock: nat -> real, n: nat): seq<Stamped>
    requires n <= |frames|
  {
    if n == 0 then [] else StampedFrames(frames, clock, n - 1) + [Stamped(frames[n - 1], clock(n - 1))]
  }

  // ── one client response ──────────────────────────────────────────────────────────────────

  datatype Client = Client(last: real, sent: seq<Stamped>, written: bytes, open: bool)

  const JOINED := Client(0.0, [], [], true)

  /** One turn of a response's loop: write the newer frame, or end the response. */
  function Turn(c: Client, latest: Option<Stamped>): Client {
    if !c.open then c
    else
      match NewFrame(latest, c.last)
      case None => c.(open := false)
      case Some(frame) => Client(frame.time, c.sent + [frame], c.written + WritePart(frame.jpeg), true)
  }

  /** A whole response: before each turn of its loop the camera stores any number of frames. */
  function Turns(c: Client, stored: seq<Stamped>, rounds: seq<seq<Stamped>>): Client
    decreases |rounds|
  {
    if rounds == [] then c
    else Turns(Turn(c, Newest(stored + rounds[0])), stored + rounds[0], rounds[1..])
  }

  // ── the objects ──────────────────────────────────────────────────────────────────────────

  class MjpegSource {
    var latest: Option<Stamped>
    var lastError: string
    ghost var stored: seq<Stamped>

    ghost predicate Valid()
      reads this
    {
      latest == Newest(stored)
    }

    constructor ()
      ensures Valid() && stored == []
    {
      latest, lastError, stored := None, "", [];
    }

    method Store(jpeg: bytes, now: real)
      requires Valid()
      modifies this
      ensures Valid() && stored == old(stored) + [Stamped(jpeg, now)] && lastError == ""
    {
      latest := Some(Stamped(jpeg, now));
      lastError := "";
      stored := stored + [Stamped(jpeg, now)];
    }

    method WaitForNewFrame(after: real) returns (r: Option<Stamped>)
      requires Valid()
      ensures r == NewFrame(Newest(stored), after)
    {
      if latest.Some? && latest.value.time > after {
        return latest;
      }
      return None;
    }

    /** Stores the frames of one connection as they are parsed; a stop ends it after `limit` of them. */
    method ConsumeStream(stream: ByteStream, clock: nat -> real, limit: nat)
      requires Valid() && stream.Valid()
      modifies this, stream
      ensures Valid()
      ensures var frames := Parsed(old(stream.Remaining())).frames;
              var n := if limit < |frames| then limit else |frames|;
              stored == old(stored) + StampedFrames(frames, clock, n)
    {
      hide Parsed, Frames, Newest;
      var frames, ending := IterMjpegFrames(stream);
      var n := 0;
      while n < |frames| && n < limit
        invariant Valid() && n <= |frames| && n <= limit
        invariant stored == old(stored) + StampedFrames(frames, clock, n)
      {
        Store(frames[n], clock(n));
        n := n + 1;
      }
    }
  }

  class StreamResponse {
    var last: real
    var wfile: bytes
    var open: bool
    ghost var sent: seq<Stamped>

    ghost function Value(): Client
      reads this
    {
      Client(last, sent, wfile, open)
    }

    constructor ()
      ensures Value() == JOINED
    {
      last, wfile, open, sent := 0.0, [], true, [];
    }

    /** The response loop; `rounds` is what the camera stores while each turn waits. The agent's stop
        ends it when the rounds run out. */
    method Stream(source: MjpegSource, rounds: seq<seq<Stamped>>)
      requires source.Valid() && open
      modifies this, source
      ensures source.Valid()
      ensures Value() == Turns(old(Value()), old(source.stored), rounds)
    {
      hide WritePart;
      var k := 0;
      while k < |rounds| && open
        invariant source.Valid() && k <= |rounds|
        invariant Turns(old(Value()), old(source.stored), rounds) ==
                  Turns(Value(), source.stored, rounds[k..])
      {
        ghost var before, mine := source.stored, Value();
        var j := 0;
        while j < |rounds[k]|
          invariant source.Valid() && j <= |rounds[k]|
          invariant source.stored == before + rounds[k][..j]
          invariant Value() == mine
        {
          source.Store(rounds[k][j].jpeg, rounds[k][j].time);
          j := j + 1;
        }
        assert rounds[k][..j] == rounds[k];
        var frame := source.WaitForNewFrame(last);
        if frame.None? {
          open := false;
        } else {
          last := frame.value.time;
          wfile := wfile + WritePart(frame.value.jpeg);
          sent := sent + [frame.value];
        }
        assert rounds[k..][1..] == rounds[k + 1..];
        k := k + 1;
      }
      if !open {
        ClosedStays(Value(), source.stored, rounds[k..]);
      }
    }
  }

  lemma {:induction false} ClosedStays(c: Client, stored: seq<Stamped>, rounds: seq<seq<Stamped>>)
    requires !c.open
    ensures Turns(c, stored, rounds) == c
    decreases |rounds|
  {
    if rounds != [] {
      ClosedStays(c, stored + rounds[0], rounds[1..]);
    }
  }

  // ── every interleaving ───────────────────────────────────────────────────────────────────

  /** The camera connections opened so far, the frames of the last one still to be stored, the
      history of the newest-frame cell, and the client responses. */
  datatype Relay = Relay(streams: seq<bytes>, pending: seq<bytes>, stored: seq<Stamped>, clients: seq<Client>)

  const START := Relay([], [], [], [])

  datatype Step =
    | Connect(stream: bytes)      // a camera connection and all it will ever deliver
    | StoreNext(time: real)       // the reader parses its next frame and stores it
    | Join                        // a client opens a response
    | Wake(client: nat)           // a response's wait ends, by a frame or by timeout
    | Leave(client: nat)          // a response ends: the client hung up or the agent is stopping

  function Do(r: Relay, step: Step): Relay {
    match step
    case Connect(stream) => r.(streams := r.streams + [stream], pending := Parsed(stream).frames)
    case StoreNext(time) =>
      if r.pending == [] then r
      else r.(pending := r.pending[1..], stored := r.stored + [Stamped(r.pending[0], time)])
    case Join => r.(clients := r.clients + [JOINED])
    case Wake(i) =>
      if i >= |r.clients| then r
      else r.(clients := r.clients[i := Turn(r.clients[i], Newest(r.stored))])
    case Leave(i) =>
      if i >= |r.clients| then r
      else r.(clients := r.clients[i := r.clients[i].(open := false)])
  }

  function Run(steps: seq<Step>): Relay {
    if steps == [] then START else Do(Run(steps[..|steps| - 1]), Last(steps))
  }

  /** Every frame parsed from the camera, connection after connection. */
  function CameraFrames(streams: seq<bytes>): seq<bytes> {
    if streams == [] then []
    else CameraFrames(streams[..|streams| - 1]) + Parsed(Last(streams)).frames
  }

  function Jpegs(frames: seq<Stamped>): seq<bytes> {
    seq(|frames|, i requires 0 <= i < |frames| => frames[i].jpeg)
  }

  ghost predicate Increasing(frames: seq<Stamped>) {
    forall i, j | 0 <= i < j < |frames| :: frames[i].time < frames[j].time
  }

  ghost predicate ClientFaithful(c: Client, stored: seq<Stamped>) {
    && c.written == WriteParts(Jpegs(c.sent))
    && Subsequence(c.sent, stored)
    && Increasing(c.sent)
    && c.last == if c.sent == [] then 0.0 else Last(c.sent).time
  }

  ghost predicate Faithful(r: Relay) {
    && Subsequence(Jpegs(r.stored) + r.pending, CameraFrames(r.streams))
    && AllFit(Jpegs(r.stored) + r.pending)
    && forall i | 0 <= i < |r.clients| :: ClientFaithful(r.clients[i], r.stored)
  }

  /** A subsequence that does not reach the end of `b` can take the last element of `b` too. */
  lemma TakesLast(a: seq<Stamped>, b: seq<Stamped>)
    requires b != [] && Subsequence(a, b) && Increasing(a)
    requires a != [] ==> Last(a).time < Last(b).time
    ensures Subsequence(a + [Last(b)], b)
  {
    var idx: seq<nat> :| Picks(idx, a, b);
    assert a != [] ==> idx[|a| - 1] < |b| - 1;
    assert forall i | 0 <= i < |a| :: idx[i] <= idx[|a| - 1];
    assert Picks(idx + [|b| - 1], a + [Last(b)], b);
  }

  lemma TurnFaithful(c: Client, stored: seq<Stamped>)
    requires ClientFaithful(c, stored)
    ensures ClientFaithful(Turn(c, Newest(stored)), stored)
  {
    hide WriteParts, WritePart;
    if c.open && NewFrame(Newest(stored), c.last).Some? {
      var frame := Last(stored);
      TakesLast(c.sent, stored);
      assert Jpegs(c.sent + [frame]) == Jpegs(c.sent) + [frame.jpeg];
      WritePartsSnoc(Jpegs(c.sent), frame.jpeg);
      assert Increasing(c.sent + [frame]);
    }
  }

  lemma StoredFaithful(c: Client, stored: seq<Stamped>, more: Stamped)
    requires ClientFaithful(c, stored)
    ensures ClientFaithful(c, stored + [more])
  {
    hide WriteParts;
    SubsequenceOfPrefix(stored, stored + [more]);
    SubsequenceTransitive(c.sent, stored, stored + [more]);
  }

  lemma JoinedFaithful(stored: seq<Stamped>)
    ensures ClientFaithful(JOINED, stored)
  {
    SubsequenceOfPrefix([], stored);
    assert Jpegs([]) == [];
  }

  lemma ConnectFaithful(r: Relay, stream: bytes)
    requires Faithful(r)
    ensures Faithful(Do(r, Connect(stream)))
  {
    hide Parsed, ClientFaithful;
    var frames := Parsed(stream).frames;
    var streams := r.streams + [stream];
    FramesFit(stream, None, false);
    assert AllFit(frames) by { ParsedFits(stream); }
    assert streams[..|streams| - 1] == r.streams;
    var past := Jpegs(r.stored);
    SubsequenceOfPrefix(past, past + r.pending);
    SubsequenceTransitive(past, past + r.pending, CameraFrames(r.streams));
    SubsequenceOfPrefix(frames, frames);
    SubsequenceAppend(past, CameraFrames(r.streams), frames, frames);
    assert forall i | 0 <= i < |past| :: past[i] == (past + r.pending)[i];
  }

  lemma ParsedFits(stream: bytes)
    ensures AllFit(Parsed(stream).frames)
  {
    FramesFit(stream, None, false);
  }

  lemma DoFaithful(r: Relay, step: Step)
    requires Faithful(r)
    ensures Faithful(Do(r, step))
  {
    hide ClientFaithful, CameraFrames;
    match step
    case Connect(stream) => ConnectFaithful(r, stream);
    case StoreNext(time) =>
      if r.pending != [] {
        var frame := Stamped(r.pending[0], time);
        assert Jpegs(r.stored + [frame]) + r.pending[1..] == Jpegs(r.stored) + r.pending;
        forall i | 0 <= i < |r.clients|
          ensures ClientFaithful(r.clients[i], r.stored + [frame])
        {
          StoredFaithful(r.clients[i], r.stored, frame);
        }
      }
    case Join => JoinedFaithful(r.stored);
    case Wake(i) =>
      if i < |r.clients| {
        TurnFaithful(r.clients[i], r.stored);
      }
    case Leave(i) =>
      if i < |r.clients| {
        LeftFaithful(r.clients[i], r.stored);
      }
  }

  lemma LeftFaithful(c: Client, stored: seq<Stamped>)
    requires ClientFaithful(c, stored)
    ensures ClientFaithful(c.(open := false), stored)
  {
  }

  lemma {:induction false} RunFaithful(steps: seq<Step>)
    ensures Faithful(Run(steps))
  {
    if steps == [] {
      SubsequenceOfPrefix<bytes>([], []);
      assert Jpegs([]) + [] == [];
    } else {
      RunFaithful(steps[..|steps| - 1]);
      DoFaithful(Run(steps[..|steps| - 1]), Last(steps));
    }
  }

  /** In every interleaving, and wherever the connection to a client is cut, parsing what it received
      gives frames parsed from the camera, in order and none twice, by strictly increasing store
      time; and all of them when nothing was cut off. */
  lemma {:induction false} RelayDelivers(steps: seq<Step>, i: nat, k: nat)
    requires i < |Run(steps).clients| && k <= |Run(steps).clients[i].written|
    ensures var r := Run(steps);
            var c := r.clients[i];
            var received := Parsed(c.written[..k]).frames;
            && received <= Jpegs(c.sent)
            && (k == |c.written| ==> received == Jpegs(c.sent))
            && Subsequence(received, CameraFrames(r.streams))
            && Subsequence(c.sent, r.stored)
            && Increasing(c.sent)
  {
    hide CameraFrames, Parsed, WriteParts, Run;
    RunFaithful(steps);
    var r := Run(steps);
    var c := r.clients[i];
    var all, past := Jpegs(c.sent), Jpegs(r.stored);
    assert ClientFaithful(c, r.stored);
    var idx: seq<nat> :| Picks(idx, c.sent, r.stored);
    assert Picks(idx, all, past);
    assert AllFit(all) by {
      assert forall j | 0 <= j < |all| :: all[j] == (past + r.pending)[idx[j]];
    }
    ServedRoundTrip(all);
    NoTornFrames(c.written, k);
    assert c.written[..|c.written|] == c.written;
    var received := Parsed(c.written[..k]).frames;
    SubsequenceOfPrefix(received, all);
    SubsequenceOfPrefix(past, past + r.pending);
    SubsequenceTransitive(received, all, past);
    SubsequenceTransitive(received, past, past + r.pending);
    SubsequenceTransitive(received, past + r.pending, CameraFrames(r.streams));
  }

  ghost predicate NonDecreasing(frames: seq<Stamped>) {
    forall i, j | 0 <= i < j < |frames| :: frames[i].time <= frames[j].time
  }

  /** A waking response that is still open writes the newest frame when it was stored at a later reading than
      the one it wrote last, as one part after all it has written; otherwise it ends and writes nothing. No
      other response, and nothing of the camera's side, is touched. */
  lemma WakeWrites(steps: seq<Step>, i: nat)
    requires i < |Run(steps).clients| && Run(steps).clients[i].open
    ensures var r := Run(steps);
            var c, next := r.clients[i], Do(r, Wake(i));
            var after := if c.sent == [] then 0.0 else Last(c.sent).time;
            && next == r.(clients := next.clients) && |next.clients| == |r.clients|
            && (forall j | 0 <= j < |r.clients| && j != i :: next.clients[j] == r.clients[j])
            && (if r.stored != [] && Last(r.stored).time > after then
                  && next.clients[i].open
                  && next.clients[i].sent == c.sent + [Last(r.stored)]
                  && next.clients[i].written == c.written + WritePart(Last(r.stored).jpeg)
                else
                  !next.clients[i].open && next.clients[i].sent == c.sent && next.clients[i].written == c.written)
  {
    hide CameraFrames, WriteParts, WritePart, Run;
    RunFaithful(steps);
    assert ClientFaithful(Run(steps).clients[i], Run(steps).stored);
  }

  /** With a clock that never runs backwards, an open response that wakes writes the newest frame exactly when
      it was stored at another reading than the one it wrote last, or, before its first, at a positive
      reading; and ends otherwise. */
  lemma {:induction false} WakeWritesExactly(steps: seq<Step>, i: nat)
    requires i < |Run(steps).clients| && Run(steps).clients[i].open
    requires NonDecreasing(Run(steps).stored)
    ensures var r := Run(steps);
            var c, next := r.clients[i], Do(r, Wake(i)).clients[i];
            var newer := r.stored != [] &&
                         if c.sent == [] then Last(r.stored).time > 0.0 else Last(c.sent).time != Last(r.stored).time;
            && (next.open <==> newer)
            && next.sent == (if newer then c.sent + [Last(r.stored)] else c.sent)
            && next.written == (if newer then c.written + WritePart(Last(r.stored).jpeg) else c.written)
  {
    hide CameraFrames, WriteParts, WritePart, Run;
    RunFaithful(steps);
    WakeWrites(steps, i);
    var r := Run(steps);
    var c := r.clients[i];
    assert ClientFaithful(c, r.stored);
    var idx: seq<nat> :| Picks(idx, c.sent, r.stored);
    if c.sent != [] {
      var last := idx[|idx| - 1];
      assert Last(c.sent) == r.stored[last];
      assert last < |r.stored| - 1 ==> r.stored[last].time <= Last(r.stored).time;
    }
  }

  // ── a client that keeps up ───────────────────────────────────────────────────────────────

  function RunFrom(r: Relay, more: seq<Step>): Relay
    decreases |more|
  {
    if more == [] then r else RunFrom(Do(r, more[0]), more[1..])
  }

  lemma {:induction false} RunFromIsRun(steps: seq<Step>, more: seq<Step>)
    ensures RunFrom(Run(steps), more) == Run(steps + more)
    decreases |more|
  {
    if more == [] {
      assert steps + more == steps;
    } else {
      RunSnoc(steps, more[0]);
      assert steps + more == (steps + [more[0]]) + more[1..];
      RunFromIsRun(steps + [more[0]], more[1..]);
    }
  }

  lemma {:induction false} RunFromSnoc(r: Relay, more: seq<Step>, step: Step)
    ensures RunFrom(r, more + [step]) == Do(RunFrom(r, more), step)
    decreases |more|
  {
    if more == [] {
      assert more + [step] == [step] && [step][1..] == [];
    } else {
      assert (more + [step])[1..] == more[1..] + [step];
      RunFromSnoc(Do(r, more[0]), more[1..], step);
    }
  }

  /** A connection, and stores of its first `n` frames at the readings of the clock. */
  function ConnectionSteps(stream: bytes, clock: nat -> real, n: nat): seq<Step> {
    if n == 0 then [Connect(stream)] else ConnectionSteps(stream, clock, n - 1) + [StoreNext(clock(n - 1))]
  }

  /** As steps, a connection stores what `ConsumeStream` does. */
  lemma {:induction false} ConnectionIsSteps(r: Relay, stream: bytes, clock: nat -> real, n: nat)
    requires n <= |Parsed(stream).frames|
    ensures var frames := Parsed(stream).frames;
            var next := RunFrom(r, ConnectionSteps(stream, clock, n));
            && next.stored == r.stored + StampedFrames(frames, clock, n) && next.pending == frames[n..]
            && next.clients == r.clients
  {
    hide Parsed;
    if n == 0 {
      assert [Connect(stream)][1..] == [];
    } else {
      ConnectionIsSteps(r, stream, clock, n - 1);
      RunFromSnoc(r, ConnectionSteps(stream, clock, n - 1), StoreNext(clock(n - 1)));
      var frames := Parsed(stream).frames;
      Associative(r.stored, StampedFrames(frames, clock, n - 1), [Stamped(frames[n - 1], clock(n - 1))]);
    }
  }

  lemma {:induction false} RunFromAppend(r: Relay, a: seq<Step>, b: seq<Step>)
    ensures RunFrom(r, a + b) == RunFrom(RunFrom(r, a), b)
    decreases |b|
  {
    if b == [] {
      assert a + b == a;
    } else {
      var front, last := b[..|b| - 1], b[|b| - 1];
      assert a + b == (a + front) + [last] && b == front + [last];
      RunFromAppend(r, a, front);
      RunFromSnoc(r, a + front, last);
      RunFromSnoc(RunFrom(r, a), front, last);
    }
  }

  function StoreSteps(frames: seq<Stamped>): seq<Step> {
    if frames == [] then [] else StoreSteps(frames[..|frames| - 1]) + [StoreNext(Last(frames).time)]
  }

  /** The stores of each round, and a wake of client `i` after them. */
  function RoundSteps(rounds: seq<seq<Stamped>>, i: nat): seq<Step> {
    if rounds == [] then [] else (StoreSteps(rounds[0]) + [Wake(i)]) + RoundSteps(rounds[1..], i)
  }

  lemma {:induction false} StoresAsSteps(r: Relay, frames: seq<Stamped>)
    requires Jpegs(frames) <= r.pending
    ensures RunFrom(r, StoreSteps(frames)) == r.(pending := r.pending[|frames|..], stored := r.stored + frames)
    decreases |frames|
  {
    if frames != [] {
      var n := |frames| - 1;
      assert Jpegs(frames[..n]) == Jpegs(frames)[..n];
      StoresAsSteps(r, frames[..n]);
      RunFromSnoc(r, StoreSteps(frames[..n]), StoreNext(frames[n].time));
      assert r.pending[n] == Jpegs(frames)[n] == frames[n].jpeg;
      Associative(r.stored, frames[..n], [frames[n]]);
      assert frames[..n] + [frames[n]] == frames;
    } else {
      assert r.pending[0..] == r.pending && r.stored + frames == r.stored;
    }
  }

  /** As steps of a run, the response loop does what `Stream` does. */
  lemma {:induction false} StreamIsSteps(r: Relay, i: nat, rounds: seq<seq<Stamped>>)
    requires i < |r.clients| && Jpegs(Flatten(rounds)) <= r.pending
    ensures var next := RunFrom(r, RoundSteps(rounds, i));
            && next.clients == r.clients[i := Turns(r.clients[i], r.stored, rounds)]
            && next.stored == r.stored + Flatten(rounds)
    decreases |rounds|
  {
    hide Turn, Newest;
    if rounds == [] {
      assert r.stored + Flatten(rounds) == r.stored;
    } else {
      var first, rest := rounds[0], rounds[1..];
      var all := Flatten(rounds);
      assert all == first + Flatten(rest);
      assert Jpegs(first) == Jpegs(all)[..|first|] && Jpegs(Flatten(rest)) == Jpegs(all)[|first|..];
      StoresAsSteps(r, first);
      var stored := RunFrom(r, StoreSteps(first));
      RunFromSnoc(r, StoreSteps(first), Wake(i));
      var next := RunFrom(r, StoreSteps(first) + [Wake(i)]);
      RunFromAppend(r, StoreSteps(first) + [Wake(i)], RoundSteps(rest, i));
      StreamIsSteps(next, i, rest);
      Associative(r.stored, first, Flatten(rest));
    }
  }

  /** Client `i` wakes after every store before the next one, and in the end, never without a frame it has not
      been offered yet, and does not leave; everything else is open. `ready`: there is such a frame; `owed`:
      one has been stored since it joined. */
  predicate KeepsUp(r: Relay, more: seq<Step>, i: nat, ready: bool, owed: bool)
    decreases |more|
  {
    if more == [] then !owed
    else
      var next, rest := Do(r, more[0]), more[1..];
      if more[0].StoreNext? && r.pending != [] then !owed && KeepsUp(next, rest, i, true, true)
      else if more[0] == Wake(i) then ready && KeepsUp(next, rest, i, false, false)
      else more[0] != Leave(i) && KeepsUp(next, rest, i, ready, owed)
  }

  ghost predicate AtPositiveReadings(frames: seq<Stamped>) {
    Increasing(frames) && forall j | 0 <= j < |frames| :: frames[j].time > 0.0
  }

  lemma {:induction false} StoredGrows(r: Relay, more: seq<Step>)
    ensures r.stored <= RunFrom(r, more).stored
    decreases |more|
  {
    if more != [] {
      StoredGrows(Do(r, more[0]), more[1..]);
    }
  }

  /** Since it joined, when `n` frames had been stored, the client has been sent all stored from then on but
      the last when one is owed. */
  ghost predicate SentSince(r: Relay, i: nat, n: nat, ready: bool, owed: bool) {
    && i < |r.clients| && r.clients[i].open
    && var c, m := r.clients[i], |r.stored| - (if owed then 1 else 0);
       && n <= m <= |r.stored|
       && (ready ==> r.stored != [] && c.last < Last(r.stored).time)
       && (c.last == 0.0 || (r.stored != [] && c.last <= Last(r.stored).time))
       && exists before: seq<Stamped> :: |before| <= 1 && c.sent == before + r.stored[n..m]
  }

  lemma StoreSent(r: Relay, time: real, i: nat, n: nat, ready: bool)
    requires SentSince(r, i, n, ready, false) && r.pending != []
    requires AtPositiveReadings(Do(r, StoreNext(time)).stored)
    ensures SentSince(Do(r, StoreNext(time)), i, n, true, true)
  {
    var next := Do(r, StoreNext(time));
    var c := r.clients[i];
    assert next.stored[..|r.stored|] == r.stored;
    assert c.last != 0.0 ==> next.stored[|r.stored| - 1].time < next.stored[|r.stored|].time;
    var before: seq<Stamped> :| |before| <= 1 && c.sent == before + r.stored[n..];
    assert next.stored[n..|r.stored|] == r.stored[n..];
    assert c.sent == before + next.stored[n..|next.stored| - 1];
  }

  lemma WakeSent(r: Relay, i: nat, n: nat, owed: bool)
    requires SentSince(r, i, n, true, owed)
    requires !owed ==> r.clients[i].sent == [] && n == |r.stored|
    ensures SentSince(Do(r, Wake(i)), i, n, false, false)
  {
    hide WritePart;
    var next, c := Do(r, Wake(i)), r.clients[i];
    var last := Last(r.stored);
    assert next.clients[i].sent == c.sent + [last] && next.stored == r.stored;
    if owed {
      var m := |r.stored| - 1;
      var before: seq<Stamped> :| |before| <= 1 && c.sent == before + r.stored[n..m];
      assert r.stored[n..] == r.stored[n..m] + [last];
      Associative(before, r.stored[n..m], [last]);
      assert next.clients[i].sent == before + next.stored[n..|next.stored|];
    } else {
      assert next.clients[i].sent == [last] + next.stored[n..|next.stored|];
    }
  }

  lemma {:induction false} KeepsUpSent(r: Relay, more: seq<Step>, i: nat, n: nat, ready: bool, owed: bool)
    requires SentSince(r, i, n, ready, owed) && (owed ==> ready)
    requires !owed && ready ==> r.clients[i].sent == [] && n == |r.stored|
    requires KeepsUp(r, more, i, ready, owed) && AtPositiveReadings(RunFrom(r, more).stored)
    ensures exists ready: bool :: SentSince(RunFrom(r, more), i, n, ready, false)
    decreases |more|
  {
    if more == [] {
      assert SentSince(RunFrom(r, more), i, n, ready, false);
    } else {
      hide SentSince;
      var step, next, rest := more[0], Do(r, more[0]), more[1..];
      StoredGrows(next, rest);
      assert AtPositiveReadings(next.stored);
      if step.StoreNext? && r.pending != [] {
        StoreSent(r, step.time, i, n, ready);
        KeepsUpSent(next, rest, i, n, true, true);
      } else if step == Wake(i) {
        WakeSent(r, i, n, owed);
        KeepsUpSent(next, rest, i, n, false, false);
      } else {
        OtherStep(r, step, i, n, ready, owed);
        KeepsUpSent(next, rest, i, n, ready, owed);
      }
    }
  }

  lemma OtherStep(r: Relay, step: Step, i: nat, n: nat, ready: bool, owed: bool)
    requires SentSince(r, i, n, ready, owed)
    requires (step.StoreNext? ==> r.pending == []) && step != Wake(i) && step != Leave(i)
    ensures var next := Do(r, step);
            SentSince(next, i, n, ready, owed) && next.stored == r.stored && next.clients[i] == r.clients[i]
  {
    hide Turn, Parsed;
  }

  /** With a clock that runs strictly forwards, a client that joins and wakes after every store is sent every
      frame stored since, in order, after at most the one that was the newest when it joined; and its response
      stays open. */
  lemma {:induction false} KeepingUpGetsAll(steps: seq<Step>, more: seq<Step>)
    requires var joined := Run(steps + [Join]);
             KeepsUp(joined, more, |joined.clients| - 1, joined.stored != [], false)
    requires AtPositiveReadings(Run(steps + [Join] + more).stored)
    ensures var joined, r, i := Run(steps + [Join]), Run(steps + [Join] + more), |Run(steps).clients|;
            && i < |r.clients| && r.clients[i].open && joined.stored <= r.stored
            && exists before: seq<Stamped> ::
                 |before| <= 1 && r.clients[i].sent == before + r.stored[|joined.stored|..]
  {
    hide Run, Do, KeepsUp, AtPositiveReadings;
    var joined, i := Run(steps + [Join]), |Run(steps).clients|;
    RunSnoc(steps, Join);
    JoinedLast(Run(steps));
    RunFromIsRun(steps + [Join], more);
    StoredGrows(joined, more);
    var n, ready := |joined.stored|, joined.stored != [];
    assert joined.stored[n..n] == [] && JOINED.sent == [] + joined.stored[n..n];
    assert ready ==> Last(joined.stored).time > 0.0 by { PositiveWithin(joined.stored, Run(steps + [Join] + more).stored); }
    assert SentSince(joined, i, n, ready, false);
    KeepsUpSent(joined, more, i, n, ready, false);
    var r := RunFrom(joined, more);
    assert r.stored[n..|r.stored|] == r.stored[n..];
  }

  lemma JoinedLast(r: Relay)
    ensures Do(r, Join) == r.(clients := r.clients + [JOINED])
  {
  }

  lemma PositiveWithin(a: seq<Stamped>, b: seq<Stamped>)
    requires a <= b && AtPositiveReadings(b)
    ensures forall j | 0 <= j < |a| :: a[j].time > 0.0
  {
  }

  lemma RunSnoc(steps: seq<Step>, step: Step)
    ensures Run(steps + [step]) == Do(Run(steps), step)
  {
    assert (steps + [step])[..|steps|] == steps;
  }

  /** Two frames stored at one clock reading: a client that wrote the first never gets the second, and its
      next wake ends the response although a newer frame is there. */
  lemma SameReadingSkipsFrame(first: bytes, second: bytes, time: real)
    requires |first| <= MAX_FRAME_BYTES && |second| <= MAX_FRAME_BYTES && time > 0.0
    ensures exists steps: seq<Step> ::
              var r := Run(steps);
              && r.stored == [Stamped(first, time), Stamped(second, time)]
              && |r.clients| == 1 && r.clients[0].open && r.clients[0].sent == [Stamped(first, time)]
              && Do(r, Wake(0)).clients[0] == r.clients[0].(open := false)
  {
    hide Run, Parsed, WriteParts, WritePart;
    var frames := [first, second];
    ServedRoundTrip(frames);
    var a := [Connect(WriteParts(frames))];
    var b := a + [StoreNext(time)];
    var c := b + [Join];
    var d := c + [Wake(0)];
    var steps := d + [StoreNext(time)];
    EmptyRun();
    assert [] + [Connect(WriteParts(frames))] == a;
    RunSnoc([], Connect(WriteParts(frames)));
    RunSnoc(a, StoreNext(time));
    RunSnoc(b, Join);
    RunSnoc(c, Wake(0));
    RunSnoc(d, StoreNext(time));
    assert Run(a).pending == frames;
    assert Run(steps).stored == [Stamped(first, time), Stamped(second, time)];
    assert Run(d).clients[0].sent == [Stamped(first, time)];
  }

  lemma EmptyRun()
    ensures Run([]) == START
  {
  }
}
