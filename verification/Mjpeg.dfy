/**
 The multipart parser of the camera reader: what it yields as a function of the bytes still to be
 read, and the loops that compute it over a stream consumed in place.
 */
module Mjpeg {
  import opened Sequences
  import opened Bytes

  const MAX_FRAME_BYTES: nat := 8_000_000

  /** `content-length` */
  const CONTENT_LENGTH: bytes := [99, 111, 110, 116, 101, 110, 116, 45, 108, 101, 110, 103, 116, 104]

  type Headers = map<bytes, bytes>

  // ── what the parser yields ───────────────────────────────────────────────────────────────

  /** One header line: later lines override earlier ones, lines without a colon are skipped. */
  function AddHeader(headers: Headers, line: bytes): Headers {
    var colon := ColonAt(line);
    if colon == |line| then headers
    else headers[Lower(StripBy(Latin1Space, line[..colon])) := StripBy(Latin1Space, line[colon + 1..])]
  }

  predicate BlankLine(line: bytes) {
    line == CRLF || line == NEWLINE
  }

  /** A piece read off the front of a stream, and what is left; or None when the stream ran out. */
  datatype Piece<+T> = Piece(value: T, rest: bytes)

  function ReadHeaders(s: bytes, headers: Headers): (r: Option<Piece<Headers>>)
    ensures r.Some? ==> |r.value.rest| < |s|
    decreases |s|
  {
    if s == [] then None
    else if BlankLine(FirstLine(s)) then Some(Piece(headers, AfterLine(s)))
    else ReadHeaders(AfterLine(s), AddHeader(headers, FirstLine(s)))
  }

  /** The declared length as text; empty when the part declares none. */
  function LengthText(headers: Headers): bytes {
    if CONTENT_LENGTH in headers then headers[CONTENT_LENGTH] else []
  }

  function ReadExact(s: bytes, n: nat): Option<Piece<bytes>> {
    if n <= |s| then Some(Piece(s[..n], s[n..])) else None
  }

  function TrimLineEnd(body: bytes): bytes {
    if |body| >= 2 && body[|body| - 2..] == CRLF then body[..|body| - 2] else body
  }

  /** `body` is what the part has accumulated so far. */
  function ReadUntilBoundary(s: bytes, boundary: bytes, body: bytes): (r: Option<Piece<bytes>>)
    ensures r.Some? ==> |r.value.rest| < |s|
    decreases |s|
  {
    if s == [] then None
    else if boundary <= Strip(FirstLine(s)) then Some(Piece(TrimLineEnd(body), AfterLine(s)))
    else if |body| + |FirstLine(s)| > MAX_FRAME_BYTES then None
    else ReadUntilBoundary(AfterLine(s), boundary, body + FirstLine(s))
  }

  /** How the generator stops: it returns, or converting a declared length raises ValueError. */
  datatype Ending = Returned | ValueError

  /** What comes of one part: the generator stops there, or yields a frame and goes on. */
  datatype Next = Stop(ending: Ending) | Yield(frame: bytes, rest: bytes, atBoundary: bool)

  /** Skips to the next boundary line; the value is the boundary in force from then on. */
  function FindPart(s: bytes, boundary: Option<bytes>): (r: Option<Piece<bytes>>)
    ensures r.Some? ==> |r.value.rest| < |s|
    decreases |s|
  {
    if s == [] then None
    else
      var stripped := Strip(FirstLine(s));
      if !(DASHES <= stripped) then FindPart(AfterLine(s), boundary)
      else
        var b := boundary.GetOr(stripped);
        if stripped == b + DASHES then None else Some(Piece(b, AfterLine(s)))
  }

  /** One part, from its headers to the end of its body. */
  function NextFrame(s: bytes, boundary: bytes): (r: Next)
    ensures r.Yield? ==> |r.rest| < |s|
  {
    match ReadHeaders(s, map[])
    case None => Stop(Returned)
    case Some(Piece(headers, rest)) =>
      var length := LengthText(headers);
      if IsDigit(length) then
        match IntOf(length)
        case None => Stop(ValueError)
        case Some(n) =>
          if n > MAX_FRAME_BYTES then Stop(Returned)
          else
            match ReadExact(rest, n)
            case None => Stop(Returned)
            case Some(Piece(frame, rest')) => Yield(frame, rest', false)
      else
        match ReadUntilBoundary(rest, boundary, [])
        case None => Stop(Returned)
        case Some(Piece(frame, rest')) => Yield(frame, rest', true)
  }

  datatype Parse = Parse(frames: seq<bytes>, ending: Ending) {
    function After(frame: bytes): Parse {
      Parse([frame] + frames, ending)
    }
  }

  /** Where the next part starts; `atBoundary` when its boundary line was already consumed. */
  function PartStart(s: bytes, boundary: Option<bytes>, atBoundary: bool): Option<Piece<bytes>>
    requires atBoundary ==> boundary.Some?
  {
    if atBoundary then Some(Piece(boundary.value, s)) else FindPart(s, boundary)
  }

  /** Everything yielded from `s` on. */
  function Frames(s: bytes, boundary: Option<bytes>, atBoundary: bool): Parse
    requires atBoundary ==> boundary.Some?
    decreases |s|
  {
    match PartStart(s, boundary, atBoundary)
    case None => Parse([], Returned)
    case Some(Piece(b, start)) =>
      match NextFrame(start, b)
      case Stop(ending) => Parse([], ending)
      case Yield(frame, rest, atNext) => Frames(rest, Some(b), atNext).After(frame)
  }

  /** `iter_mjpeg_frames` on a stream that delivers `s` and then ends. */
  function Parsed(s: bytes): Parse {
    Frames(s, None, false)
  }

  /** One turn of the generator's loop on a line that is not the boundary of a part just scanned. */
  lemma LineStep(s: bytes, boundary: Option<bytes>)
    ensures s == [] ==> Frames(s, boundary, false) == Parse([], Returned)
    ensures s != [] && !(DASHES <= Strip(FirstLine(s))) ==>
              Frames(s, boundary, false) == Frames(AfterLine(s), boundary, false)
    ensures s != [] && DASHES <= Strip(FirstLine(s)) ==>
              var b := boundary.GetOr(Strip(FirstLine(s)));
              Frames(s, boundary, false) ==
              if Strip(FirstLine(s)) == b + DASHES then Parse([], Returned)
              else Frames(AfterLine(s), Some(b), true)
  {
  }

  lemma PartStep(s: bytes, b: bytes)
    ensures Frames(s, Some(b), true) ==
            match NextFrame(s, b)
            case Stop(ending) => Parse([], ending)
            case Yield(frame, rest, atNext) => Frames(rest, Some(b), atNext).After(frame)
  {
  }

  // ── the loops ────────────────────────────────────────────────────────────────────────────

  /** A binary stream: what it will deliver before it ends, and how far it has been read. */
  class ByteStream {
    const data: bytes
    var pos: nat

    ghost predicate Valid()
      reads this
    {
      pos <= |data|
    }

    function Remaining(): bytes
      requires Valid()
      reads this
    {
      data[pos..]
    }

    constructor (data: bytes)
      ensures Valid() && this.data == data && Remaining() == data
    {
      this.data := data;
      pos := 0;
    }

    method ReadLine() returns (line: bytes)
      requires Valid()
      modifies this
      ensures Valid()
      ensures line == FirstLine(old(Remaining()))
      ensures Remaining() == AfterLine(old(Remaining()))
    {
      var start := pos;
      while pos < |data| && (pos == start || data[pos - 1] != LF)
        invariant start <= pos <= |data|
        invariant LF !in data[start..][..if pos > start then pos - start - 1 else 0]
      {
        pos := pos + 1;
        assert data[start..][..pos - start - 1] ==
          (if pos - 1 > start then data[start..][..pos - start - 2] + [data[pos - 2]] else []);
      }
      line := data[start..pos];
      ghost var s, n := data[start..], pos - start;
      if n > 0 && s[n - 1] == LF {
        LineUnique(s, n);
      } else {
        assert forall x | x in s :: x != LF;
        LineWithoutNewline(s);
      }
    }

    method Read(n: nat) returns (chunk: bytes)
      requires Valid()
      modifies this
      ensures Valid()
      ensures chunk == if n <= |old(Remaining())| then old(Remaining())[..n] else old(Remaining())
      ensures Remaining() == old(Remaining())[|chunk|..]
    {
      var end := if pos + n <= |data| then pos + n else |data|;
      chunk := data[pos..end];
      pos := end;
    }
  }

  method ReadHeadersLoop(stream: ByteStream) returns (r: Option<Headers>)
    requires stream.Valid()
    modifies stream
    ensures stream.Valid()
    ensures var spec := ReadHeaders(old(stream.Remaining()), map[]);
            if spec.None? then r == None && stream.Remaining() == []
            else r == Some(spec.value.value) && stream.Remaining() == spec.value.rest
  {
    var headers: Headers := map[];
    while true
      invariant stream.Valid()
      invariant ReadHeaders(stream.Remaining(), headers) == ReadHeaders(old(stream.Remaining()), map[])
      decreases |stream.Remaining()|
    {
      var line := stream.ReadLine();
      if line == [] {
        return None;
      }
      if line == CRLF || line == NEWLINE {
        return Some(headers);
      }
      var colon := ColonAt(line);
      if colon < |line| {
        headers := headers[Lower(StripBy(Latin1Space, line[..colon])) :=
          StripBy(Latin1Space, line[colon + 1..])];
      }
    }
  }

  method ReadExactly(stream: ByteStream, length: nat) returns (r: Option<bytes>)
    requires stream.Valid()
    modifies stream
    ensures stream.Valid()
    ensures var spec := ReadExact(old(stream.Remaining()), length);
            if spec.None? then r == None && stream.Remaining() == []
            else r == Some(spec.value.value) && stream.Remaining() == spec.value.rest
  {
    var chunk := stream.Read(length);
    r := if |chunk| == length then Some(chunk) else None;
  }

  method ReadUntilBoundaryLoop(stream: ByteStream, boundary: bytes) returns (r: Option<bytes>)
    requires stream.Valid()
    modifies stream
    ensures stream.Valid()
    ensures var spec := ReadUntilBoundary(old(stream.Remaining()), boundary, []);
            if spec.None? then r == None
            else r == Some(spec.value.value) && stream.Remaining() == spec.value.rest
  {
    var chunks: seq<bytes> := [];
    var total := 0;
    while true
      invariant stream.Valid()
      invariant total == |Flatten(chunks)|
      invariant ReadUntilBoundary(stream.Remaining(), boundary, Flatten(chunks)) ==
                ReadUntilBoundary(old(stream.Remaining()), boundary, [])
      decreases |stream.Remaining()|
    {
      var line := stream.ReadLine();
      if line == [] {
        return None;
      }
      if boundary <= Strip(line) {
        var body := Flatten(chunks);
        return Some(TrimLineEnd(body));
      }
      FlattenSnoc(chunks, line);
      chunks := chunks + [line];
      total := total + |line|;
      if total > MAX_FRAME_BYTES {
        return None;
      }
    }
  }

  /** One part, from its headers to the end of its body. */
  method ReadPart(stream: ByteStream, boundary: bytes)
    returns (frame: Option<bytes>, atBoundary: bool, ending: Ending)
    requires stream.Valid()
    modifies stream
    ensures stream.Valid()
    ensures NextFrame(old(stream.Remaining()), boundary) ==
            if frame.None? then Stop(ending) else Yield(frame.value, stream.Remaining(), atBoundary)
  {
    frame, atBoundary, ending := None, false, Returned;
    var headers := ReadHeadersLoop(stream);
    if headers.None? {
      return;
    }
    var length := LengthText(headers.value);
    if IsDigit(length) {
      var n := IntOf(length);
      if n.None? {
        ending := ValueError;
        return;
      }
      if n.value > MAX_FRAME_BYTES {
        return;
      }
      frame := ReadExactly(stream, n.value);
    } else {
      frame := ReadUntilBoundaryLoop(stream, boundary);
      atBoundary := frame.Some?;
    }
  }

  /** What is yielded once `frames` have been: `goal` is all of it, `rest` what is still to come. */
  ghost predicate Leads(goal: Parse, frames: seq<bytes>, rest: Parse) {
    goal == Parse(frames + rest.frames, rest.ending)
  }

  lemma LeadsAfter(goal: Parse, frames: seq<bytes>, frame: bytes, rest: Parse)
    requires Leads(goal, frames, rest.After(frame))
    ensures Leads(goal, frames + [frame], rest)
  {
    assert frames + ([frame] + rest.frames) == (frames + [frame]) + rest.frames;
  }

  /** The generator, run until it stops; `frames` are its yields in order. */
  method IterMjpegFrames(stream: ByteStream) returns (frames: seq<bytes>, ending: Ending)
    requires stream.Valid()
    modifies stream
    ensures Parse(frames, ending) == Parsed(old(stream.Remaining()))
  {
    ghost var goal := Parsed(stream.Remaining());
    var boundary: Option<bytes> := None;
    var atBoundary := false;
    frames, ending := [], Returned;
    while true
      invariant stream.Valid()
      invariant atBoundary ==> boundary.Some?
      invariant ending == Returned
      invariant Leads(goal, frames, Frames(stream.Remaining(), boundary, atBoundary))
      decreases |stream.Remaining()|
    {
      if !atBoundary {
        LineStep(stream.Remaining(), boundary);
        var line := stream.ReadLine();
        if line == [] {
          return;
        }
        var stripped := Strip(line);
        if !(DASHES <= stripped) {
          continue;
        }
        boundary := Some(boundary.GetOr(stripped));
        if stripped == boundary.value + DASHES {
          return;
        }
      }
      assert Leads(goal, frames, Frames(stream.Remaining(), boundary, true));
      PartStep(stream.Remaining(), boundary.value);
      var frame;
      frame, atBoundary, ending := ReadPart(stream, boundary.value);
      if frame.None? {
        return;
      }
      LeadsAfter(goal, frames, frame.value, Frames(stream.Remaining(), boundary, atBoundary));
      frames := frames + [frame.value];
      ending := Returned;
    }
  }
}
