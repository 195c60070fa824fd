/**
 What the multipart parser guarantees: it never yields part of a frame, however the stream is cut;
 no frame exceeds the size cap; and it undoes the multipart form, in both body modes.
 */
module MjpegTheorems {
  import opened Sequences
  import opened Bytes
  import opened Mjpeg

  // ── no torn frames ───────────────────────────────────────────────────────────────────────

  /** A boundary as the parser holds it: a stripped line that starts with two dashes. */
  predicate IsBoundary(b: bytes) {
    DASHES <= b && !AsciiSpace(b[|b| - 1])
  }

  lemma {:induction false} ReadHeadersCut(p: bytes, more: bytes, headers: Headers)
    ensures var cut, whole := ReadHeaders(p, headers), ReadHeaders(p + more, headers);
            cut.Some? ==> whole == Some(Piece(cut.value.value, cut.value.rest + more))
    decreases |p|
  {
    if p == [] {
    } else if HasNewline(p) {
      LineOfConcat(p, more);
      ReadHeadersCut(AfterLine(p), more, AddHeader(headers, FirstLine(p)));
    } else {
      LineWithoutNewline(p);
      assert LF !in p;
    }
  }

  lemma {:induction false} ReadUntilBoundaryCut(p: bytes, more: bytes, b: bytes, body: bytes)
    requires IsBoundary(b)
    ensures var cut, whole := ReadUntilBoundary(p, b, body), ReadUntilBoundary(p + more, b, body);
            cut.Some? ==>
              && whole.Some? && whole.value.value == cut.value.value
              && (cut.value.rest == [] || whole.value.rest == cut.value.rest + more)
    decreases |p|
  {
    if p == [] {
    } else if HasNewline(p) {
      LineOfConcat(p, more);
      ReadUntilBoundaryCut(AfterLine(p), more, b, body + FirstLine(p));
    } else {
      LineWithoutNewline(p);
      if b <= Strip(p) {
        LineContinued(p, more, b);
      }
    }
  }

  /** A last line cut short that already shows the boundary still shows it when continued. */
  lemma LineContinued(p: bytes, more: bytes, b: bytes)
    requires !HasNewline(p) && p != [] && IsBoundary(b) && b <= Strip(p)
    ensures p + more != [] && b <= Strip(FirstLine(p + more))
  {
    var line := FirstLine(p + more);
    var n := |line|;
    LineShape(p + more);
    assert forall i | 0 <= i < |p| :: (p + more)[i] == p[i] != LF;
    assert line == p + line[|p|..];
    StripContinued(p, line[|p|..], b);
  }

  /** A cut stream finds the same next part, or finds one with nothing after its boundary line. */
  lemma {:induction false} FindPartCut(p: bytes, more: bytes, boundary: Option<bytes>)
    ensures var cut, whole := FindPart(p, boundary), FindPart(p + more, boundary);
            cut.Some? && cut.value.rest != [] ==>
              whole == Some(Piece(cut.value.value, cut.value.rest + more))
    decreases |p|
  {
    if p == [] {
    } else if HasNewline(p) {
      LineOfConcat(p, more);
      FindPartCut(AfterLine(p), more, boundary);
    } else {
      LineWithoutNewline(p);
    }
  }

  lemma {:induction false} FindPartBoundary(s: bytes, boundary: Option<bytes>)
    requires boundary.Some? ==> IsBoundary(boundary.value)
    ensures var r := FindPart(s, boundary); r.Some? ==> IsBoundary(r.value.value)
    decreases |s|
  {
    if s != [] {
      LStripShape(AsciiSpace, FirstLine(s));
      RStripShape(AsciiSpace, LStrip(AsciiSpace, FirstLine(s)));
      if !(DASHES <= Strip(FirstLine(s))) {
        FindPartBoundary(AfterLine(s), boundary);
      }
    }
  }

  /** A frame yielded from a cut stream is yielded whole from the full one, which then goes on. */
  lemma NextFrameCut(p: bytes, more: bytes, b: bytes)
    requires IsBoundary(b)
    ensures var cut, whole := NextFrame(p, b), NextFrame(p + more, b);
            cut.Yield? ==>
              && whole.Yield? && whole.frame == cut.frame && whole.atBoundary == cut.atBoundary
              && (whole.rest == cut.rest + more || (cut.rest == [] && cut.atBoundary))
  {
    ReadHeadersCut(p, more, map[]);
    var cut := ReadHeaders(p, map[]);
    if cut.Some? {
      var Piece(headers, rest) := cut.value;
      var length := LengthText(headers);
      if IsDigit(length) {
        var n := IntOf(length);
        if n.Some? && n.value <= |rest| {
          assert (rest + more)[..n.value] == rest[..n.value];
          assert (rest + more)[n.value..] == rest[n.value..] + more;
        }
      } else {
        ReadUntilBoundaryCut(rest, more, b, []);
      }
    }
  }

  lemma NothingLeft(b: bytes, boundary: Option<bytes>, atBoundary: bool)
    requires atBoundary ==> boundary.Some?
    ensures NextFrame([], b) == Stop(Returned)
    ensures Frames([], boundary, atBoundary) == Parse([], Returned)
  {
  }

  lemma {:induction false} FramesCut(p: bytes, more: bytes, boundary: Option<bytes>, atBoundary: bool)
    requires boundary.Some? ==> IsBoundary(boundary.value)
    requires atBoundary ==> boundary.Some?
    ensures Frames(p, boundary, atBoundary).frames <= Frames(p + more, boundary, atBoundary).frames
    decreases |p|
  {
    hide NextFrame, FindPart;
    FindPartCut(p, more, boundary);
    FindPartBoundary(p, boundary);
    var start := PartStart(p, boundary, atBoundary);
    if start.Some? && start.value.rest != [] {
      var Piece(b, q) := start.value;
      NextFrameCut(q, more, b);
      var next := NextFrame(q, b);
      if next.Yield? && next.rest != [] {
        FramesCut(next.rest, more, Some(b), next.atBoundary);
      } else if next.Yield? {
        NothingLeft(b, Some(b), next.atBoundary);
      }
    } else if start.Some? {
      NothingLeft(start.value.value, None, false);
    }
  }

  /** However a stream is cut short, the frames it yields are a prefix of those of the whole stream. */
  lemma {:induction false} NoTornFrames(s: bytes, k: nat)
    requires k <= |s|
    ensures Parsed(s[..k]).frames <= Parsed(s).frames
  {
    assert s == s[..k] + s[k..];
    FramesCut(s[..k], s[k..], None, false);
  }

  // ── the size cap ─────────────────────────────────────────────────────────────────────────

  lemma {:induction false} BodyFits(s: bytes, b: bytes, body: bytes)
    requires |body| <= MAX_FRAME_BYTES
    ensures var r := ReadUntilBoundary(s, b, body); r.Some? ==> |r.value.value| <= MAX_FRAME_BYTES
    decreases |s|
  {
    if s != [] && !(b <= Strip(FirstLine(s))) && |body| + |FirstLine(s)| <= MAX_FRAME_BYTES {
      BodyFits(AfterLine(s), b, body + FirstLine(s));
    }
  }

  ghost predicate AllFit(frames: seq<bytes>) {
    forall i | 0 <= i < |frames| :: |frames[i]| <= 8_000_000
  }

  lemma {:induction false} FramesFit(s: bytes, boundary: Option<bytes>, atBoundary: bool)
    requires atBoundary ==> boundary.Some?
    ensures AllFit(Frames(s, boundary, atBoundary).frames)
    decreases |s|
  {
    var start := PartStart(s, boundary, atBoundary);
    if start.Some? {
      var Piece(b, q) := start.value;
      NextFrameFits(q, b);
      var next := NextFrame(q, b);
      if next.Yield? {
        FramesFit(next.rest, Some(b), next.atBoundary);
      }
    }
  }

  lemma NextFrameFits(s: bytes, b: bytes)
    ensures var next := NextFrame(s, b); next.Yield? ==> |next.frame| <= MAX_FRAME_BYTES
  {
    var head := ReadHeaders(s, map[]);
    if head.Some? && !IsDigit(LengthText(head.value.value)) {
      BodyFits(head.value.rest, b, []);
    }
  }

  // ── the multipart form ───────────────────────────────────────────────────────────────────

  /** A part as a camera writes it: header lines, each with its line end, and a body. */
  datatype Part = Part(lines: seq<bytes>, body: bytes) {

    function HeadersOf(): Headers {
      FoldHeaders(map[], lines)
    }

    /** The parser takes the body by its declared length rather than by scanning for the boundary. */
    predicate HasLength() {
      IsDigit(LengthText(HeadersOf()))
    }

    /** Everything after the boundary line. */
    function Text(eol: bytes := CRLF): bytes {
      Flatten(lines) + eol + body + eol
    }

    /** What the parser makes of the body. The line end before a boundary is taken off a scanned body only when
        it is a full one; a bare newline stays, and a carriage return that happens to precede it goes too. */
    function Yielded(eol: bytes := CRLF): bytes {
      if HasLength() || eol == CRLF then body
      else if body != [] && Last(body) == CR then body[..|body| - 1]
      else body + NEWLINE
    }
  }

  function FoldHeaders(headers: Headers, lines: seq<bytes>): Headers
    decreases |lines|
  {
    if lines == [] then headers else FoldHeaders(AddHeader(headers, lines[0]), lines[1..])
  }

  predicate HeaderLine(line: bytes) {
    && line != [] && line[|line| - 1] == LF && LF !in line[..|line| - 1]
    && !BlankLine(line)
  }

  predicate HeaderLines(lines: seq<bytes>) {
    forall i | 0 <= i < |lines| :: HeaderLine(lines[i])
  }

  /** A boundary that fits on a line of its own. */
  predicate WritableBoundary(b: bytes) {
    IsBoundary(b) && LF !in b
  }

  /** A camera ends its lines in one of two ways. */
  predicate LineEnd(eol: bytes) {
    eol == [CR, LF] || eol == [LF]
  }

  function Delimiter(b: bytes, eol: bytes := CRLF): bytes {
    b + eol
  }

  function Closing(b: bytes, eol: bytes := CRLF): bytes {
    b + DASHES + eol
  }

  predicate NoBoundaryLine(s: bytes, b: bytes)
    decreases |s|
  {
    s == [] || (!(b <= Strip(FirstLine(s))) && NoBoundaryLine(AfterLine(s), b))
  }

  /** A body the parser can find by scanning: no line of it reads as the boundary, and it fits. */
  predicate Scannable(body: bytes, b: bytes, eol: bytes := CRLF) {
    NoBoundaryLine(body + eol, b) && |body| + |eol| <= MAX_FRAME_BYTES
  }

  predicate WellFormed(p: Part, b: bytes, eol: bytes := CRLF) {
    && HeaderLines(p.lines)
    && if p.HasLength() then
         IntOf(LengthText(p.HeadersOf())) == Some(|p.body|) && |p.body| <= MAX_FRAME_BYTES
       else Scannable(p.body, b, eol)
  }

  /** The parts in turn, each after its boundary line, and then `tail`. */
  function Encode(parts: seq<Part>, b: bytes, tail: bytes, eol: bytes := CRLF): bytes {
    if parts == [] then tail else Delimiter(b, eol) + (parts[0].Text(eol) + Encode(parts[1..], b, tail, eol))
  }

  function Bodies(parts: seq<Part>, eol: bytes := CRLF): seq<bytes> {
    seq(|parts|, i requires 0 <= i < |parts| => parts[i].Yielded(eol))
  }

  /** With full line ends the bodies come back as they are. */
  lemma BodiesAsTheyAre(parts: seq<Part>)
    ensures |Bodies(parts)| == |parts| && forall i | 0 <= i < |parts| :: Bodies(parts)[i] == parts[i].body
  {
  }

  /** A header reads the same whatever the case of its name and the blanks around name and value. */
  lemma HeaderRead(headers: Headers, before: bytes, key: bytes, mid: bytes, left: bytes, value: bytes, right: bytes,
                   lower: bytes)
    requires forall x | x in before + mid + left + right ::
               x == 32 || 9 <= x <= 13 || 28 <= x <= 31 || x == 0x85 || x == 0xA0
    requires key != [] && !Latin1Space(key[0]) && !Latin1Space(Last(key)) && COLON !in key
    requires value != [] && !Latin1Space(value[0]) && !Latin1Space(Last(value))
    requires |lower| == |key|
    requires forall i | 0 <= i < |key| ::
               var x := key[i];
               lower[i] == if 65 <= x <= 90 || 0xC0 <= x <= 0xD6 || 0xD8 <= x <= 0xDE then x + 32 else x
    ensures AddHeader(headers, before + key + mid + [COLON] + (left + value + right)) == headers[lower := value]
  {
    assert Lower(key) == lower;
    hide StripBy, ColonAt, Lower;
    var name, text := before + key + mid, left + value + right;
    var line := name + [COLON] + text;
    assert forall x | x in before :: x in before + mid + left + right;
    assert forall x | x in mid :: x in before + mid + left + right;
    assert forall x | x in left :: x in before + mid + left + right;
    assert forall x | x in right :: x in before + mid + left + right;
    assert COLON !in name;
    ColonOf(name, text);
    assert line[..|name|] == name && line[|name| + 1..] == text;
    StripPadded(Latin1Space, before, key, mid);
    StripPadded(Latin1Space, left, value, right);
  }

  /** A line without a colon sets nothing. */
  lemma NoColonSkipped(headers: Headers, line: bytes)
    requires COLON !in line
    ensures AddHeader(headers, line) == headers
  {
  }

  lemma {:induction false} HeadersRoundTrip(lines: seq<bytes>, rest: bytes, headers: Headers, eol: bytes := CRLF)
    requires HeaderLines(lines) && LineEnd(eol)
    ensures ReadHeaders(Flatten(lines) + eol + rest, headers) ==
            Some(Piece(FoldHeaders(headers, lines), rest))
    decreases |lines|
  {
    if lines == [] {
      assert Flatten(lines) + eol + rest == eol + rest;
      LineThenRest(eol, rest);
    } else {
      assert HeaderLine(lines[0]);
      var tail := Flatten(lines[1..]) + eol + rest;
      assert Flatten(lines) + eol + rest == lines[0] + tail;
      LineThenRest(lines[0], tail);
      HeadersRoundTrip(lines[1..], rest, AddHeader(headers, lines[0]), eol);
    }
  }

  /** A length made of digit characters ends the parse with an error exactly when it is no number: one of them
      is a superscript, or there are too many. */
  lemma UnreadableLengthRaises(lines: seq<bytes>, rest: bytes, b: bytes)
    requires HeaderLines(lines)
    requires var text := LengthText(FoldHeaders(map[], lines));
             text != [] && (forall x | x in text :: 48 <= x <= 57 || x == 0xB2 || x == 0xB3 || x == 0xB9)
    ensures var text := LengthText(FoldHeaders(map[], lines));
            NextFrame(Flatten(lines) + CRLF + rest, b) == Stop(ValueError) <==>
            (exists x :: x in text && x > 57) || |text| > 4300
  {
    HeadersRoundTrip(lines, rest, map[]);
  }

  /** What a boundary line, plain or closing, strips to. */
  lemma BoundaryLines(b: bytes, rest: bytes, eol: bytes := CRLF)
    requires WritableBoundary(b) && LineEnd(eol)
    ensures FirstLine(Delimiter(b, eol) + rest) == Delimiter(b, eol) && AfterLine(Delimiter(b, eol) + rest) == rest
    ensures FirstLine(Closing(b, eol) + rest) == Closing(b, eol) && AfterLine(Closing(b, eol) + rest) == rest
    ensures Strip(Delimiter(b, eol)) == b && Strip(Closing(b, eol)) == b + DASHES
    ensures DASHES <= b + DASHES
  {
    LineThenRest(Delimiter(b, eol), rest);
    LineThenRest(Closing(b, eol), rest);
    assert b[0] == DASH;
    StripPadded(AsciiSpace, [], b, eol);
    StripPadded(AsciiSpace, [], b + DASHES, eol);
    assert [] + b + eol == Delimiter(b, eol);
    assert [] + (b + DASHES) + eol == Closing(b, eol);
  }

  /** Lines that do not read as the boundary are gathered, up to the cap. */
  lemma {:induction false} ScanLines(t: bytes, rest: bytes, b: bytes, body: bytes)
    requires t == [] || t[|t| - 1] == LF
    requires NoBoundaryLine(t, b) && |body| + |t| <= MAX_FRAME_BYTES
    ensures ReadUntilBoundary(t + rest, b, body) == ReadUntilBoundary(rest, b, body + t)
    decreases |t|
  {
    hide Strip, LineLength;
    if t == [] {
      assert t + rest == rest && body + t == body;
    } else {
      assert HasNewline(t);
      LineOfConcat(t, rest);
      var line, tail := FirstLine(t), AfterLine(t);
      assert t == line + tail;
      assert tail != [] ==> tail[|tail| - 1] == LF;
      ScanLines(tail, rest, b, body + line);
      assert (body + line) + tail == body + t;
      assert (t + rest) != [];
    }
  }

  /** `line` is what follows the body: a delimiter or the closing line. */
  lemma ScannedBody(body: bytes, b: bytes, line: bytes, rest: bytes, eol: bytes := CRLF)
    requires WritableBoundary(b) && LineEnd(eol) && Scannable(body, b, eol)
    requires line == Delimiter(b, eol) || line == Closing(b, eol)
    ensures ReadUntilBoundary(body + eol + line + rest, b, []) == Some(Piece(TrimLineEnd(body + eol), rest))
  {
    assert body + eol + line + rest == (body + eol) + (line + rest);
    ScanLines(body + eol, line + rest, b, []);
    BoundaryLines(b, rest, eol);
    assert b <= b + DASHES;
    assert [] + (body + eol) == body + eol;
  }

  lemma Trimmed(body: bytes, eol: bytes)
    requires LineEnd(eol)
    ensures TrimLineEnd(body + eol) ==
            if eol == CRLF then body
            else if body != [] && Last(body) == CR then body[..|body| - 1]
            else body + NEWLINE
  {
    var text := body + eol;
    if eol == CRLF {
      assert text[|text| - 2..] == CRLF && text[..|text| - 2] == body;
    } else if body != [] {
      assert text[|text| - 2..] == [Last(body), LF];
      assert text[..|text| - 2] == body[..|body| - 1];
    }
  }

  /** What is yielded after the last part: the closing line ends the parse only when it was
      not already consumed as the end of a scanned body. */
  function AfterLast(last: Part, b: bytes, epilogue: bytes): Parse {
    if last.HasLength() then Parse([], Returned) else Frames(epilogue, Some(b), true)
  }

  lemma PartHeaders(p: Part, after: bytes, eol: bytes := CRLF)
    requires HeaderLines(p.lines) && LineEnd(eol)
    ensures ReadHeaders(p.Text(eol) + after, map[]) == Some(Piece(p.HeadersOf(), p.body + eol + after))
  {
    Regroup(Flatten(p.lines) + eol, p.body, eol, after);
    HeadersRoundTrip(p.lines, p.body + eol + after, map[], eol);
  }

  lemma PartRead(p: Part, b: bytes, line: bytes, rest: bytes, eol: bytes := CRLF)
    requires WritableBoundary(b) && LineEnd(eol) && WellFormed(p, b, eol)
    requires line == Delimiter(b, eol) || line == Closing(b, eol)
    ensures NextFrame(p.Text(eol) + (line + rest), b) ==
            if p.HasLength() then Yield(p.body, eol + (line + rest), false) else Yield(p.Yielded(eol), rest, true)
  {
    hide ReadHeaders, ReadUntilBoundary, FoldHeaders, LengthText, IsDigit, IntOf, HeaderLines, Scannable, TrimLineEnd,
      Part.Text;
    PartHeaders(p, line + rest, eol);
    var after := p.body + eol + (line + rest);
    if p.HasLength() {
      assert ReadExact(after, |p.body|) == Some(Piece(p.body, eol + (line + rest))) by {
        assert after == p.body + (eol + (line + rest));
      }
    } else {
      Regroup(p.body, eol, line, rest);
      ScannedBody(p.body, b, line, rest, eol);
      Trimmed(p.body, eol);
    }
  }

  /** The line end after a body of declared length is skipped. */
  lemma SkipLineEnd(s: bytes, b: bytes, eol: bytes := CRLF)
    requires LineEnd(eol)
    ensures Frames(eol + s, Some(b), false) == Frames(s, Some(b), false)
  {
    LineThenRest(eol, s);
    assert LStrip(AsciiSpace, eol[1..]) == [];
    LineStep(eol + s, Some(b));
  }

  /** From the headers of a part to where the next part, or the end, is looked for. */
  lemma PartThenLine(p: Part, b: bytes, line: bytes, rest: bytes, eol: bytes := CRLF)
    requires WritableBoundary(b) && LineEnd(eol) && WellFormed(p, b, eol)
    requires line == Delimiter(b, eol) || line == Closing(b, eol)
    ensures Frames(p.Text(eol) + (line + rest), Some(b), true) ==
            (if p.HasLength() then Frames(line + rest, Some(b), false)
             else Frames(rest, Some(b), true)).After(p.Yielded(eol))
  {
    PartStep(p.Text(eol) + (line + rest), b);
    PartRead(p, b, line, rest, eol);
    SkipLineEnd(line + rest, b, eol);
  }

  lemma LineFrames(b: bytes, rest: bytes, eol: bytes := CRLF)
    requires WritableBoundary(b) && LineEnd(eol)
    ensures Frames(Delimiter(b, eol) + rest, Some(b), false) == Frames(rest, Some(b), true)
    ensures Frames(Delimiter(b, eol) + rest, None, false) == Frames(rest, Some(b), true)
    ensures Frames(Closing(b, eol) + rest, Some(b), false) == Parse([], Returned)
  {
    BoundaryLines(b, rest, eol);
    LineStep(Delimiter(b, eol) + rest, Some(b));
    LineStep(Delimiter(b, eol) + rest, None);
    LineStep(Closing(b, eol) + rest, Some(b));
  }

  /** A boundary line may be padded with blanks on either side. */
  lemma PaddedBoundary(left: bytes, b: bytes, right: bytes, rest: bytes, boundary: Option<bytes>)
    requires WritableBoundary(b) && (boundary.Some? ==> boundary.value + DASHES != b)
    requires forall x | x in left + right :: x == 32 || x == 9 || x == 11 || x == 12 || x == 13
    ensures Frames(left + b + right + NEWLINE + rest, boundary, false) ==
            Frames(rest, Some(boundary.GetOr(b)), true)
  {
    hide Frames, Strip, StripBy;
    var line := left + b + (right + NEWLINE);
    assert forall x | x in left :: x in left + right;
    assert forall x | x in right :: x in left + right;
    assert left + b + right + NEWLINE + rest == line + rest;
    assert line[..|line| - 1] == left + b + right;
    LineThenRest(line, rest);
    assert b[0] == DASH;
    assert Strip(line) == b by { StripOfPadded(left, b, right + NEWLINE); }
    LineStep(line + rest, boundary);
  }

  lemma StripOfPadded(left: bytes, b: bytes, right: bytes)
    requires b != [] && !AsciiSpace(b[0]) && !AsciiSpace(b[|b| - 1])
    requires forall x | x in left :: AsciiSpace(x)
    requires forall x | x in right :: AsciiSpace(x)
    ensures Strip(left + b + right) == b
  {
    StripPadded(AsciiSpace, left, b, right);
  }

  /** The parts from the headers of the first one on. */
  lemma {:induction false} PartsRoundTrip(parts: seq<Part>, b: bytes, epilogue: bytes, eol: bytes := CRLF)
    requires parts != [] && WritableBoundary(b) && LineEnd(eol)
    requires forall i | 0 <= i < |parts| :: WellFormed(parts[i], b, eol)
    ensures var after := AfterLast(Last(parts), b, epilogue);
            Frames(parts[0].Text(eol) + Encode(parts[1..], b, Closing(b, eol) + epilogue, eol), Some(b), true) ==
            Parse(Bodies(parts, eol) + after.frames, after.ending)
    decreases |parts|
  {
    hide Frames, AfterLast, WellFormed, Part.Yielded;
    var p, others := parts[0], parts[1..];
    var body := p.Yielded(eol);
    if others == [] {
      PartThenClosing(p, b, epilogue, eol);
      assert Bodies(parts, eol) == [body];
    } else {
      var rest := others[0].Text(eol) + Encode(others[1..], b, Closing(b, eol) + epilogue, eol);
      PartThenDelimiter(p, b, rest, eol);
      PartsRoundTrip(others, b, epilogue, eol);
      LastOfTail(parts);
      var after := AfterLast(Last(parts), b, epilogue);
      assert Bodies(parts, eol) == [body] + Bodies(others, eol);
      assert [body] + (Bodies(others, eol) + after.frames) == Bodies(parts, eol) + after.frames;
    }
  }

  lemma PartThenClosing(p: Part, b: bytes, epilogue: bytes, eol: bytes := CRLF)
    requires WritableBoundary(b) && LineEnd(eol) && WellFormed(p, b, eol)
    ensures Frames(p.Text(eol) + (Closing(b, eol) + epilogue), Some(b), true) ==
            AfterLast(p, b, epilogue).After(p.Yielded(eol))
  {
    PartThenLine(p, b, Closing(b, eol), epilogue, eol);
    LineFrames(b, epilogue, eol);
  }

  lemma PartThenDelimiter(p: Part, b: bytes, rest: bytes, eol: bytes := CRLF)
    requires WritableBoundary(b) && LineEnd(eol) && WellFormed(p, b, eol)
    ensures Frames(p.Text(eol) + (Delimiter(b, eol) + rest), Some(b), true) ==
            Frames(rest, Some(b), true).After(p.Yielded(eol))
  {
    PartThenLine(p, b, Delimiter(b, eol), rest, eol);
    LineFrames(b, rest, eol);
  }

  /** The parser returns exactly the bodies, whichever mode each part is in, and then whatever the
      text after the closing line yields when that line was consumed as the end of the last body. */
  lemma {:induction false} MixedRoundTrip(parts: seq<Part>, b: bytes, epilogue: bytes, eol: bytes := CRLF)
    requires parts != [] && WritableBoundary(b) && LineEnd(eol)
    requires forall i | 0 <= i < |parts| :: WellFormed(parts[i], b, eol)
    ensures var after := AfterLast(Last(parts), b, epilogue);
            Parsed(Encode(parts, b, Closing(b, eol) + epilogue, eol)) ==
            Parse(Bodies(parts, eol) + after.frames, after.ending)
  {
    LineFrames(b, parts[0].Text(eol) + Encode(parts[1..], b, Closing(b, eol) + epilogue, eol), eol);
    PartsRoundTrip(parts, b, epilogue, eol);
  }

  /** A stream that ends with its closing line gives back its bodies and nothing else, whichever of the two line
      ends the camera uses; but for the line end itself, which a scanned body keeps when it is a bare one. */
  lemma {:induction false} RoundTrip(parts: seq<Part>, b: bytes, eol: bytes := CRLF)
    requires WritableBoundary(b) && LineEnd(eol)
    requires forall i | 0 <= i < |parts| :: WellFormed(parts[i], b, eol)
    ensures Parsed(Encode(parts, b, Closing(b, eol), eol)) == Parse(Bodies(parts, eol), Returned)
  {
    assert Closing(b, eol) + [] == Closing(b, eol);
    if parts == [] {
      BoundaryLines(b, [], eol);
      LineStep(Closing(b, eol), None);
      PartStep([], b + DASHES);
    } else {
      MixedRoundTrip(parts, b, [], eol);
      PartStep([], b);
      assert Bodies(parts, eol) + [] == Bodies(parts, eol);
    }
  }

  // ── what the round trip needs, exactly ───────────────────────────────────────────────────

  /** A line that shows the boundary is longer than a bare line end. */
  lemma BoundaryLineLength(line: bytes, b: bytes)
    requires line != [] && Last(line) == LF
    requires IsBoundary(b) && b <= Strip(line)
    ensures |line| > 2
  {
    LStripShape(AsciiSpace, line);
    RStripShape(AsciiSpace, LStrip(AsciiSpace, line));
  }

  /** A boundary line inside the text ends the body there, short of the whole. */
  lemma {:induction false} ScanStops(t: bytes, rest: bytes, b: bytes, body: bytes)
    requires IsBoundary(b)
    requires t != [] && Last(t) == LF
    requires !NoBoundaryLine(t, b)
    ensures var r := ReadUntilBoundary(t + rest, b, body);
            r.Some? ==> |r.value.value| < |body| + |t| - 2
    decreases |t|
  {
    hide Strip;
    assert HasNewline(t);
    LineOfConcat(t, rest);
    LineOfConcat(t, []);
    var line, tail := FirstLine(t), AfterLine(t);
    assert t == line + tail;
    if b <= Strip(line) {
      BoundaryLineLength(line, b);
    } else {
      assert Last(tail) == Last(t);
      ScanStops(tail, rest, b, body + line);
    }
  }

  /** A body over the cap is given up. */
  lemma {:induction false} ScanOverflows(t: bytes, rest: bytes, b: bytes, body: bytes)
    requires t == [] || Last(t) == LF
    requires NoBoundaryLine(t, b)
    requires |body| <= MAX_FRAME_BYTES < |body| + |t|
    ensures ReadUntilBoundary(t + rest, b, body) == None
    decreases |t|
  {
    hide Strip;
    assert HasNewline(t);
    LineOfConcat(t, rest);
    var line, tail := FirstLine(t), AfterLine(t);
    assert t == line + tail;
    if |body| + |line| <= MAX_FRAME_BYTES {
      assert tail != [] ==> Last(tail) == Last(t);
      ScanOverflows(tail, rest, b, body + line);
    }
  }

  /** A body without a declared length comes back exactly when no line of it reads as the boundary
      and it fits the cap together with its line end. */
  lemma ScannedExactly(body: bytes, b: bytes, rest: bytes)
    requires WritableBoundary(b)
    ensures ReadUntilBoundary(body + CRLF + Delimiter(b) + rest, b, []) == Some(Piece(body, rest))
            <==> Scannable(body, b)
  {
    hide ReadUntilBoundary, NoBoundaryLine;
    var t := body + CRLF;
    assert body + CRLF + Delimiter(b) + rest == t + (Delimiter(b) + rest);
    if !NoBoundaryLine(t, b) {
      ScanStops(t, Delimiter(b) + rest, b, []);
    } else if |body| + 2 > MAX_FRAME_BYTES {
      ScanOverflows(t, Delimiter(b) + rest, b, []);
    } else {
      ScannedBody(body, b, Delimiter(b), rest);
    }
  }

  lemma EmptyBodyScans(b: bytes)
    requires IsBoundary(b)
    ensures WellFormed(Part([], []), b)
  {
    LineThenRest(CRLF, []);
    assert [] + CRLF == CRLF == CRLF + [];
    assert LStrip(AsciiSpace, CRLF[1..]) == [];
    assert Strip(CRLF) == [];
  }

  /** Text after the closing line is ignored, whatever it is, exactly when the last part declared
      its length: a closing line that ended a scanned body is taken for one more boundary. */
  lemma {:induction false} EpilogueIgnoredExactly(parts: seq<Part>, b: bytes)
    requires parts != [] && WritableBoundary(b)
    requires forall i | 0 <= i < |parts| :: WellFormed(parts[i], b)
    ensures (forall epilogue: bytes ::
               Parsed(Encode(parts, b, Closing(b) + epilogue)) == Parse(Bodies(parts), Returned))
            <==> Last(parts).HasLength()
  {
    hide Frames, WellFormed, Part.HasLength, Encode;
    if Last(parts).HasLength() {
      forall epilogue: bytes
        ensures Parsed(Encode(parts, b, Closing(b) + epilogue)) == Parse(Bodies(parts), Returned)
      {
        MixedRoundTrip(parts, b, epilogue);
        assert Bodies(parts) + [] == Bodies(parts);
      }
    } else {
      var extra := Part([], []);
      var epilogue := extra.Text() + (Delimiter(b) + []);
      MixedRoundTrip(parts, b, epilogue);
      EmptyBodyScans(b);
      PartThenDelimiter(extra, b, []);
      assert |Parsed(Encode(parts, b, Closing(b) + epilogue)).frames| > |Bodies(parts)|;
    }
  }
}
