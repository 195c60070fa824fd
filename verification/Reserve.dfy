/**
 The camera re-server: the parts it writes, and the relay from the camera's stream through the
 newest-frame cell to any number of clients.
 */
module Reserve {
  import opened Sequences
  import opened Bytes
  import opened Mjpeg
  import opened MjpegTheorems

  // ── the part encoder ─────────────────────────────────────────────────────────────────────

  /** `flashforgeobico` */
  const BOUNDARY: bytes := [102, 108, 97, 115, 104, 102, 111, 114, 103, 101, 111, 98, 105, 99, 111]

  /** `Content-Type: image/jpeg` and its line end */
  const CONTENT_TYPE_LINE: bytes :=
    [67, 111, 110, 116, 101, 110, 116, 45, 84, 121, 112, 101, 58, 32,
     105, 109, 97, 103, 101, 47, 106, 112, 101, 103, 13, 10]

  /** `Content-Length` */
  const CONTENT_LENGTH_NAME: bytes := [67, 111, 110, 116, 101, 110, 116, 45, 76, 101, 110, 103, 116, 104]

  const SPACE: bytes := [32]

  function ContentLengthLine(n: nat): bytes {
    CONTENT_LENGTH_NAME + [COLON] + (SPACE + Decimal(n) + CRLF)
  }

  /** The bytes written to a client for one frame. */
  function WritePart(jpeg: bytes): bytes {
    DASHES + BOUNDARY + CRLF + CONTENT_TYPE_LINE + ContentLengthLine(|jpeg|) + CRLF + jpeg + CRLF
  }

  function WriteParts(jpegs: seq<bytes>): bytes {
    if jpegs == [] then [] else WritePart(jpegs[0]) + WriteParts(jpegs[1..])
  }

  /** The longest run of leading frames that the parser's cap lets through. */
  function Fitting(jpegs: seq<bytes>): seq<bytes> {
    if jpegs == [] || |jpegs[0]| > MAX_FRAME_BYTES then [] else [jpegs[0]] + Fitting(jpegs[1..])
  }

  function ServedPart(jpeg: bytes): Part {
    Part([CONTENT_TYPE_LINE, ContentLengthLine(|jpeg|)], jpeg)
  }

  const SERVED_BOUNDARY: bytes := DASHES + BOUNDARY

  lemma WritePartIsPart(jpeg: bytes)
    ensures WritePart(jpeg) == Delimiter(SERVED_BOUNDARY) + ServedPart(jpeg).Text()
  {
    hide ContentLengthLine;
    var line := ContentLengthLine(|jpeg|);
    assert [CONTENT_TYPE_LINE, line][1..] == [line];
    assert Flatten([line]) == line + [];
    assert Flatten([CONTENT_TYPE_LINE, line]) == CONTENT_TYPE_LINE + line;
  }

  lemma ServedBoundary()
    ensures WritableBoundary(SERVED_BOUNDARY)
  {
  }

  lemma ContentTypeIsHeader()
    ensures HeaderLine(CONTENT_TYPE_LINE)
  {
    assert CONTENT_TYPE_LINE[25] == LF;
    assert forall i | 0 <= i < 25 :: CONTENT_TYPE_LINE[i] != LF;
  }

  lemma ContentLengthIsHeader(n: nat)
    ensures HeaderLine(ContentLengthLine(n))
  {
    var line := ContentLengthLine(n);
    assert LF !in Decimal(n);
    assert line == (CONTENT_LENGTH_NAME + [COLON] + SPACE + Decimal(n) + [CR]) + [LF];
    assert line[..|line| - 1] == CONTENT_LENGTH_NAME + [COLON] + SPACE + Decimal(n) + [CR];
  }

  /** Reading the length line back gives the number that was written. */
  lemma ContentLengthRead(n: nat, headers: Headers)
    ensures LengthText(AddHeader(headers, ContentLengthLine(n))) == Decimal(n)
  {
    hide StripBy, LStrip, RStrip, ColonAt, Decimal;
    var value := SPACE + Decimal(n) + CRLF;
    ColonOf(CONTENT_LENGTH_NAME, value);
    var line := ContentLengthLine(n);
    assert line[..14] == CONTENT_LENGTH_NAME && line[15..] == value;
    assert StripBy(Latin1Space, CONTENT_LENGTH_NAME) == CONTENT_LENGTH_NAME by {
      StripPadded(Latin1Space, [], CONTENT_LENGTH_NAME, []);
      assert [] + CONTENT_LENGTH_NAME + [] == CONTENT_LENGTH_NAME;
    }
    assert Lower(CONTENT_LENGTH_NAME) == CONTENT_LENGTH;
    assert AsciiDigit(Decimal(n)[0]) && AsciiDigit(Last(Decimal(n)));
    StripPadded(Latin1Space, SPACE, Decimal(n), CRLF);
  }

  lemma DigitsOfFrameLength(n: nat)
    requires n <= MAX_FRAME_BYTES
    ensures IntOf(Decimal(n)) == Some(n)
  {
    DecimalRoundTrip(n);
    assert PowerOfTen(3) == 1000;
    assert PowerOfTen(7) == 10000 * PowerOfTen(3);
    DecimalLength(n, 7);
  }

  lemma TwoHeaderLines(first: bytes, second: bytes)
    requires HeaderLine(first) && HeaderLine(second)
    ensures HeaderLines([first, second])
  {
    hide HeaderLine;
  }

  lemma FoldTwo(headers: Headers, first: bytes, second: bytes)
    ensures FoldHeaders(headers, [first, second]) == AddHeader(AddHeader(headers, first), second)
  {
    hide AddHeader;
    var one := AddHeader(headers, first);
    assert [first, second][1..] == [second];
    assert FoldHeaders(headers, [first, second]) == FoldHeaders(one, [second]);
    assert [second][1..] == [];
    assert FoldHeaders(one, [second]) == FoldHeaders(AddHeader(one, second), []);
  }

  lemma ServedPartHeaders(jpeg: bytes)
    ensures HeaderLines(ServedPart(jpeg).lines)
    ensures LengthText(ServedPart(jpeg).HeadersOf()) == Decimal(|jpeg|)
    ensures ServedPart(jpeg).HasLength()
  {
    hide ContentLengthLine, AddHeader, HeaderLines, HeaderLine, LengthText, FoldHeaders;
    ContentTypeIsHeader();
    ContentLengthIsHeader(|jpeg|);
    TwoHeaderLines(CONTENT_TYPE_LINE, ContentLengthLine(|jpeg|));
    FoldTwo(map[], CONTENT_TYPE_LINE, ContentLengthLine(|jpeg|));
    ContentLengthRead(|jpeg|, AddHeader(map[], CONTENT_TYPE_LINE));
    assert IsDigit(Decimal(|jpeg|));
  }

  /** `Content-Type` and `content-type`, `image/jpeg` */
  const CONTENT_TYPE_NAME: bytes := [67, 111, 110, 116, 101, 110, 116, 45, 84, 121, 112, 101]
  const CONTENT_TYPE: bytes := [99, 111, 110, 116, 101, 110, 116, 45, 116, 121, 112, 101]
  const IMAGE_JPEG: bytes := [105, 109, 97, 103, 101, 47, 106, 112, 101, 103]

  /** A served part says what it is and how long it is, and nothing else. */
  lemma ServedPartSays(jpeg: bytes)
    ensures ServedPart(jpeg).HeadersOf() == map[CONTENT_TYPE := IMAGE_JPEG, CONTENT_LENGTH := Decimal(|jpeg|)]
  {
    hide ContentLengthLine, AddHeader, FoldHeaders, Decimal;
    FoldTwo(map[], CONTENT_TYPE_LINE, ContentLengthLine(|jpeg|));
    TypeHeader();
    LengthHeader(|jpeg|, map[CONTENT_TYPE := IMAGE_JPEG]);
  }

  lemma TypeHeader()
    ensures AddHeader(map[], CONTENT_TYPE_LINE) == map[CONTENT_TYPE := IMAGE_JPEG]
  {
    hide AddHeader;
    HeaderRead(map[], [], CONTENT_TYPE_NAME, [], SPACE, IMAGE_JPEG, CRLF, CONTENT_TYPE);
    assert [] + CONTENT_TYPE_NAME + [] + [COLON] + (SPACE + IMAGE_JPEG + CRLF) == CONTENT_TYPE_LINE;
  }

  lemma LengthHeader(n: nat, headers: Headers)
    ensures AddHeader(headers, ContentLengthLine(n)) == headers[CONTENT_LENGTH := Decimal(n)]
  {
    hide AddHeader, Decimal;
    assert AsciiDigit(Decimal(n)[0]) && AsciiDigit(Last(Decimal(n)));
    HeaderRead(headers, [], CONTENT_LENGTH_NAME, [], SPACE, Decimal(n), CRLF, CONTENT_LENGTH);
    assert [] + CONTENT_LENGTH_NAME + [] + [COLON] + (SPACE + Decimal(n) + CRLF) == ContentLengthLine(n);
  }

  /** One served part, read back: the frame itself, or the end of the parse when it is over the cap. */
  lemma ServedPartRead(jpeg: bytes, rest: bytes, b: bytes)
    ensures var next := NextFrame(ServedPart(jpeg).Text() + rest, b);
            if |jpeg| <= MAX_FRAME_BYTES then next == Yield(jpeg, CRLF + rest, false) else next.Stop?
  {
    hide ContentLengthLine, HeaderLines, LengthText, ReadHeaders, ReadUntilBoundary, FoldHeaders;
    var p := ServedPart(jpeg);
    ServedPartHeaders(jpeg);
    PartHeaders(p, rest);
    var after := jpeg + CRLF + rest;
    if |jpeg| <= MAX_FRAME_BYTES {
      DigitsOfFrameLength(|jpeg|);
      assert after == jpeg + (CRLF + rest);
      assert ReadExact(after, |jpeg|) == Some(Piece(jpeg, CRLF + rest));
    } else {
      DecimalRoundTrip(|jpeg|);
    }
  }

  lemma ServedFrames(jpeg: bytes, rest: bytes, boundary: Option<bytes>)
    requires boundary.GetOr(SERVED_BOUNDARY) == SERVED_BOUNDARY
    ensures Frames(WritePart(jpeg) + rest, boundary, false).frames ==
            if |jpeg| <= MAX_FRAME_BYTES then [jpeg] + Frames(rest, Some(SERVED_BOUNDARY), false).frames
            else []
  {
    hide Frames, WritePart, ServedPart, NextFrame;
    var b := SERVED_BOUNDARY;
    var text := ServedPart(jpeg).Text() + rest;
    WritePartIsPart(jpeg);
    assert WritePart(jpeg) + rest == Delimiter(b) + text by {
      Regroup(Delimiter(b), ServedPart(jpeg).Text(), rest, []);
      assert WritePart(jpeg) + rest == Delimiter(b) + ServedPart(jpeg).Text() + rest;
      assert Delimiter(b) + ServedPart(jpeg).Text() + rest == Delimiter(b) + (ServedPart(jpeg).Text() + rest);
    }
    ServedBoundary();
    LineFrames(b, text);
    PartStep(text, b);
    ServedPartRead(jpeg, rest, b);
    SkipLineEnd(rest, b);
  }

  /** The parser undoes the part encoder, up to the first frame over its cap. */
  lemma {:induction false} ServedPrefix(jpegs: seq<bytes>, boundary: Option<bytes>)
    requires boundary.GetOr(SERVED_BOUNDARY) == SERVED_BOUNDARY
    ensures Frames(WriteParts(jpegs), boundary, false).frames == Fitting(jpegs)
    decreases |jpegs|
  {
    hide WritePart;
    if jpegs == [] {
      LineStep([], boundary);
    } else {
      hide Frames;
      ServedFrames(jpegs[0], WriteParts(jpegs[1..]), boundary);
      ServedPrefix(jpegs[1..], Some(SERVED_BOUNDARY));
    }
  }

  lemma {:induction false} FittingIsAll(jpegs: seq<bytes>)
    ensures Fitting(jpegs) <= jpegs
    ensures Fitting(jpegs) == jpegs <==> AllFit(jpegs)
  {
    if jpegs != [] && |jpegs[0]| <= MAX_FRAME_BYTES {
      FittingIsAll(jpegs[1..]);
      assert jpegs == [jpegs[0]] + jpegs[1..];
      if AllFit(jpegs[1..]) {
        assert forall i | 1 <= i < |jpegs| :: jpegs[i] == jpegs[1..][i - 1];
      }
    }
  }

  /** What a client parses is the list of frames written to it, of any content whatever, exactly
      when each of them is within the parser's cap. */
  lemma {:induction false} ServedRoundTrip(jpegs: seq<bytes>)
    ensures Parsed(WriteParts(jpegs)).frames == jpegs <==> AllFit(jpegs)
  {
    ServedPrefix(jpegs, None);
    FittingIsAll(jpegs);
  }

  lemma {:induction false} WritePartsSnoc(jpegs: seq<bytes>, jpeg: bytes)
    ensures WriteParts(jpegs + [jpeg]) == WriteParts(jpegs) + WritePart(jpeg)
  {
    hide WritePart;
    if jpegs == [] {
      assert [jpeg][1..] == [];
      assert jpegs + [jpeg] == [jpeg];
    } else {
      assert (jpegs + [jpeg])[1..] == jpegs[1..] + [jpeg];
      WritePartsSnoc(jpegs[1..], jpeg);
      Regroup(WritePart(jpegs[0]), WriteParts(jpegs[1..]), WritePart(jpeg), []);
    }
  }
}
