/**
 Bytes, lines and the text operations the multipart parser leans on: `strip`, `lower`, `partition`
 and the decimal form of a number, over bytes and over text decoded as latin-1.
 */
module Bytes {
  import opened Sequences

  newtype byte = x: int | 0 <= x < 256
  type bytes = seq<byte>

  const LF: byte := 10
  const CR: byte := 13
  const DASH: byte := 45
  const COLON: byte := 58
  const NEWLINE: bytes := [LF]
  const CRLF: bytes := [CR, LF]
  const DASHES: bytes := [DASH, DASH]

  // ── lines ────────────────────────────────────────────────────────────────────────────────

  predicate HasNewline(s: bytes) {
    LF in s
  }

  /** What `readline` would return: up to and including the first newline, or everything. */
  function LineLength(s: bytes): (n: nat)
    ensures n <= |s|
    ensures s != [] ==> n > 0
  {
    if s == [] then 0
    else if s[0] == LF then 1
    else 1 + LineLength(s[1..])
  }

  /** A line holds no newline but the one it ends in, and lacks that one only at the end of the stream. */
  lemma {:induction false} LineShape(s: bytes)
    requires s != []
    ensures LF !in s[..LineLength(s) - 1]
    ensures if LF in s then s[LineLength(s) - 1] == LF else LineLength(s) == |s|
  {
    if s[0] != LF && s[1..] != [] {
      LineShape(s[1..]);
      assert s[..LineLength(s) - 1] == [s[0]] + s[1..][..LineLength(s[1..]) - 1];
    }
  }

  function FirstLine(s: bytes): bytes {
    s[..LineLength(s)]
  }

  function AfterLine(s: bytes): bytes {
    s[LineLength(s)..]
  }

  lemma {:induction false} LineUnique(s: bytes, n: nat)
    requires 0 < n <= |s|
    requires s[n - 1] == LF
    requires LF !in s[..n - 1]
    ensures LineLength(s) == n
  {
    if n == 1 {
    } else {
      assert s[0] == s[..n - 1][0];
      assert s[1..][..n - 2] == s[..n - 1][1..];
      LineUnique(s[1..], n - 1);
    }
  }

  /** A line that ends in a newline is read back whole, whatever follows it. */
  lemma LineThenRest(line: bytes, rest: bytes)
    requires line != [] && line[|line| - 1] == LF && LF !in line[..|line| - 1]
    ensures FirstLine(line + rest) == line
    ensures AfterLine(line + rest) == rest
  {
    assert (line + rest)[..|line| - 1] == line[..|line| - 1];
    LineUnique(line + rest, |line|);
  }

  /** Reading a line off text that holds a newline does not look past that newline. */
  lemma LineOfConcat(s: bytes, rest: bytes)
    requires HasNewline(s)
    ensures FirstLine(s + rest) == FirstLine(s)
    ensures AfterLine(s + rest) == AfterLine(s) + rest
    ensures FirstLine(s) != [] && FirstLine(s)[|FirstLine(s)| - 1] == LF
  {
    var n := LineLength(s);
    LineShape(s);
    assert (s + rest)[..n - 1] == s[..n - 1];
    LineUnique(s + rest, n);
    assert (s + rest)[n..] == s[n..] + rest;
  }

  lemma LineWithoutNewline(s: bytes)
    requires !HasNewline(s)
    ensures FirstLine(s) == s && AfterLine(s) == []
  {
    var n := LineLength(s);
    if s != [] {
      LineShape(s);
      assert s[n - 1] in s;
    }
  }

  // ── whitespace ───────────────────────────────────────────────────────────────────────────

  /** What `bytes.strip()` removes. */
  predicate AsciiSpace(b: byte) {
    b == 32 || 9 <= b <= 13
  }

  /** What `str.strip()` removes, restricted to latin-1 text. */
  predicate Latin1Space(b: byte) {
    b == 32 || 9 <= b <= 13 || 28 <= b <= 31 || b == 0x85 || b == 0xA0
  }

  function LStrip(space: byte -> bool, s: bytes): bytes {
    if s != [] && space(s[0]) then LStrip(space, s[1..]) else s
  }

  lemma {:induction false} LStripShape(space: byte -> bool, s: bytes)
    ensures var r := LStrip(space, s);
            && |r| <= |s| && r == s[|s| - |r|..]
            && (r != [] ==> !space(r[0]))
            && (forall x | x in s[..|s| - |r|] :: space(x))
  {
    if s != [] && space(s[0]) {
      LStripShape(space, s[1..]);
      var r := LStrip(space, s);
      assert s[..|s| - |r|] == [s[0]] + s[1..][..|s| - 1 - |r|];
    }
  }

  function RStrip(space: byte -> bool, s: bytes): bytes {
    if s != [] && space(s[|s| - 1]) then RStrip(space, s[..|s| - 1]) else s
  }

  lemma {:induction false} RStripShape(space: byte -> bool, s: bytes)
    ensures var r := RStrip(space, s);
            && r <= s
            && (r != [] ==> !space(r[|r| - 1]))
            && (forall i | |r| <= i < |s| :: space(s[i]))
  {
    if s != [] && space(s[|s| - 1]) {
      RStripShape(space, s[..|s| - 1]);
    }
  }

  function StripBy(space: byte -> bool, s: bytes): bytes {
    RStrip(space, LStrip(space, s))
  }

  function Strip(s: bytes): bytes {
    StripBy(AsciiSpace, s)
  }

  lemma {:induction false} LStripPadded(space: byte -> bool, left: bytes, rest: bytes)
    requires rest != [] && !space(rest[0])
    requires forall x | x in left :: space(x)
    ensures LStrip(space, left + rest) == rest
  {
    if left == [] {
      assert left + rest == rest;
    } else {
      assert (left + rest)[1..] == left[1..] + rest;
      LStripPadded(space, left[1..], rest);
    }
  }

  lemma {:induction false} RStripPadded(space: byte -> bool, rest: bytes, right: bytes)
    requires rest != [] && !space(rest[|rest| - 1])
    requires forall x | x in right :: space(x)
    ensures RStrip(space, rest + right) == rest
  {
    if right == [] {
      assert rest + right == rest;
    } else {
      assert (rest + right)[..|rest + right| - 1] == rest + right[..|right| - 1];
      RStripPadded(space, rest, right[..|right| - 1]);
    }
  }

  /** Stripping removes exactly the padding around a core that neither starts nor ends in space. */
  lemma StripPadded(space: byte -> bool, left: bytes, core: bytes, right: bytes)
    requires core != [] && !space(core[0]) && !space(core[|core| - 1])
    requires forall x | x in left :: space(x)
    requires forall x | x in right :: space(x)
    ensures StripBy(space, left + core + right) == core
  {
    assert left + core + right == left + (core + right);
    LStripPadded(space, left, core + right);
    RStripPadded(space, core, right);
  }

  /** A prefix `b` of the stripped line stays a prefix when the line is continued. */
  lemma StripContinued(line: bytes, more: bytes, b: bytes)
    requires b != [] && !AsciiSpace(b[|b| - 1])
    requires b <= Strip(line)
    ensures b <= Strip(line + more)
  {
    var l := LStrip(AsciiSpace, line);
    LStripShape(AsciiSpace, line);
    RStripShape(AsciiSpace, l);
    var pad := line[..|line| - |l|];
    assert line + more == pad + (l + more);
    LStripPadded(AsciiSpace, pad, l + more);
    RStripShape(AsciiSpace, l + more);
    assert (l + more)[|b| - 1] == b[|b| - 1];
    assert b <= l + more;
  }

  // ── latin-1 text ─────────────────────────────────────────────────────────────────────────

  function LowerByte(b: byte): byte {
    if 65 <= b <= 90 || (0xC0 <= b <= 0xDE && b != 0xD7) then b + 32 else b
  }

  function Lower(s: bytes): (r: bytes)
    ensures |r| == |s| && forall i | 0 <= i < |s| :: r[i] == LowerByte(s[i])
  {
    seq(|s|, i requires 0 <= i < |s| => LowerByte(s[i]))
  }

  /** Where `partition(":")` splits, or the length of the text when there is no colon. */
  function ColonAt(s: bytes): (n: nat)
    ensures n <= |s|
    ensures n < |s| ==> s[n] == COLON
    ensures forall i | 0 <= i < n :: s[i] != COLON
  {
    if s == [] || s[0] == COLON then 0 else 1 + ColonAt(s[1..])
  }

  lemma ColonOf(key: bytes, value: bytes)
    requires COLON !in key
    ensures ColonAt(key + [COLON] + value) == |key|
  {
    var s := key + [COLON] + value;
    var n := ColonAt(s);
    assert s[|key|] == COLON;
    assert forall i | 0 <= i < |key| :: s[i] == key[i];
  }

  // ── decimal numbers ──────────────────────────────────────────────────────────────────────

  predicate AsciiDigit(b: byte) {
    48 <= b <= 57
  }

  /** `str.isdigit` per character: latin-1 text also has three superscript digits. */
  predicate DigitChar(b: byte) {
    AsciiDigit(b) || b == 0xB2 || b == 0xB3 || b == 0xB9
  }

  predicate IsDigit(s: bytes) {
    s != [] && forall b | b in s :: DigitChar(b)
  }

  /** The interpreter's default limit on the digits of a number converted from text. */
  const MAX_STR_DIGITS: nat := 4300

  function DecimalValue(s: bytes): nat
    requires forall b | b in s :: AsciiDigit(b)
  {
    if s == [] then 0 else
      assert AsciiDigit(s[|s| - 1]);
      10 * DecimalValue(s[..|s| - 1]) + (s[|s| - 1] - 48) as nat
  }

  /** `int(text)` for text that passed `isdigit`; None where it raises ValueError. */
  function IntOf(s: bytes): Option<nat>
    requires IsDigit(s)
  {
    if |s| <= MAX_STR_DIGITS && forall b | b in s :: AsciiDigit(b) then Some(DecimalValue(s)) else None
  }

  /** `str(n).encode()` */
  function Decimal(n: nat): (r: bytes)
    ensures r != [] && forall b | b in r :: AsciiDigit(b)
  {
    if n < 10 then [48 + n as byte] else Decimal(n / 10) + [48 + (n % 10) as byte]
  }

  /** Decimal parsing undoes decimal printing. */
  lemma {:induction false} DecimalRoundTrip(n: nat)
    ensures DecimalValue(Decimal(n)) == n
  {
    var d := Decimal(n);
    if n < 10 {
      assert d[..|d| - 1] == [];
    } else {
      DecimalRoundTrip(n / 10);
      assert d[..|d| - 1] == Decimal(n / 10);
    }
  }

  function PowerOfTen(k: nat): nat {
    if k == 0 then 1 else 10 * PowerOfTen(k - 1)
  }

  lemma {:induction false} DecimalLength(n: nat, k: nat)
    requires 0 < k && n < PowerOfTen(k)
    ensures |Decimal(n)| <= k
  {
    if n >= 10 {
      assert PowerOfTen(k) == 10 * PowerOfTen(k - 1);
      assert n / 10 < PowerOfTen(k - 1);
      DecimalLength(n / 10, k - 1);
    }
  }
}
