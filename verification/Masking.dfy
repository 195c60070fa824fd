/**
 What the filter does to a message, as a mask over the message itself: which characters are kept, and
 which stretches, each an occurrence of a secret in the message, have become one marker.
 */
module Masking {
  import opened Sequences
  import opened Redaction

  /** A character kept, or the occurrence of a secret put out of sight. */
  datatype Piece = Kept(c: char) | Marked(secret: string)

  function Text(piece: Piece): string {
    match piece
    case Kept(c) => [c]
    case Marked(secret) => secret
  }

  /** The message the pieces were made from. */
  function Source(pieces: seq<Piece>): string {
    if pieces == [] then "" else Text(pieces[0]) + Source(pieces[1..])
  }

  /** What the log shows of it. */
  function Visible(pieces: seq<Piece>): string {
    if pieces == [] then ""
    else (if pieces[0].Kept? then [pieces[0].c] else REDACTED) + Visible(pieces[1..])
  }

  function Letters(text: string): seq<Piece> {
    seq(|text|, i requires 0 <= i < |text| => Kept(text[i]))
  }

  /** From the left, every stretch of kept characters that spells the secret is marked. */
  function Mask(pieces: seq<Piece>, secret: string): seq<Piece>
    requires secret != ""
    decreases |pieces|
  {
    if pieces == [] then []
    else if Letters(secret) <= pieces then [Marked(secret)] + Mask(pieces[|secret|..], secret)
    else [pieces[0]] + Mask(pieces[1..], secret)
  }

  function MaskAll(pieces: seq<Piece>, order: seq<string>): seq<Piece>
    requires "" !in order
    decreases |order|
  {
    if order == [] then pieces else MaskAll(Mask(pieces, order[0]), order[1..])
  }

  // ── filtering is masking ─────────────────────────────────────────────────────────────────

  lemma {:induction false} SourceOfLetters(text: string, pieces: seq<Piece>)
    requires Letters(text) <= pieces
    ensures Source(pieces) == text + Source(pieces[|text|..])
    ensures Visible(pieces) == text + Visible(pieces[|text|..])
    decreases |text|
  {
    if text == "" {
      assert pieces[0..] == pieces;
    } else {
      LettersStep(text, pieces);
      hide Letters;
      SourceOfLetters(text[1..], pieces[1..]);
      Associative([text[0]], text[1..], Source(pieces[|text|..]));
      Associative([text[0]], text[1..], Visible(pieces[|text|..]));
    }
  }

  lemma LettersStep(text: string, pieces: seq<Piece>)
    requires text != "" && Letters(text) <= pieces
    ensures pieces != [] && pieces[0] == Kept(text[0]) && Letters(text[1..]) <= pieces[1..]
    ensures text == [text[0]] + text[1..] && pieces[1..][|text| - 1..] == pieces[|text|..]
  {
    assert pieces[0] == Letters(text)[0];
    assert Letters(text[1..]) == Letters(text)[1..];
  }

  lemma {:induction false} MaskKeepsSource(pieces: seq<Piece>, secret: string)
    requires secret != ""
    ensures Source(Mask(pieces, secret)) == Source(pieces)
    decreases |pieces|
  {
    if pieces != [] {
      if Letters(secret) <= pieces {
        SourceOfLetters(secret, pieces);
        MaskKeepsSource(pieces[|secret|..], secret);
      } else {
        MaskKeepsSource(pieces[1..], secret);
      }
    }
  }

  /** What starts the visible text and cannot run into a marker is made of kept characters. */
  lemma {:induction false} StartsWithLetters(pieces: seq<Piece>, t: string)
    requires forall i | 0 <= i < |t| :: !Agree(t[i..], REDACTED)
    requires t <= Visible(pieces)
    ensures Letters(t) <= pieces
    decreases |t|
  {
    if t != "" {
      assert !Agree(t[0..], REDACTED) && t[0..] == t;
      if pieces[0].Marked? {
        AgreeOfPrefixes(t, REDACTED, Visible(pieces));
      } else {
        assert t[1..] <= Visible(pieces)[1..] == Visible(pieces[1..]);
        assert forall i | 0 <= i < |t[1..]| :: t[1..][i..] == t[i + 1..];
        StartsWithLetters(pieces[1..], t[1..]);
        assert Letters(t) == [Kept(t[0])] + Letters(t[1..]);
        assert pieces == [pieces[0]] + pieces[1..];
      }
    }
  }

  lemma NotAcrossMarker(i: nat, rest: string, secret: string)
    requires i < |REDACTED| && Disentangled(secret)
    ensures !(secret <= REDACTED[i..] + rest)
  {
    if secret <= REDACTED[i..] + rest {
      AgreeOfPrefixes(secret, REDACTED[i..], REDACTED[i..] + rest);
    }
  }

  /** Nothing is replaced in a marker. */
  lemma {:induction false} PastMarker(i: nat, rest: string, secret: string)
    requires i <= |REDACTED| && Disentangled(secret)
    ensures Replace(REDACTED[i..] + rest, secret) == REDACTED[i..] + Replace(rest, secret)
    decreases |REDACTED| - i
  {
    assert secret != "";
    hide Replace, Disentangled;
    if i == |REDACTED| {
      assert REDACTED[i..] == "" && "" + rest == rest;
    } else {
      NotAcrossMarker(i, rest, secret);
      var text, first, more := REDACTED[i..] + rest, [REDACTED[i]], REDACTED[i + 1..];
      assert REDACTED[i..] == first + more;
      assert text == first + (more + rest);
      assert text[1..] == more + rest && text[0] == REDACTED[i];
      PastMarker(i + 1, rest, secret);
      ReplaceStep(text, secret);
      Associative(first, more, Replace(rest, secret));
    }
  }

  lemma {:induction false} MaskIsReplace(pieces: seq<Piece>, secret: string)
    requires Disentangled(secret)
    ensures Visible(Mask(pieces, secret)) == Replace(Visible(pieces), secret)
    decreases |pieces|
  {
    hide Replace;
    ReplaceStep(Visible(pieces), secret);
    if pieces != [] {
      if Letters(secret) <= pieces {
        SourceOfLetters(secret, pieces);
        MaskIsReplace(pieces[|secret|..], secret);
      } else {
        MaskIsReplace(pieces[1..], secret);
        if pieces[0].Marked? {
          assert REDACTED[0..] == REDACTED;
          PastMarker(0, Visible(pieces[1..]), secret);
        } else if secret <= Visible(pieces) {
          StartsWithLetters(pieces, secret);
        }
      }
    }
  }

  lemma {:induction false} MaskAllIsFilter(pieces: seq<Piece>, order: seq<string>)
    requires "" !in order && forall s | s in order :: Disentangled(s)
    ensures Source(MaskAll(pieces, order)) == Source(pieces)
    ensures Visible(MaskAll(pieces, order)) == Filter(Visible(pieces), order)
    decreases |order|
  {
    hide Disentangled, Mask;
    if order != [] {
      assert order[0] in order;
      MaskKeepsSource(pieces, order[0]);
      MaskIsReplace(pieces, order[0]);
      MaskAllIsFilter(Mask(pieces, order[0]), order[1..]);
    }
  }

  /** The filtered message is the original with stretches of it, each an occurrence of a secret there and
      no two overlapping, each turned into one marker, and every other character kept where it was. */
  lemma FilterIsMasking(message: string, order: seq<string>)
    requires "" !in order && forall s | s in order :: Disentangled(s)
    ensures var pieces := MaskAll(Letters(message), order);
            Source(pieces) == message && Visible(pieces) == Filter(message, order)
  {
    hide MaskAll, Filter, Disentangled;
    SourceOfLetters(message, Letters(message));
    assert Letters(message)[|message|..] == [];
    MaskAllIsFilter(Letters(message), order);
  }

  // ── what is out of sight ─────────────────────────────────────────────────────────────────

  /** The character at position `i` of the source is out of sight. */
  predicate Hidden(pieces: seq<Piece>, i: nat)
    decreases |pieces|
  {
    pieces != [] &&
    var width := |Text(pieces[0])|;
    if i < width then pieces[0].Marked? else Hidden(pieces[1..], i - width)
  }

  /** The occurrence of `secret` at position `k` of the source has a marker of its own. */
  predicate MarkedAt(pieces: seq<Piece>, k: nat, secret: string)
    decreases |pieces|
  {
    pieces != [] &&
    var width := |Text(pieces[0])|;
    (k == 0 && pieces[0] == Marked(secret)) || (k >= width && MarkedAt(pieces[1..], k - width, secret))
  }

  predicate OccursAt(message: string, k: nat, secret: string) {
    k + |secret| <= |message| && secret <= message[k..]
  }

  /** Two stretches of a message have a position in common. */
  predicate Overlap(j: nat, m: nat, k: nat, n: nat) {
    j < k + n && k < j + m
  }

  /** One of them lies within the other. */
  predicate Nested(j: nat, m: nat, k: nat, n: nat) {
    (j <= k && k + n <= j + m) || (k <= j && j + m <= k + n)
  }

  lemma {:induction false} MarkedHides(pieces: seq<Piece>, k: nat, secret: string, i: nat)
    requires MarkedAt(pieces, k, secret) && k <= i < k + |secret|
    ensures Hidden(pieces, i) && OccursAt(Source(pieces), k, secret)
    decreases |pieces|
  {
    var width := |Text(pieces[0])|;
    assert Source(pieces)[width..] == Source(pieces[1..]);
    if k == 0 && pieces[0] == Marked(secret) {
      assert Source(pieces)[0..] == Source(pieces);
    } else {
      MarkedHides(pieces[1..], k - width, secret, i - width);
      assert Source(pieces)[k..] == Source(pieces[1..])[k - width..];
    }
  }

  lemma {:induction false} HiddenIsMarked(pieces: seq<Piece>, i: nat) returns (k: nat, secret: string)
    requires Hidden(pieces, i)
    ensures MarkedAt(pieces, k, secret) && k <= i < k + |secret|
    decreases |pieces|
  {
    var width := |Text(pieces[0])|;
    if i < width {
      k, secret := 0, pieces[0].secret;
    } else {
      var j, s := HiddenIsMarked(pieces[1..], i - width);
      k, secret := j + width, s;
    }
  }

  /** Kept characters in front hide nothing. */
  lemma {:induction false} PastLetters(text: string, pieces: seq<Piece>, i: nat, t: string)
    requires Letters(text) <= pieces
    ensures Hidden(pieces, i) <==> i >= |text| && Hidden(pieces[|text|..], i - |text|)
    ensures MarkedAt(pieces, i, t) <==> i >= |text| && MarkedAt(pieces[|text|..], i - |text|, t)
    decreases |text|
  {
    if text == "" {
      assert pieces[0..] == pieces;
    } else {
      assert pieces[0] == Letters(text)[0] == Kept(text[0]);
      assert Letters(text[1..]) == Letters(text)[1..];
      assert pieces[1..][|text| - 1..] == pieces[|text|..];
      if i > 0 {
        PastLetters(text[1..], pieces[1..], i - 1, t);
      }
    }
  }

  /** Text none of which is hidden is made of kept characters. */
  lemma {:induction false} NotHiddenIsKept(pieces: seq<Piece>, text: string)
    requires text <= Source(pieces) && forall i | 0 <= i < |text| :: !Hidden(pieces, i)
    requires "" !in MarkedTexts(pieces)
    ensures Letters(text) <= pieces
    decreases |pieces|
  {
    if text != "" {
      assert !Hidden(pieces, 0) && pieces[0] in pieces;
      assert text[1..] <= Source(pieces)[1..] == Source(pieces[1..]);
      forall i | 0 <= i < |text[1..]|
        ensures !Hidden(pieces[1..], i)
      {
        assert !Hidden(pieces, i + 1);
      }
      assert forall p | p in pieces[1..] :: p in pieces;
      NotHiddenIsKept(pieces[1..], text[1..]);
      assert Letters(text) == [Kept(text[0])] + Letters(text[1..]);
      assert pieces == [pieces[0]] + pieces[1..];
    }
  }

  /** The secrets that have been marked. */
  function MarkedTexts(pieces: seq<Piece>): set<string> {
    set p | p in pieces && p.Marked? :: p.secret
  }

  lemma {:induction false} MaskMarksOnly(pieces: seq<Piece>, secret: string)
    requires secret != ""
    ensures MarkedTexts(Mask(pieces, secret)) <= MarkedTexts(pieces) + {secret}
    decreases |pieces|
  {
    hide MarkedTexts;
    if pieces != [] {
      if Letters(secret) <= pieces {
        MaskMarksOnly(pieces[|secret|..], secret);
        MarkedTextsParts(pieces, |secret|);
        MarkedTextsParts([Marked(secret)] + Mask(pieces[|secret|..], secret), 1);
      } else {
        MaskMarksOnly(pieces[1..], secret);
        MarkedTextsParts(pieces, 1);
        MarkedTextsParts([pieces[0]] + Mask(pieces[1..], secret), 1);
      }
    }
  }

  lemma MarkedTextsParts(pieces: seq<Piece>, n: nat)
    requires 0 < n <= |pieces|
    ensures MarkedTexts(pieces[n..]) <= MarkedTexts(pieces)
    ensures pieces[0].Marked? ==> pieces[0].secret in MarkedTexts(pieces)
    ensures n == 1 ==> MarkedTexts(pieces) ==
                       MarkedTexts(pieces[1..]) + if pieces[0].Marked? then {pieces[0].secret} else {}
  {
    assert pieces == pieces[..n] + pieces[n..] && pieces[0] in pieces;
    assert forall p | p in pieces[n..] :: p in pieces;
    assert n == 1 ==> forall p | p in pieces :: p == pieces[0] || p in pieces[1..];
  }

  lemma {:induction false} MarkedAmong(pieces: seq<Piece>, k: nat, secret: string)
    requires MarkedAt(pieces, k, secret)
    ensures secret in MarkedTexts(pieces)
    decreases |pieces|
  {
    assert pieces[0] in pieces;
    if !(k == 0 && pieces[0] == Marked(secret)) {
      MarkedAmong(pieces[1..], k - |Text(pieces[0])|, secret);
      assert forall p | p in pieces[1..] :: p in pieces;
    }
  }

  /** A mask keeps the markers there are. */
  lemma {:induction false} MaskKeepsMarks(pieces: seq<Piece>, secret: string, k: nat, t: string)
    requires secret != "" && MarkedAt(pieces, k, t)
    ensures MarkedAt(Mask(pieces, secret), k, t)
    decreases |pieces|
  {
    MaskStep(pieces, secret);
    hide Mask, Letters;
    if Letters(secret) <= pieces {
      PastLetters(secret, pieces, k, t);
      MaskKeepsMarks(pieces[|secret|..], secret, k - |secret|, t);
      PastFirst(Marked(secret), Mask(pieces[|secret|..], secret), k - |secret|, t);
    } else if !(k == 0 && pieces[0] == Marked(t)) {
      MaskKeepsMarks(pieces[1..], secret, k - |Text(pieces[0])|, t);
      PastFirst(pieces[0], Mask(pieces[1..], secret), k - |Text(pieces[0])|, t);
    }
  }

  /** A marker it adds stands where nothing was hidden. */
  lemma {:induction false} MaskAddsInTheOpen(pieces: seq<Piece>, secret: string, k: nat, t: string)
    requires secret != "" && MarkedAt(Mask(pieces, secret), k, t) && !MarkedAt(pieces, k, t)
    ensures t == secret && forall i | k <= i < k + |secret| :: !Hidden(pieces, i)
    decreases |pieces|
  {
    if Letters(secret) <= pieces {
      PastLetters(secret, pieces, k, t);
      if k == 0 {
        forall i | 0 <= i < |secret|
          ensures !Hidden(pieces, i)
        {
          PastLetters(secret, pieces, i, t);
        }
      } else {
        var rest := pieces[|secret|..];
        MaskAddsInTheOpen(rest, secret, k - |secret|, t);
        forall i | k <= i < k + |secret|
          ensures !Hidden(pieces, i)
        {
          PastLetters(secret, pieces, i, t);
          assert !Hidden(rest, i - |secret|);
        }
      }
    } else {
      var width := |Text(pieces[0])|;
      MaskAddsInTheOpen(pieces[1..], secret, k - width, t);
      forall i | k <= i < k + |secret|
        ensures !Hidden(pieces, i)
      {
        assert !Hidden(pieces[1..], i - width);
      }
    }
  }

  lemma {:induction false} MarksApart(pieces: seq<Piece>, j: nat, s: string, k: nat, t: string)
    requires MarkedAt(pieces, j, s) && MarkedAt(pieces, k, t) && j < k
    ensures j + |s| <= k
    decreases |pieces|
  {
    if !(j == 0 && pieces[0] == Marked(s)) {
      var width := |Text(pieces[0])|;
      MarksApart(pieces[1..], j - width, s, k - width, t);
    }
  }

  lemma PastFirst(piece: Piece, rest: seq<Piece>, i: nat, t: string)
    ensures Hidden([piece] + rest, i + |Text(piece)|) <==> Hidden(rest, i)
    ensures MarkedAt(rest, i, t) ==> MarkedAt([piece] + rest, i + |Text(piece)|, t)
    ensures Source([piece] + rest) == Text(piece) + Source(rest)
  {
    assert ([piece] + rest)[1..] == rest;
  }

  lemma MaskStep(pieces: seq<Piece>, secret: string)
    requires secret != "" && pieces != []
    ensures Mask(pieces, secret) ==
            if Letters(secret) <= pieces then [Marked(secret)] + Mask(pieces[|secret|..], secret)
            else [pieces[0]] + Mask(pieces[1..], secret)
  {
  }

  /** Nothing of the occurrence is hidden, and no marker of the same secret is put across its start. */
  ghost predicate InTheOpen(pieces: seq<Piece>, secret: string, k: nat)
    requires secret != ""
  {
    && "" !in MarkedTexts(pieces) && OccursAt(Source(pieces), k, secret)
    && (forall i | k <= i < k + |secret| :: !Hidden(pieces, i))
    && (forall j: nat | j < k < j + |secret| :: !MarkedAt(Mask(pieces, secret), j, secret))
  }

  lemma OpenPastFirst(pieces: seq<Piece>, secret: string, k: nat)
    requires secret != "" && InTheOpen(pieces, secret, k) && k > 0 && !(Letters(secret) <= pieces)
    ensures pieces != [] && |Text(pieces[0])| <= k && InTheOpen(pieces[1..], secret, k - |Text(pieces[0])|)
  {
    assert pieces != [] && !Hidden(pieces, k);
    hide Mask, MarkedAt;
    var piece, rest := pieces[0], pieces[1..];
    var width := |Text(piece)|;
    assert pieces == [piece] + rest && pieces[0] in pieces && forall p | p in rest :: p in pieces;
    assert width <= k;
    hide Hidden;
    PastFirst(piece, rest, 0, secret);
    assert Source(rest)[k - width..] == Source(pieces)[k..];
    MaskStep(pieces, secret);
    forall i | k - width <= i < k - width + |secret|
      ensures !Hidden(rest, i)
    {
      PastFirst(piece, rest, i, secret);
      assert !Hidden(pieces, i + width);
    }
    forall j: nat | j < k - width < j + |secret|
      ensures !MarkedAt(Mask(rest, secret), j, secret)
    {
      PastFirst(piece, Mask(rest, secret), j, secret);
      assert !MarkedAt(Mask(pieces, secret), j + width, secret);
    }
  }

  lemma StillOpen(pieces: seq<Piece>, secret: string, k: nat)
    requires Letters(secret) <= pieces && |secret| <= k && |secret| <= |pieces|
    requires forall i | k <= i < k + |secret| :: !Hidden(pieces, i)
    ensures forall i | k - |secret| <= i < k :: !Hidden(pieces[|secret|..], i)
  {
    hide Hidden;
    forall i | k - |secret| <= i < k
      ensures !Hidden(pieces[|secret|..], i)
    {
      PastLetters(secret, pieces, i + |secret|, secret);
      assert !Hidden(pieces, i + |secret|);
    }
  }

  lemma OpenPastMark(pieces: seq<Piece>, secret: string, k: nat)
    requires secret != "" && InTheOpen(pieces, secret, k) && k > 0 && Letters(secret) <= pieces
    ensures |secret| <= k && InTheOpen(pieces[|secret|..], secret, k - |secret|)
  {
    var n, rest := |secret|, pieces[|secret|..];
    assert n <= |pieces|;
    MaskStep(pieces, secret);
    assert MarkedAt(Mask(pieces, secret), 0, secret);
    hide Mask, MarkedAt, Hidden, Letters;
    assert k >= n;
    SourceOfLetters(secret, pieces);
    assert Source(rest)[k - n..] == Source(pieces)[k..];
    assert OccursAt(Source(rest), k - n, secret);
    assert "" !in MarkedTexts(rest) by { MarkedTextsParts(pieces, n); }
    hide Source, MarkedTexts, OccursAt;
    StillOpen(pieces, secret, k);
    forall j: nat | j < k - n < j + n
      ensures !MarkedAt(Mask(rest, secret), j, secret)
    {
      PastFirst(Marked(secret), Mask(rest, secret), j, secret);
      assert !MarkedAt(Mask(pieces, secret), j + n, secret);
    }
  }

  /** The scan reaches such an occurrence and marks it. */
  lemma {:induction false} ScanMarks(pieces: seq<Piece>, secret: string, k: nat)
    requires secret != "" && InTheOpen(pieces, secret, k)
    ensures MarkedAt(Mask(pieces, secret), k, secret)
    decreases |pieces|
  {
    if k == 0 {
      assert Source(pieces)[0..] == Source(pieces);
      NotHiddenIsKept(pieces, secret);
    } else {
      hide InTheOpen, Mask, MarkedAt;
      if Letters(secret) <= pieces {
        OpenPastMark(pieces, secret, k);
        ScanMarks(pieces[|secret|..], secret, k - |secret|);
        MaskStep(pieces, secret);
        PastFirst(Marked(secret), Mask(pieces[|secret|..], secret), k - |secret|, secret);
      } else {
        OpenPastFirst(pieces, secret, k);
        ScanMarks(pieces[1..], secret, k - |Text(pieces[0])|);
        MaskStep(pieces, secret);
        PastFirst(pieces[0], Mask(pieces[1..], secret), k - |Text(pieces[0])|, secret);
      }
    }
  }

  /** An occurrence gets a marker of its own exactly when it has one already, or when nothing of it is hidden
      yet and no earlier occurrence of the same secret that is replaced runs into it. */
  lemma OwnMarkerExactly(pieces: seq<Piece>, secret: string, k: nat)
    requires secret != "" && "" !in MarkedTexts(pieces) && OccursAt(Source(pieces), k, secret)
    ensures MarkedAt(Mask(pieces, secret), k, secret) <==>
            MarkedAt(pieces, k, secret) || InTheOpen(pieces, secret, k)
  {
    if MarkedAt(pieces, k, secret) {
      MaskKeepsMarks(pieces, secret, k, secret);
    } else if MarkedAt(Mask(pieces, secret), k, secret) {
      hide Mask, Hidden, MarkedAt;
      MaskAddsInTheOpen(pieces, secret, k, secret);
      forall j: nat | j < k < j + |secret|
        ensures !MarkedAt(Mask(pieces, secret), j, secret)
      {
        if MarkedAt(Mask(pieces, secret), j, secret) {
          MarksApart(Mask(pieces, secret), j, secret, k, secret);
        }
      }
    } else if InTheOpen(pieces, secret, k) {
      ScanMarks(pieces, secret, k);
    }
  }

  lemma {:induction false} MaskAllAppend(pieces: seq<Piece>, a: seq<string>, b: seq<string>)
    requires "" !in a && "" !in b
    ensures MaskAll(pieces, a + b) == MaskAll(MaskAll(pieces, a), b)
    decreases |a|
  {
    hide Mask;
    if a == [] {
      assert a + b == b;
    } else {
      assert (a + b)[1..] == a[1..] + b && a[0] in a;
      MaskAllAppend(Mask(pieces, a[0]), a[1..], b);
    }
  }

  lemma {:induction false} MaskAllMarks(pieces: seq<Piece>, order: seq<string>, k: nat, secret: string)
    requires "" !in order && secret !in order
    ensures MarkedAt(MaskAll(pieces, order), k, secret) <==> MarkedAt(pieces, k, secret)
    ensures MarkedTexts(MaskAll(pieces, order)) <= MarkedTexts(pieces) + set s | s in order
    ensures Source(MaskAll(pieces, order)) == Source(pieces)
    decreases |order|
  {
    hide Mask, MarkedAt, MarkedTexts, Source;
    if order != [] {
      var next := Mask(pieces, order[0]);
      assert order[0] in order && forall s | s in order[1..] :: s in order;
      MaskMarksOnly(pieces, order[0]);
      MaskKeepsSource(pieces, order[0]);
      if MarkedAt(pieces, k, secret) {
        MaskKeepsMarks(pieces, order[0], k, secret);
      } else if MarkedAt(next, k, secret) {
        MaskAddsInTheOpen(pieces, order[0], k, secret);
      }
      MaskAllMarks(next, order[1..], k, secret);
    }
  }

  /** In a filtered message an occurrence of a secret has become a marker of its own exactly when, by the
      secret's turn, nothing of it had been replaced, and no earlier occurrence of the same secret that is
      replaced runs into it. */
  lemma OccurrenceMarkedExactly(message: string, before: seq<string>, secret: string, after: seq<string>, k: nat)
    requires "" !in before + [secret] + after && secret !in before && secret !in after
    requires OccursAt(message, k, secret)
    ensures MarkedAt(MaskAll(Letters(message), before + [secret] + after), k, secret) <==>
            InTheOpen(MaskAll(Letters(message), before), secret, k)
  {
    hide MarkedAt, InTheOpen, OccursAt;
    var order := before + [secret] + after;
    assert (forall s | s in before :: s in order) && secret in order && forall s | s in after :: s in order;
    var start := Letters(message);
    SourceOfLetters(message, start);
    assert start[|message|..] == [] && Source(start) == message && MarkedTexts(start) == {};
    var pieces := MaskAll(start, before);
    MaskAllMarks(start, before, k, secret);
    MaskAllAppend(start, before + [secret], after);
    MaskAllAppend(start, before, [secret]);
    assert [secret][1..] == [] && MaskAll(pieces, [secret]) == Mask(pieces, secret);
    MaskAllMarks(Mask(pieces, secret), after, k, secret);
    assert !MarkedAt(pieces, k, secret) by {
      if MarkedAt(start, k, secret) {
        MarkedAmong(start, k, secret);
      }
    }
    OwnMarkerExactly(pieces, secret, k);
  }

  // ── what the order is for ────────────────────────────────────────────────────────────────

  /** All of the stretch is out of sight. */
  predicate AllHidden(pieces: seq<Piece>, k: nat, n: nat) {
    forall i | k <= i < k + n :: Hidden(pieces, i)
  }

  lemma {:induction false} MaskAllKeepsHidden(pieces: seq<Piece>, order: seq<string>, k: nat, n: nat)
    requires "" !in order && AllHidden(pieces, k, n)
    ensures AllHidden(MaskAll(pieces, order), k, n)
    decreases |order|
  {
    hide Mask, Hidden, MarkedAt;
    if order != [] {
      var next := Mask(pieces, order[0]);
      assert order[0] in order;
      forall i | k <= i < k + n
        ensures Hidden(next, i)
      {
        var j, s := HiddenIsMarked(pieces, i);
        MaskKeepsMarks(pieces, order[0], j, s);
        MarkedHides(next, j, s, i);
      }
      MaskAllKeepsHidden(next, order[1..], k, n);
    }
  }

  /** No occurrence of one of the secrets that overlaps the stretch reaches out of it at one end only. */
  ghost predicate OnlyNested(message: string, secrets: set<string>, k: nat, n: nat) {
    forall s, j: nat | s in secrets && s != "" && OccursAt(message, j, s) && Overlap(j, |s|, k, n) :: Nested(j, |s|, k, n)
  }

  lemma {:induction false} NestedIsHidden(pieces: seq<Piece>, order: seq<string>, left: set<string>,
                                          secrets: set<string>, secret: string, k: nat)
    requires LongestFirst(order, left) && secret in order && left <= secrets
    requires MarkedTexts(pieces) <= secrets - {""} && forall s | s in MarkedTexts(pieces) :: |s| >= |secret|
    requires OccursAt(Source(pieces), k, secret) && OnlyNested(Source(pieces), secrets, k, |secret|)
    ensures AllHidden(MaskAll(pieces, order), k, |secret|)
    decreases |order|
  {
    hide Mask, Hidden, MarkedAt, OccursAt, OnlyNested, MarkedTexts, AllHidden;
    assert order[0] in order;
    var next, rest := Mask(pieces, order[0]), order[1..];
    MaskKeepsSource(pieces, order[0]);
    MaskMarksOnly(pieces, order[0]);
    RestLongestFirst(order, left);
    if order[0] == secret {
      SecretsTurn(pieces, secrets, secret, k);
      MaskAllKeepsHidden(next, rest, k, |secret|);
    } else {
      NestedIsHidden(next, rest, left - {order[0]}, secrets, secret, k);
    }
  }

  lemma SecretsTurn(pieces: seq<Piece>, secrets: set<string>, secret: string, k: nat)
    requires secret != "" && secret in secrets
    requires MarkedTexts(pieces) <= secrets - {""} && forall s | s in MarkedTexts(pieces) :: |s| >= |secret|
    requires OccursAt(Source(pieces), k, secret) && OnlyNested(Source(pieces), secrets, k, |secret|)
    ensures AllHidden(Mask(pieces, secret), k, |secret|)
  {
    hide Mask, Hidden, MarkedAt, OccursAt;
    var n, next := |secret|, Mask(pieces, secret);
    if i :| k <= i < k + n && Hidden(pieces, i) {
      var j, s := HiddenIsMarked(pieces, i);
      MarkedAmong(pieces, j, s);
      MarkedHides(pieces, j, s, i);
      assert Nested(j, |s|, k, n);
      MaskKeepsMarks(pieces, secret, j, s);
      forall m | k <= m < k + n
        ensures Hidden(next, m)
      {
        MarkedHides(next, j, s, m);
      }
    } else {
      MaskKeepsSource(pieces, secret);
      forall j: nat | j < k < j + n
        ensures !MarkedAt(next, j, secret)
      {
        if MarkedAt(next, j, secret) {
          MarkedHides(next, j, secret, j);
        }
      }
      ScanMarks(pieces, secret, k);
      forall m | k <= m < k + n
        ensures Hidden(next, m)
      {
        MarkedHides(next, k, secret, m);
      }
    }
  }

  /** Longest first, nothing of an occurrence stays in sight unless an occurrence of a secret reaches out of it
      at one end only: whatever secrets lie within it or around it, it is hidden whole. */
  lemma LongestFirstHidesWhole(message: string, order: seq<string>, secrets: set<string>, secret: string, k: nat)
    requires LongestFirst(order, secrets) && secret in order
    requires OccursAt(message, k, secret) && OnlyNested(message, secrets, k, |secret|)
    ensures AllHidden(MaskAll(Letters(message), order), k, |secret|)
  {
    hide MaskAll, Hidden, OccursAt, OnlyNested;
    SourceOfLetters(message, Letters(message));
    assert Letters(message)[|message|..] == [];
    assert MarkedTexts(Letters(message)) == {} && Source(Letters(message)) == message;
    NestedIsHidden(Letters(message), order, secrets, secrets, secret, k);
  }

  /** Two secrets of one length that run into each other: the end of the second one stays in the log. */
  lemma OverlapLeavesPart()
    ensures LongestFirst(["xab", "abc"], {"xab", "abc"}) && Disentangled("xab") && Disentangled("abc")
    ensures OccursAt("xabc", 0, "xab") && OccursAt("xabc", 1, "abc")
    ensures Filter("xabc", ["xab", "abc"]) == REDACTED + "c"
  {
    hide Replace, Filter, Disentangled, Contains;
    ReplaceStep("xabc", "xab");
    assert "xabc"[3..] == "c";
    ReplaceStep("c", "xab");
    ReplaceStep("c"[1..], "xab");
    assert Replace("xabc", "xab") == REDACTED + "c";
    assert Disentangled("xab") && Disentangled("abc") by {
      NotInWord();
      BracketFreeDisentangled("xab");
      BracketFreeDisentangled("abc");
    }
    assert REDACTED[0..] == REDACTED;
    PastMarker(0, "c", "abc");
    ReplaceStep("c", "abc");
    ReplaceStep("c"[1..], "abc");
    FilterTwo("xabc", "xab", "abc");
  }

  lemma NotInWord()
    ensures !Contains(WORD, "xab") && !Contains(WORD, "abc")
  {
    forall i | 0 <= i <= |WORD|
      ensures !("xab" <= WORD[i..]) && !("abc" <= WORD[i..])
    {
      assert i < |WORD| ==> WORD[i..][0] == WORD[i] != 'x';
      assert i + 1 < |WORD| ==> WORD[i..][1] == WORD[i + 1] != 'b';
    }
  }
}
