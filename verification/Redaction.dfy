/**
 The logging filter: every secret, longest first, is replaced by a fixed marker.
 */
module Redaction {
  import opened Sequences

  const REDACTED: string := "<redacted>"

  // ── str.replace ──────────────────────────────────────────────────────────────────────────

  /** `message.replace(secret, REDACTED)`: occurrences from the left, none overlapping. */
  function Replace(message: string, secret: string): string
    requires secret != ""
    decreases |message|
  {
    if message == "" then ""
    else if secret <= message then REDACTED + Replace(message[|secret|..], secret)
    else [message[0]] + Replace(message[1..], secret)
  }

  lemma ReplaceStep(message: string, secret: string)
    requires secret != ""
    ensures Replace(message, secret) ==
            if message == "" then ""
            else if secret <= message then REDACTED + Replace(message[|secret|..], secret)
            else [message[0]] + Replace(message[1..], secret)
  {
  }

  method ReplaceAll(message: string, secret: string) returns (r: string)
    requires secret != ""
    ensures r == Replace(message, secret)
  {
    hide Replace;
    r := "";
    var i := 0;
    while i < |message|
      invariant i <= |message|
      invariant Replace(message, secret) == r + Replace(message[i..], secret)
    {
      ReplaceStep(message[i..], secret);
      if secret <= message[i..] {
        DropDrop(message, i, |secret|);
        Associative(r, REDACTED, Replace(message[i + |secret|..], secret));
        r, i := r + REDACTED, i + |secret|;
      } else {
        DropDrop(message, i, 1);
        Associative(r, [message[i]], Replace(message[i + 1..], secret));
        r, i := r + [message[i]], i + 1;
      }
    }
    assert message[i..] == "" by { assert i == |message|; }
    ReplaceStep("", secret);
  }

  // ── the filter ───────────────────────────────────────────────────────────────────────────

  /** The secrets as the filter holds them: the non-empty ones, each once, longest first. */
  ghost predicate LongestFirst(order: seq<string>, secrets: set<string>) {
    && (forall s :: s in order <==> s in secrets && s != "")
    && (forall i, j | 0 <= i < j < |order| :: order[i] != order[j] && |order[i]| >= |order[j]|)
  }

  function Filter(message: string, order: seq<string>): string
    requires "" !in order
    decreases |order|
  {
    if order == [] then message
    else Filter(Replace(message, order[0]), order[1..])
  }

  class RedactingFilter {
    var secrets: seq<string>

    ghost predicate Valid()
      reads this
    {
      "" !in secrets
    }

    constructor (given: set<string>)
      ensures Valid() && LongestFirst(secrets, given)
    {
      var left := given - {""};
      var order: seq<string> := [];
      while left != {}
        invariant left <= given - {""}
        invariant forall s :: s in order <==> s in given - {""} && s !in left
        invariant forall i, j | 0 <= i < j < |order| :: order[i] != order[j] && |order[i]| >= |order[j]|
        invariant forall s, t | s in order && t in left :: |s| >= |t|
        decreases |left|
      {
        var longest := Longest(left);
        assert forall i | 0 <= i < |order| :: order[i] in order;
        left, order := left - {longest}, order + [longest];
      }
      secrets := order;
    }

    /** Rewrites the message of a log record. */
    method Redact(record: string) returns (message: string)
      requires Valid()
      ensures message == Filter(record, secrets)
    {
      message := record;
      var i := 0;
      while i < |secrets|
        invariant i <= |secrets|
        invariant Filter(record, secrets) == Filter(message, secrets[i..])
      {
        assert secrets[i] in secrets;
        message := ReplaceAll(message, secrets[i]);
        assert secrets[i..][1..] == secrets[i + 1..];
        i := i + 1;
      }
    }
  }

  method Longest(s: set<string>) returns (r: string)
    requires s != {}
    ensures r in s && forall t | t in s :: |r| >= |t|
  {
    r :| r in s;
    var left := s - {r};
    while left != {}
      invariant left <= s && r in s
      invariant forall t | t in s && t !in left :: |r| >= |t|
      decreases |left|
    {
      var t :| t in left;
      left := left - {t};
      if |t| > |r| {
        r := t;
      }
    }
  }

  // ── what one replacement leaves ──────────────────────────────────────────────────────────

  /** No occurrence of `t` can share a character with an occurrence of the marker. */
  ghost predicate Disentangled(t: string) {
    && t != ""
    && (forall i | 0 <= i < |t| :: !Agree(t[i..], REDACTED))
    && (forall i | 0 <= i < |REDACTED| :: !Agree(t, REDACTED[i..]))
  }

  /** If `t` starts what a replacement made of `message`, it started `message` already. */
  lemma {:induction false} StartsBefore(message: string, secret: string, t: string)
    requires secret != ""
    requires forall i | 0 <= i < |t| :: !Agree(t[i..], REDACTED)
    requires t <= Replace(message, secret)
    ensures t <= message
    decreases |message|
  {
    if t != "" {
      assert !Agree(t[0..], REDACTED) && t[0..] == t;
      var r := Replace(message, secret);
      if secret <= message {
        AgreeOfPrefixes(t, REDACTED, r);
      } else {
        assert t[1..] <= r[1..] == Replace(message[1..], secret);
        forall i | 0 <= i < |t[1..]|
          ensures !Agree(t[1..][i..], REDACTED)
        {
          assert t[1..][i..] == t[i + 1..];
        }
        StartsBefore(message[1..], secret, t[1..]);
        assert t == [t[0]] + t[1..] && message == [message[0]] + message[1..];
      }
    }
  }

  lemma AgreeOfPrefixes(a: string, b: string, s: string)
    requires a <= s && b <= s
    ensures Agree(a, b)
  {
    if |a| <= |b| {
      assert a == b[..|a|];
    } else {
      assert b == a[..|b|];
    }
  }

  /** An occurrence in the outcome of a replacement was there before, and is not of the secret itself. */
  lemma {:induction false} OccursBefore(message: string, secret: string, t: string, k: nat)
    requires secret != "" && Disentangled(t)
    requires k <= |Replace(message, secret)| && t <= Replace(message, secret)[k..]
    ensures Contains(message, t) && t != secret
    decreases |message|
  {
    var r := Replace(message, secret);
    if message != "" && secret <= message {
      var n := |REDACTED|;
      if k < n {
        assert REDACTED[k..] <= r[k..];
        AgreeOfPrefixes(t, REDACTED[k..], r[k..]);
      } else {
        assert r[k..] == Replace(message[|secret|..], secret)[k - n..];
        OccursBefore(message[|secret|..], secret, t, k - n);
        OccursInTail(message, |secret|, t);
      }
    } else if message != "" {
      if k == 0 {
        assert r[0..] == r;
        StartsBefore(message, secret, t);
        assert message[0..] == message;
      } else {
        assert r[k..] == Replace(message[1..], secret)[k - 1..];
        OccursBefore(message[1..], secret, t, k - 1);
        OccursInTail(message, 1, t);
      }
    }
  }

  lemma OccursInTail(message: string, n: nat, t: string)
    requires n <= |message| && Contains(message[n..], t)
    ensures Contains(message, t)
  {
    var i :| 0 <= i <= |message[n..]| && t <= message[n..][i..];
    assert message[n..][i..] == message[n + i..];
  }

  lemma ReplaceRemoves(message: string, secret: string)
    requires Disentangled(secret)
    ensures !Contains(Replace(message, secret), secret)
  {
    var r := Replace(message, secret);
    forall k | 0 <= k <= |r|
      ensures !(secret <= r[k..])
    {
      if secret <= r[k..] {
        OccursBefore(message, secret, secret, k);
      }
    }
  }

  /** Replacing another secret does not bring `t` back. */
  lemma ReplaceKeepsOut(message: string, secret: string, t: string)
    requires secret != "" && Disentangled(t) && !Contains(message, t)
    ensures !Contains(Replace(message, secret), t)
  {
    var r := Replace(message, secret);
    forall k | 0 <= k <= |r|
      ensures !(t <= r[k..])
    {
      if t <= r[k..] {
        OccursBefore(message, secret, t, k);
      }
    }
  }

  lemma {:induction false} ReplaceUnchanged(message: string, secret: string)
    requires secret != "" && !Contains(message, secret)
    ensures Replace(message, secret) == message
    decreases |message|
  {
    if message != "" {
      assert message[0..] == message;
      if Contains(message[1..], secret) {
        OccursInTail(message, 1, secret);
      }
      ReplaceUnchanged(message[1..], secret);
    }
  }

  // ── what the filter guarantees ───────────────────────────────────────────────────────────

  lemma {:induction false} FilterKeepsOut(message: string, order: seq<string>, t: string)
    requires "" !in order && Disentangled(t) && !Contains(message, t)
    ensures !Contains(Filter(message, order), t)
    decreases |order|
  {
    hide Disentangled, Contains;
    if order != [] {
      assert order[0] in order;
      ReplaceKeepsOut(message, order[0], t);
      FilterKeepsOut(Replace(message, order[0]), order[1..], t);
    }
  }

  /** A secret that cannot run into the marker never shows in a filtered message, whatever the other
      secrets are and whatever is replaced after it. */
  lemma {:induction false} FilterScrubs(message: string, order: seq<string>, secret: string)
    requires "" !in order && secret in order && Disentangled(secret)
    ensures !Contains(Filter(message, order), secret)
    decreases |order|
  {
    hide Disentangled, Contains;
    assert order[0] in order;
    var r := Replace(message, order[0]);
    if order[0] == secret {
      ReplaceRemoves(message, secret);
      FilterKeepsOut(r, order[1..], secret);
    } else {
      FilterScrubs(r, order[1..], secret);
    }
  }

  lemma {:induction false} FilterUnchanged(message: string, order: seq<string>)
    requires "" !in order
    requires forall s | s in order :: !Contains(message, s)
    ensures Filter(message, order) == message
    decreases |order|
  {
    hide Contains;
    if order != [] {
      assert order[0] in order;
      ReplaceUnchanged(message, order[0]);
      FilterUnchanged(message, order[1..]);
    }
  }

  /** A message is left as it is exactly when it shows no secret; so filtering twice is filtering once. */
  lemma FilterFixpoints(message: string, order: seq<string>)
    requires "" !in order && forall s | s in order :: Disentangled(s)
    ensures Filter(message, order) == message <==> forall s | s in order :: !Contains(message, s)
    ensures Filter(Filter(message, order), order) == Filter(message, order)
  {
    hide Disentangled, Contains, Filter;
    var filtered := Filter(message, order);
    forall s | s in order
      ensures !Contains(filtered, s)
    {
      FilterScrubs(message, order, s);
    }
    FilterUnchanged(filtered, order);
    if forall s | s in order :: !Contains(message, s) {
      FilterUnchanged(message, order);
    }
  }

  // ── exactly which secrets are scrubbed ───────────────────────────────────────────────────

  predicate BracketFree(s: string) {
    '<' !in s && '>' !in s
  }

  const WORD: string := "redacted"

  lemma DisagreeAt(a: string, b: string, k: nat)
    requires k < |a| && k < |b| && a[k] != b[k]
    ensures !Agree(a, b)
  {
  }

  /** Short of the marker's closing bracket, a bracket-free text would lie inside the word. */
  lemma DisagreesWithTail(s: string, i: nat)
    requires s != "" && BracketFree(s) && !Contains(WORD, s) && i < |REDACTED|
    ensures !Agree(s, REDACTED[i..])
  {
    var tail := REDACTED[i..];
    if i == 0 {
      DisagreeAt(s, tail, 0);
    } else if |s| >= |tail| {
      assert tail[|tail| - 1] == '>';
      DisagreeAt(s, tail, |tail| - 1);
    } else {
      assert tail == WORD[i - 1..] + ">";
      assert !(s <= WORD[i - 1..]);
    }
  }

  lemma BracketFreeDisentangled(s: string)
    requires s != "" && BracketFree(s) && !Contains(WORD, s)
    ensures Disentangled(s)
  {
    hide Agree, Contains;
    forall i | 0 <= i < |s|
      ensures !Agree(s[i..], REDACTED)
    {
      DisagreeAt(s[i..], REDACTED, 0);
    }
    forall i | 0 <= i < |REDACTED|
      ensures !Agree(s, REDACTED[i..])
    {
      DisagreesWithTail(s, i);
    }
  }

  lemma ContainsTransitive(a: string, b: string, c: string)
    requires Contains(a, b) && Contains(b, c)
    ensures Contains(a, c)
  {
    var i :| 0 <= i <= |a| && b <= a[i..];
    var j :| 0 <= j <= |b| && c <= b[j..];
    assert b == a[i..i + |b|];
    assert b[j..] <= a[i + j..];
  }

  lemma {:induction false} MarkerAppears(message: string, secret: string)
    requires secret != "" && Contains(message, secret)
    ensures Contains(Replace(message, secret), REDACTED)
    decreases |message|
  {
    var r := Replace(message, secret);
    assert r[0..] == r;
    if !(secret <= message) {
      var i :| 0 <= i <= |message| && secret <= message[i..];
      assert message[0..] == message;
      assert message[1..][i - 1..] == message[i..];
      MarkerAppears(message[1..], secret);
      OccursInTail(r, 1, REDACTED);
    }
  }

  /** Text that occurs in the marker survives every replacement. */
  lemma {:induction false} MarkerTextStays(message: string, order: seq<string>, t: string)
    requires "" !in order && Contains(REDACTED, t) && Contains(message, t)
    ensures Contains(Filter(message, order), t)
    decreases |order|
  {
    hide Contains;
    if order != [] {
      assert order[0] in order;
      var r := Replace(message, order[0]);
      if Contains(message, order[0]) {
        MarkerAppears(message, order[0]);
        ContainsTransitive(r, REDACTED, t);
      } else {
        ReplaceUnchanged(message, order[0]);
      }
      MarkerTextStays(r, order[1..], t);
    }
  }

  /** A secret without angle brackets is scrubbed from every message exactly when it is no part of
      the word inside the marker. */
  lemma ScrubbedExactly(order: seq<string>, secret: string)
    requires "" !in order && secret in order && BracketFree(secret)
    ensures (forall message: string :: !Contains(Filter(message, order), secret))
            <==> !Contains(WORD, secret)
  {
    hide Filter, Disentangled, Contains;
    if Contains(WORD, secret) {
      WordInMarker();
      ContainsTransitive(REDACTED, WORD, secret);
      ContainsItself(secret);
      MarkerTextStays(secret, order, secret);
    } else {
      BracketFreeDisentangled(secret);
      forall message: string
        ensures !Contains(Filter(message, order), secret)
      {
        FilterScrubs(message, order, secret);
      }
    }
  }

  lemma WordInMarker()
    ensures Contains(REDACTED, WORD)
  {
    assert WORD <= REDACTED[1..];
  }

  lemma ContainsItself(s: string)
    ensures Contains(s, s)
  {
    assert s <= s[0..];
  }

  // ── secrets that no filter can be trusted with ───────────────────────────────────────────

  function Repeated<T>(x: seq<T>, n: nat): seq<T> {
    if n == 0 then [] else x + Repeated(x, n - 1)
  }

  lemma {:induction false} RepeatedChar(x: char, n: nat)
    ensures |Repeated([x], n)| == n && forall i | 0 <= i < n :: Repeated([x], n)[i] == x
  {
    if n > 0 {
      RepeatedChar(x, n - 1);
    }
  }

  /** A secret that can run into the marker is put together by it, unless it lies inside it. */
  lemma Entangled(secret: string) returns (u: string, z: string)
    requires secret != "" && !Disentangled(secret) && !Contains(REDACTED, secret)
    ensures |u| < |secret| && |z| < |secret| && Contains(u + REDACTED + z, secret)
  {
    var i, inside := EntangledAt(secret);
    hide Disentangled, Agree, Contains;
    if inside {
      u := secret[..i];
      z := if REDACTED <= secret[i..] then secret[i + |REDACTED|..] else "";
      RunsIntoMarker(secret, i, u, z);
    } else {
      ComesOutOfMarker(secret, i);
      u, z := "", secret[|REDACTED| - i..];
      assert u + REDACTED + z == REDACTED + z;
    }
  }

  /** Where an entangled secret and the marker meet: inside the secret, or inside the marker. */
  lemma EntangledAt(secret: string) returns (i: nat, inside: bool)
    requires secret != "" && !Disentangled(secret)
    ensures if inside then i < |secret| && Agree(secret[i..], REDACTED)
            else i < |REDACTED| && Agree(secret, REDACTED[i..])
  {
    hide Agree;
    if k :| 0 <= k < |secret| && Agree(secret[k..], REDACTED) {
      return k, true;
    }
    i :| 0 <= i < |REDACTED| && Agree(secret, REDACTED[i..]);
    inside := false;
  }

  lemma ComesOutOfMarker(secret: string, i: nat)
    requires i < |REDACTED| && Agree(secret, REDACTED[i..]) && !Contains(REDACTED, secret)
    ensures |REDACTED| - i <= |secret| && Contains(REDACTED + secret[|REDACTED| - i..], secret)
  {
    assert REDACTED[i..] <= secret;
    var z := secret[|REDACTED| - i..];
    assert (REDACTED + z)[i..] == REDACTED[i..] + z == secret;
  }

  lemma RunsIntoMarker(secret: string, i: nat, u: string, z: string)
    requires i < |secret| && Agree(secret[i..], REDACTED) && u == secret[..i]
    requires z == if REDACTED <= secret[i..] then secret[i + |REDACTED|..] else ""
    ensures |u| < |secret| && |z| < |secret| && Contains(u + REDACTED + z, secret)
  {
    assert secret == u + secret[i..];
    assert REDACTED <= secret[i..] ==> secret[i..] == REDACTED + z;
    assert (u + REDACTED + z)[0..] == u + (REDACTED + z);
  }

  lemma OtherChar(a: char, b: char, c: char, d: char) returns (x: char)
    ensures x != a && x != b && x != c && x != d
  {
    x := if 'k' !in {a, b, c, d} then 'k' else if 'l' !in {a, b, c, d} then 'l'
         else if 'm' !in {a, b, c, d} then 'm' else if 'n' !in {a, b, c, d} then 'n' else 'o';
  }

  /** The first occurrence of `d` in a message is the one put between `u` and `z`. */
  lemma {:induction false} ReplaceAt(u: string, d: string, z: string)
    requires d != "" && !Contains(z, d)
    requires forall k | 0 <= k < |u| :: !(d <= (u + d + z)[k..])
    ensures Replace(u + d + z, d) == u + REDACTED + z
  {
    var message := u + d + z;
    hide Replace, Contains;
    ReplaceStep(message, d);
    if u == "" {
      assert message[|d|..] == z;
      ReplaceUnchanged(z, d);
      assert u + REDACTED + z == REDACTED + z;
    } else {
      assert message[0..] == message;
      assert message[1..] == u[1..] + d + z;
      forall k | 0 <= k < |u[1..]|
        ensures !(d <= (u[1..] + d + z)[k..])
      {
        assert message[k + 1..] == (u[1..] + d + z)[k..];
      }
      ReplaceAt(u[1..], d, z);
      assert [message[0]] + (u[1..] + REDACTED + z) == u + REDACTED + z;
    }
  }

  /** A run of one character, shorter than the secret and between two texts shorter than it, that runs into
      neither and can begin or end no occurrence of the secret. */
  lemma RunBetween(secret: string, u: string, z: string, x: char, d: string)
    requires |secret| > 1 && |u| < |secret| && |z| < |secret|
    requires |d| == |secret| - 1 && forall i | 0 <= i < |d| :: d[i] == x
    requires x != secret[0] && x != Last(secret) && (u != "" ==> x != Last(u)) && (z != "" ==> x != z[0])
    ensures !Contains(u + d + z, secret) && Replace(u + d + z, d) == u + REDACTED + z
  {
    hide Replace, Contains;
    RunHoldsNoSecret(secret, u, z, x, d);
    RunStartsAt(u, z, x, d);
    ReplaceAt(u, d, z);
  }

  lemma RunHoldsNoSecret(secret: string, u: string, z: string, x: char, d: string)
    requires |secret| > 1 && |u| < |secret| && |z| < |secret| && |d| == |secret| - 1
    requires forall i | 0 <= i < |d| :: d[i] == x
    requires x != secret[0] && x != Last(secret)
    ensures !Contains(u + d + z, secret)
  {
    var n, message := |secret|, u + d + z;
    forall k | 0 <= k <= |message|
      ensures !(secret <= message[k..])
    {
      assert k < |u| ==> message[k + n - 1] == d[k + n - 1 - |u|];
      assert |u| <= k < |u| + |d| ==> message[k] == d[k - |u|];
    }
  }

  lemma RunStartsAt(u: string, z: string, x: char, d: string)
    requires d != "" && |u| <= |d| && |z| <= |d| && forall i | 0 <= i < |d| :: d[i] == x
    requires (u != "" ==> x != Last(u)) && (z != "" ==> x != z[0])
    ensures !Contains(z, d)
    ensures forall k | 0 <= k < |u| :: !(d <= (u + d + z)[k..])
  {
    var message := u + d + z;
    forall k | 0 <= k < |u|
      ensures !(d <= message[k..])
    {
      assert message[k..][|u| - 1 - k] == Last(u) != d[|u| - 1 - k];
    }
    forall k | 0 <= k <= |z|
      ensures !(d <= z[k..])
    {
      assert k == 0 && z != "" ==> z[k..][0] != d[0];
    }
  }

  lemma SpelledByMarker(secret: string) returns (secrets: set<string>, order: seq<string>, message: string)
    requires secret != "" && !Disentangled(secret)
    ensures LongestFirst(order, secrets) && secret in secrets && Contains(Filter(message, order), secret)
  {
    hide Disentangled, Contains, Filter, Replace;
    if Contains(REDACTED, secret) {
      secrets, order, message := {secret}, [secret], secret;
      ContainsItself(secret);
      MarkerTextStays(message, order, secret);
    } else {
      var u, z := Entangled(secret);
      if |secret| == 1 {
        SingleInMarker(secret);
        assert false;
      }
      var x := OtherChar(secret[0], Last(secret), if u == "" then secret[0] else Last(u), if z == "" then secret[0] else z[0]);
      var d := Repeated([x], |secret| - 1);
      RepeatedChar(x, |secret| - 1);
      RunBetween(secret, u, z, x, d);
      secrets, order, message := {secret, d}, [secret, d], u + d + z;
      ReplaceUnchanged(message, secret);
      FilterTwo(message, secret, d);
    }
  }

  lemma SingleInMarker(secret: string)
    requires |secret| == 1 && !Disentangled(secret)
    ensures Contains(REDACTED, secret)
  {
    var i, inside := EntangledAt(secret);
    if inside {
      assert secret[0..] == secret && secret <= REDACTED[0..];
    } else {
      assert secret <= REDACTED[i..];
    }
  }

  /** A secret is scrubbed from every message by every filter that holds it, whatever the other secrets are,
      exactly when it cannot share characters with the marker. */
  lemma ScrubbedByAnyFilterExactly(secret: string)
    requires secret != ""
    ensures (forall secrets: set<string>, order: seq<string>, message: string |
               LongestFirst(order, secrets) && secret in secrets :: !Contains(Filter(message, order), secret))
            <==> Disentangled(secret)
  {
    hide Disentangled, Contains, Filter;
    if Disentangled(secret) {
      forall secrets: set<string>, order: seq<string>, message: string | LongestFirst(order, secrets) && secret in secrets
        ensures !Contains(Filter(message, order), secret)
      {
        FilterScrubs(message, order, secret);
      }
    } else {
      var secrets, order, message := SpelledByMarker(secret);
      assert LongestFirst(order, secrets) && secret in secrets && Contains(Filter(message, order), secret);
    }
  }

  // ── why the longest come first ───────────────────────────────────────────────────────────

  lemma TooShort(message: string, t: string)
    requires |t| >= |message| && t != message
    ensures !Contains(message, t)
  {
    assert message[0..] == message;
    forall i | 0 <= i <= |message|
      ensures !(t <= message[i..])
    {
      assert i > 0 ==> |message[i..]| < |t|;
    }
  }

  /** A message that is a secret and nothing else becomes one marker, whatever other secrets it contains. */
  lemma {:induction false} WholeSecretHidden(order: seq<string>, secrets: set<string>, secret: string)
    requires LongestFirst(order, secrets) && secret in order
    requires forall s | s in order :: Disentangled(s)
    ensures Filter(secret, order) == REDACTED
    decreases |order|
  {
    hide Disentangled, Contains;
    assert order[0] in order;
    var rest := order[1..];
    assert forall s | s in rest :: s in order;
    if order[0] == secret {
      ReplaceWhole(secret);
      forall s | s in rest
        ensures !Contains(REDACTED, s)
      {
        MarkerFree(s);
      }
      FilterUnchanged(REDACTED, rest);
    } else {
      TooShort(secret, order[0]);
      ReplaceUnchanged(secret, order[0]);
      RestLongestFirst(order, secrets);
      hide LongestFirst;
      WholeSecretHidden(rest, secrets - {order[0]}, secret);
    }
  }

  lemma RestLongestFirst(order: seq<string>, secrets: set<string>)
    requires order != [] && LongestFirst(order, secrets)
    ensures LongestFirst(order[1..], secrets - {order[0]}) && forall s | s in order :: s == order[0] || s in order[1..]
    ensures forall s | s in order[1..] :: |order[0]| >= |s|
  {
    var rest := order[1..];
    assert order == [order[0]] + rest;
    assert forall i | 0 <= i < |rest| :: rest[i] == order[i + 1];
  }

  lemma ReplaceWhole(secret: string)
    requires secret != ""
    ensures Replace(secret, secret) == REDACTED
  {
    ReplaceStep(secret, secret);
    ReplaceStep(secret[|secret|..], secret);
  }

  lemma MarkerFree(s: string)
    requires Disentangled(s)
    ensures !Contains(REDACTED, s)
  {
    forall i | 0 <= i <= |REDACTED|
      ensures !(s <= REDACTED[i..])
    {
      if i < |REDACTED| {
        assert !Agree(s, REDACTED[i..]);
      }
    }
  }

  /** Where something was replaced, what starts the outcome ended before it. */
  lemma {:induction false} StartsShort(message: string, secret: string, t: string)
    requires secret != "" && t != "" && Contains(message, secret)
    requires forall i | 0 <= i < |t| :: !Agree(t[i..], REDACTED)
    requires t <= Replace(message, secret)
    ensures |t| + |secret| <= |message|
    decreases |message|
  {
    assert !Agree(t[0..], REDACTED) && t[0..] == t;
    var r := Replace(message, secret);
    if secret <= message {
      AgreeOfPrefixes(t, REDACTED, r);
    } else {
      ContainsTail(message, secret);
      var rest := t[1..];
      assert rest <= r[1..] == Replace(message[1..], secret);
      assert forall i | 0 <= i < |rest| :: rest[i..] == t[i + 1..];
      if rest != "" {
        StartsShort(message[1..], secret, rest);
      } else {
        ContainsLength(message[1..], secret);
      }
    }
  }

  lemma ContainsLength(message: string, t: string)
    requires Contains(message, t)
    ensures |t| <= |message|
  {
  }

  lemma ContainsTail(message: string, secret: string)
    requires Contains(message, secret) && !(secret <= message)
    ensures message != "" && Contains(message[1..], secret)
  {
    var i :| 0 <= i <= |message| && secret <= message[i..];
    assert message[0..] == message;
    assert message[1..][i - 1..] == message[i..];
  }

  /** Where something was replaced, what occurs in the outcome is shorter than the message by as much. */
  lemma {:induction false} OccursShort(message: string, secret: string, t: string, k: nat)
    requires secret != "" && Disentangled(t) && Contains(message, secret)
    requires k <= |Replace(message, secret)| && t <= Replace(message, secret)[k..]
    ensures |t| + |secret| <= |message|
    decreases |message|
  {
    var r := Replace(message, secret);
    if secret <= message {
      OccursPastMarker(message, secret, t, k);
    } else {
      ContainsTail(message, secret);
      if k == 0 {
        assert r[0..] == r;
        StartsShort(message, secret, t);
      } else {
        assert r[k..] == Replace(message[1..], secret)[k - 1..];
        OccursShort(message[1..], secret, t, k - 1);
      }
    }
  }

  lemma OccursPastMarker(message: string, secret: string, t: string, k: nat)
    requires secret != "" && Disentangled(t) && secret <= message
    requires k <= |Replace(message, secret)| && t <= Replace(message, secret)[k..]
    ensures |t| + |secret| <= |message|
  {
    var n, rest := |REDACTED|, message[|secret|..];
    var r := Replace(message, secret);
    if k < n {
      assert REDACTED[k..] <= r[k..];
      AgreeOfPrefixes(t, REDACTED[k..], r[k..]);
    } else {
      assert r[k..] == Replace(rest, secret)[k - n..];
      OccursBefore(rest, secret, t, k - n);
      ContainsLength(rest, t);
    }
  }

  /** A replacement in a longer message leaves more than the marker. */
  lemma {:induction false} ReplaceLeavesMore(message: string, secret: string)
    requires secret != "" && Contains(message, secret) && message != secret
    ensures |Replace(message, secret)| > |REDACTED|
    decreases |message|
  {
    if secret <= message {
      assert message[|secret|..] != "" by {
        assert message == secret + message[|secret|..];
      }
      ReplaceNotEmpty(message[|secret|..], secret);
    } else {
      ContainsTail(message, secret);
      if message[1..] == secret {
        ReplaceStep(secret, secret);
      } else {
        ReplaceLeavesMore(message[1..], secret);
      }
    }
  }

  lemma ReplaceNotEmpty(message: string, secret: string)
    requires secret != "" && message != ""
    ensures Replace(message, secret) != ""
  {
  }

  lemma RepeatedStep(short: string, rest: string, n: nat)
    requires short != "" && short + rest == Repeated(short, n)
    ensures n > 0 && rest == Repeated(short, n - 1)
  {
    assert n > 0;
    assert short + rest == short + Repeated(short, n - 1);
    assert rest == (short + rest)[|short|..];
  }

  /** A message without the marker in it becomes markers only exactly when it repeats the secret. */
  lemma {:induction false} OnlyMarkersExactly(message: string, secret: string, n: nat)
    requires secret != "" && !Contains(message, REDACTED)
    ensures Replace(message, secret) == Repeated(REDACTED, n) <==> message == Repeated(secret, n)
    decreases |message|
  {
    var r := Replace(message, secret);
    if message == "" {
      assert n > 0 ==> |Repeated(REDACTED, n)| > 0 && |Repeated(secret, n)| > 0;
    } else if secret <= message {
      var rest := message[|secret|..];
      assert message == secret + rest;
      if Contains(rest, REDACTED) {
        OccursInTail(message, |secret|, REDACTED);
      }
      if n > 0 {
        OnlyMarkersExactly(rest, secret, n - 1);
      }
      if r == Repeated(REDACTED, n) {
        RepeatedStep(REDACTED, Replace(rest, secret), n);
      }
      if message == Repeated(secret, n) {
        RepeatedStep(secret, rest, n);
      }
    } else {
      assert n > 0 ==> secret <= Repeated(secret, n);
      if n > 0 && r == Repeated(REDACTED, n) {
        KeptMarker(message, secret);
        assert false;
      }
    }
  }

  /** A marker at the front of the outcome whose first character was kept was there before. */
  lemma KeptMarker(message: string, secret: string)
    requires secret != "" && message != "" && !(secret <= message)
    requires REDACTED <= Replace(message, secret)
    ensures Contains(message, REDACTED)
  {
    hide Replace;
    var tail, rest := REDACTED[1..], Replace(message[1..], secret);
    ReplaceStep(message, secret);
    assert Replace(message, secret) == [message[0]] + rest;
    assert tail <= ([message[0]] + rest)[1..] == rest;
    TailRunsIntoNoMarker();
    StartsBefore(message[1..], secret, tail);
    assert message[0] == REDACTED[0] && message[0..] == [message[0]] + message[1..];
  }

  lemma TailRunsIntoNoMarker()
    ensures forall i | 0 <= i < |REDACTED[1..]| :: !Agree(REDACTED[1..][i..], REDACTED)
  {
    forall i | 0 <= i < |REDACTED[1..]|
      ensures !Agree(REDACTED[1..][i..], REDACTED)
    {
      assert REDACTED[1..][i] == REDACTED[i + 1] != '<';
      DisagreeAt(REDACTED[1..][i..], REDACTED, 0);
    }
  }

  /** With the shorter of two secrets first, a secret that contains another is not hidden as one: the shorter
      one is replaced inside it, and the longer one is then found no more. Something of it stays in the
      log exactly when it is not the shorter one repeated. */
  lemma ShortestFirstLeaves(long: string, short: string)
    requires Disentangled(long) && short != "" && short != long && Contains(long, short)
    ensures Filter(long, [short, long]) == Replace(long, short) != REDACTED
    ensures (exists n: nat :: Filter(long, [short, long]) == Repeated(REDACTED, n)) <==>
            (exists n: nat :: long == Repeated(short, n))
  {
    hide Contains, Disentangled, Repeated, Filter, Replace;
    ShorterOnly(long, short);
    HoldsNoMarker(long);
    var residue := Replace(long, short);
    if n: nat :| residue == Repeated(REDACTED, n) {
      OnlyMarkersExactly(long, short, n);
    }
    if n: nat :| long == Repeated(short, n) {
      OnlyMarkersExactly(long, short, n);
    }
  }

  lemma ShorterOnly(long: string, short: string)
    requires Disentangled(long) && short != "" && short != long && Contains(long, short)
    ensures Filter(long, [short, long]) == Replace(long, short) != REDACTED
  {
    hide Replace, Contains;
    FilterTwo(long, short, long);
    ReplaceLeavesMore(long, short);
    var residue := Replace(long, short);
    assert !Contains(residue, long) by { LongerIsGone(long, short); }
    ReplaceUnchanged(residue, long);
  }

  lemma HoldsNoMarker(t: string)
    requires Disentangled(t)
    ensures !Contains(t, REDACTED)
  {
    forall i | 0 <= i <= |t|
      ensures !(REDACTED <= t[i..])
    {
      if i < |t| {
        assert !Agree(t[i..], REDACTED);
      }
    }
  }

  lemma LongerIsGone(long: string, short: string)
    requires Disentangled(long) && short != "" && Contains(long, short)
    ensures !Contains(Replace(long, short), long)
  {
    hide Replace, Disentangled;
    var residue := Replace(long, short);
    forall k | 0 <= k <= |residue|
      ensures !(long <= residue[k..])
    {
      if long <= residue[k..] {
        OccursShort(long, short, long, k);
      }
    }
  }

  /** A secret with an angle bracket, put together by the marker of another one. */
  lemma MarkerCanSpellASecret()
    ensures LongestFirst(["x<", "y"], {"x<", "y"}) && !Disentangled("x<")
    ensures Contains(Filter("xy", ["x<", "y"]), "x<")
  {
    hide Replace, Filter;
    assert "x<"[1..] == "<" <= REDACTED;
    TooShort("xy", "x<");
    ReplaceUnchanged("xy", "x<");
    ReplaceStep("xy", "y");
    assert "xy"[1..] == "y";
    ReplaceStep("y", "y");
    ReplaceStep("y"[1..], "y");
    FilterTwo("xy", "x<", "y");
    assert "x<" <= Filter("xy", ["x<", "y"])[0..];
  }

  lemma FilterTwo(message: string, first: string, second: string)
    requires first != "" && second != ""
    ensures Filter(message, [first, second]) == Replace(Replace(message, first), second)
  {
    hide Replace;
    assert [first, second][1..] == [second];
    var one := Replace(message, first);
    assert Filter(message, [first, second]) == Filter(one, [second]);
    assert [second][1..] == [];
    assert Filter(one, [second]) == Filter(Replace(one, second), []);
  }
}
