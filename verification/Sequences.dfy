/**
 Options and the few facts about sequences that the rest of the project shares.
 */
module Sequences {

  datatype Option<+T> = None | Some(value: T) {
    function GetOr(default: T): T {
      match this
      case Some(v) => v
      case None => default
    }
  }

  function Flatten<T>(parts: seq<seq<T>>): seq<T> {
    if parts == [] then [] else parts[0] + Flatten(parts[1..])
  }

  lemma {:induction false} FlattenAppend<T>(a: seq<seq<T>>, b: seq<seq<T>>)
    ensures Flatten(a + b) == Flatten(a) + Flatten(b)
  {
    if a == [] {
      assert a + b == b;
    } else {
      assert (a + b)[1..] == a[1..] + b;
      FlattenAppend(a[1..], b);
    }
  }

  lemma FlattenSnoc<T>(a: seq<seq<T>>, x: seq<T>)
    ensures Flatten(a + [x]) == Flatten(a) + x
  {
    FlattenAppend(a, [x]);
    assert Flatten([x]) == x + Flatten([]);
  }

  function Last<T>(s: seq<T>): T
    requires s != []
  {
    s[|s| - 1]
  }

  lemma LastOfTail<T>(s: seq<T>)
    requires |s| > 1
    ensures Last(s[1..]) == Last(s)
  {
  }

  lemma Associative<T>(a: seq<T>, b: seq<T>, c: seq<T>)
    ensures a + (b + c) == (a + b) + c
  {
  }

  lemma DropDrop<T>(s: seq<T>, m: nat, n: nat)
    requires m + n <= |s|
    ensures s[m..][n..] == s[m + n..]
  {
  }

  lemma Regroup<T>(a: seq<T>, b: seq<T>, c: seq<T>, d: seq<T>)
    ensures a + b + c + d == a + (b + c + d)
    ensures a + b + c + d == (a + b) + (c + d)
  {
  }

  /** `a` is a prefix of `b` up to the length of the shorter one: neither contradicts the other. */
  predicate Agree<T(==)>(a: seq<T>, b: seq<T>) {
    a <= b || b <= a
  }

  predicate Contains<T(==)>(s: seq<T>, t: seq<T>) {
    exists i | 0 <= i <= |s| :: t <= s[i..]
  }

  /** `idx` names, in increasing order, the positions of `b` at which the elements of `a` stand. */
  ghost predicate Picks<T(!new)>(idx: seq<nat>, a: seq<T>, b: seq<T>) {
    && |idx| == |a|
    && (forall i, j | 0 <= i < j < |idx| :: idx[i] < idx[j])
    && (forall i | 0 <= i < |idx| :: idx[i] < |b| && a[i] == b[idx[i]])
  }

  /** `a` can be obtained from `b` by leaving elements out. */
  ghost predicate Subsequence<T(!new)>(a: seq<T>, b: seq<T>) {
    exists idx: seq<nat> :: Picks(idx, a, b)
  }

  lemma SubsequenceOfPrefix<T(!new)>(a: seq<T>, b: seq<T>)
    requires a <= b
    ensures Subsequence(a, b)
  {
    var idx: seq<nat> := seq(|a|, (i: nat) => i);
    assert Picks(idx, a, b);
  }

  lemma SubsequenceTransitive<T(!new)>(a: seq<T>, b: seq<T>, c: seq<T>)
    requires Subsequence(a, b) && Subsequence(b, c)
    ensures Subsequence(a, c)
  {
    var f: seq<nat> :| Picks(f, a, b);
    var g: seq<nat> :| Picks(g, b, c);
    var h: seq<nat> := seq(|a|, (i: int) requires 0 <= i < |a| => g[f[i]]);
    assert Picks(h, a, c);
  }

  lemma SubsequenceAppend<T(!new)>(a: seq<T>, b: seq<T>, c: seq<T>, d: seq<T>)
    requires Subsequence(a, b) && Subsequence(c, d)
    ensures Subsequence(a + c, b + d)
  {
    var f: seq<nat> :| Picks(f, a, b);
    var g: seq<nat> :| Picks(g, c, d);
    var shifted: seq<nat> := seq(|g|, (i: int) requires 0 <= i < |g| => g[i] + |b|);
    assert Picks(f + shifted, a + c, b + d);
  }
}
