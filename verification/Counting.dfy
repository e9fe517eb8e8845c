/** Counting and summing over sequences: how a shared counter relates to the threads it counts, and
    how totals relate to their parts.
 */
module Counting {

  function Count(b: seq<bool>): (n: nat)
    ensures n <= |b|
  {
    if b == [] then 0 else (if b[0] then 1 else 0) + Count(b[1..])
  }

  lemma {:induction false} CountUpdate(b: seq<bool>, i: nat, v: bool)
    requires i < |b|
    ensures Count(b[i := v]) == Count(b) - (if b[i] then 1 else 0) + (if v then 1 else 0)
  {
    if i == 0 {
      assert b[i := v][1..] == b[1..];
    } else {
      assert b[i := v][1..] == b[1..][i - 1 := v];
      CountUpdate(b[1..], i - 1, v);
    }
  }

  lemma {:induction false} CountAll(b: seq<bool>)
    ensures Count(b) == |b| <==> forall i :: 0 <= i < |b| ==> b[i]
  {
    if b != [] {
      CountAll(b[1..]);
      if Count(b) == |b| {
        forall i | 0 <= i < |b| ensures b[i] { if i > 0 { assert b[i] == b[1..][i - 1]; } }
      }
    }
  }

  lemma {:induction false} CountNone(b: seq<bool>)
    ensures Count(b) == 0 <==> forall i :: 0 <= i < |b| ==> !b[i]
  {
    if b != [] {
      CountNone(b[1..]);
      if Count(b) == 0 {
        forall i | 0 <= i < |b| ensures !b[i] { if i > 0 { assert b[i] == b[1..][i - 1]; } }
      }
    }
  }

  /** As many entries are true as there are places of true entries. */
  lemma {:induction false} CountIsSize(b: seq<bool>, s: set<nat>)
    requires forall i: nat :: i in s <==> i < |b| && b[i]
    ensures Count(b) == |s|
    decreases |b|
  {
    if b == [] {
      assert s == {};
    } else {
      var k := |b| - 1;
      CountAppend(b[..k], b[k]);
      assert b == b[..k] + [b[k]];
      CountIsSize(b[..k], s - {k});
    }
  }

  lemma {:induction false} CountAppend(b: seq<bool>, v: bool)
    ensures Count(b + [v]) == Count(b) + (if v then 1 else 0)
  {
    if b != [] {
      assert (b + [v])[1..] == b[1..] + [v];
      CountAppend(b[1..], v);
    }
  }

  function SumInt(s: seq<int>): int
  {
    if s == [] then 0 else SumInt(s[..|s| - 1]) + s[|s| - 1]
  }

  lemma SumSnoc(s: seq<int>, v: int)
    ensures SumInt(s + [v]) == SumInt(s) + v
  {
    assert (s + [v])[..|s|] == s;
  }

  lemma {:induction false} SumUpdate(s: seq<int>, i: nat, v: int)
    requires i < |s|
    ensures SumInt(s[i := v]) == SumInt(s) - s[i] + v
    decreases |s|
  {
    var k := |s| - 1;
    if i == k {
      assert s[i := v][..k] == s[..k];
    } else {
      assert s[i := v][..k] == s[..k][i := v];
      SumUpdate(s[..k], i, v);
    }
  }

  /** The sum of natural numbers. */
  function Sum(s: seq<nat>): nat { SumNatural(s); SumInt(s) }

  lemma {:induction false} SumNatural(s: seq<nat>)
    ensures SumInt(s) >= 0
    decreases |s|
  {
    if s != [] { SumNatural(s[..|s| - 1]); }
  }

  function SetOf(names: seq<string>): set<string> { set i | 0 <= i < |names| :: names[i] }
}
