/** Polynomials through given points modulo a prime: what the random coefficients of
    `share_threshold` can make of the values at fewer points than there are coefficients.
 */
module Polynomials {
  import opened Arithmetic
  import opened Field
  import opened Lagrange

  function Zeros(n: nat): (s: seq<int>)
    ensures |s| == n
  {
    seq(n, _ => 0)
  }

  lemma {:induction false} ZerosEval(n: nat, x: int)
    ensures Eval(Zeros(n), x) == 0
  {
    if n > 0 {
      assert Zeros(n)[1..] == Zeros(n - 1);
      ZerosEval(n - 1, x);
    }
  }

  /** b + c v, coefficient by coefficient. */
  function AddTimes(b: seq<int>, c: int, v: seq<int>): (r: seq<int>)
    requires |v| <= |b|
    ensures |r| == |b|
  {
    if v == [] then b else [b[0] + c * v[0]] + AddTimes(b[1..], c, v[1..])
  }

  lemma {:induction false} AddTimesEval(b: seq<int>, c: int, v: seq<int>, x: int)
    requires |v| <= |b|
    ensures Eval(AddTimes(b, c, v), x) == Eval(b, x) + c * Eval(v, x)
  {
    if v != [] {
      AddTimesEval(b[1..], c, v[1..], x);
      var r := AddTimes(b, c, v);
      assert r[1..] == AddTimes(b[1..], c, v[1..]);
      AddTimesStep(b[0], c, v[0], x, Eval(b[1..], x), Eval(v[1..], x));
    }
  }

  lemma AddTimesStep(b: int, c: int, v: int, x: int, e: int, f: int)
    ensures (b + c * v) + x * (e + c * f) == (b + x * e) + c * (v + x * f)
  {
    assert x * (c * f) == c * (x * f);
  }

  /** v times x - z. */
  function TimesRoot(v: seq<int>, z: int): (r: seq<int>)
    ensures |r| == |v| + 1
  {
    AddTimes([0] + v, -z, v)
  }

  lemma TimesRootEval(v: seq<int>, z: int, x: int)
    ensures Eval(TimesRoot(v, z), x) == (x - z) * Eval(v, x)
  {
    AddTimesEval([0] + v, -z, v, x);
    assert ([0] + v)[1..] == v;
    assert x * Eval(v, x) + (-z) * Eval(v, x) == (x - z) * Eval(v, x);
  }

  /** The product of the x - p. */
  function Vanish(pts: seq<int>): (v: seq<int>)
    ensures |v| == |pts| + 1
  {
    if pts == [] then [1] else TimesRoot(Vanish(pts[1..]), pts[0])
  }

  lemma {:induction false} VanishesAt(pts: seq<int>, i: nat)
    requires i < |pts|
    ensures Eval(Vanish(pts), pts[i]) == 0
  {
    TimesRootEval(Vanish(pts[1..]), pts[0], pts[i]);
    if i > 0 {
      VanishesAt(pts[1..], i - 1);
      assert pts[1..][i - 1] == pts[i];
    }
  }

  lemma {:induction false} VanishNonzero(pts: seq<int>, z: int, q: nat)
    requires Prime(q) && forall i :: 0 <= i < |pts| ==> (z - pts[i]) % q != 0
    ensures Eval(Vanish(pts), z) % q != 0
  {
    if pts == [] {
      assert [1][1..] == [];
      RemainderUnique(1, 0, 1, q);
    } else {
      forall i | 0 <= i < |pts[1..]| ensures (z - pts[1..][i]) % q != 0 { assert pts[1..][i] == pts[i + 1]; }
      VanishNonzero(pts[1..], z, q);
      TimesRootEval(Vanish(pts[1..]), pts[0], z);
      NonzeroProduct(z - pts[0], Eval(Vanish(pts[1..]), z), q);
    }
  }

  /** With more coefficients than points, the value at one further place can be moved at will. */
  lemma Adjust(b: seq<int>, pts: seq<int>, z: int, v: int, q: nat) returns (r: seq<int>)
    requires Prime(q) && |pts| < |b| && forall i :: 0 <= i < |pts| ==> (z - pts[i]) % q != 0
    ensures |r| == |b| && Cong(Eval(r, z), v, q)
    ensures forall i :: 0 <= i < |pts| ==> Eval(r, pts[i]) == Eval(b, pts[i])
  {
    var d := Vanish(pts);
    var e, s := Eval(d, z), v - Eval(b, z);
    VanishNonzero(pts, z, q);
    var c := s * Inverse(e, q);
    r := AddTimes(b, c, d);
    AddTimesEval(b, c, d, z);
    AdjustValue(Eval(b, z), v, e, q);
    forall i | 0 <= i < |pts| ensures Eval(r, pts[i]) == Eval(b, pts[i]) {
      AddTimesEval(b, c, d, pts[i]);
      VanishesAt(pts, i);
    }
  }

  lemma AdjustValue(b: int, v: int, e: int, q: nat)
    requires Prime(q) && e % q != 0
    ensures Cong(b + (v - b) * Inverse(e, q) * e, v, q)
  {
    var i := Inverse(e, q);
    InverseOk(e, q);
    CongMul(v - b, v - b, e * i, 1, q);
    assert (v - b) * i * e == (v - b) * (e * i);
    CongAdd(b, b, (v - b) * i * e, (v - b) * 1, q);
  }

  /** A polynomial with as many coefficients as points, or more, can take any values there. */
  lemma {:induction false} Through(pts: seq<int>, vals: seq<int>, t: nat, q: nat) returns (b: seq<int>)
    requires Prime(q) && |vals| == |pts| <= t && Distinct(pts, q)
    ensures |b| == t && forall i :: 0 <= i < |pts| ==> Cong(Eval(b, pts[i]), vals[i], q)
    decreases |pts|
  {
    if pts == [] {
      b := Zeros(t);
    } else {
      var k := |pts| - 1;
      var front := pts[..k];
      assert pts == front + [pts[k]];
      DistinctParts(front, pts[k], q);
      b := Through(front, vals[..k], t, q);
      forall i | 0 <= i < k ensures (pts[k] - front[i]) % q != 0 { NegNonzero(pts[i] - pts[k], q); }
      var before := b;
      b := Adjust(before, front, pts[k], vals[k], q);
      forall i | 0 <= i < |pts| ensures Cong(Eval(b, pts[i]), vals[i], q) {
        if i < k { assert front[i] == pts[i] && vals[..k][i] == vals[i]; }
      }
    }
  }

  // ---------------------------------------------------------------- coefficients modulo q

  predicate Reduced(s: seq<int>, q: int) { forall i :: 0 <= i < |s| ==> 0 <= s[i] < q }

  function Reduce(s: seq<int>, q: nat): (r: seq<int>)
    requires q > 0
    ensures |r| == |s| && Reduced(r, q)
  {
    seq(|s|, i requires 0 <= i < |s| => s[i] % q)
  }

  predicate CongAll(r: seq<int>, s: seq<int>, q: nat)
    requires q > 0
  {
    |r| == |s| && forall i :: 0 <= i < |s| ==> Cong(r[i], s[i], q)
  }

  lemma ReduceCong(s: seq<int>, q: nat)
    requires q > 0
    ensures CongAll(Reduce(s, q), s, q)
  {
    forall i | 0 <= i < |s| ensures Cong(Reduce(s, q)[i], s[i], q) { CongMod(s[i], q); }
  }

  /** Congruent coefficients give congruent values. */
  lemma {:induction false} EvalCong(r: seq<int>, s: seq<int>, x: int, q: nat)
    requires q > 0 && CongAll(r, s, q)
    ensures Cong(Eval(r, x), Eval(s, x), q)
  {
    if r != [] {
      EvalCong(r[1..], s[1..], x, q);
      var e, f := Eval(r[1..], x), Eval(s[1..], x);
      CongMul(x, x, e, f, q);
      CongAdd(r[0], s[0], x * e, x * f, q);
    }
  }

  /** A constant term congruent to a, and the other coefficients reduced. */
  lemma FreeCoefficients(b: seq<int>, a: int, q: nat) returns (own: seq<int>)
    requires q > 0 && b != [] && Cong(b[0], a, q)
    ensures |own| == |b| - 1 && Reduced(own, q) && CongAll([a] + own, b, q)
  {
    own := Reduce(b[1..], q);
    ReduceCong(b[1..], q);
    forall i | 0 <= i < |b| ensures Cong(([a] + own)[i], b[i], q) {
      if i > 0 { assert ([a] + own)[i] == own[i - 1] && b[1..][i - 1] == b[i]; }
    }
  }

  /** Fewer points than the threshold see anything: for every secret a there are coefficients, drawn
      from the field, that give any chosen values at any distinct points that are not 0. */
  lemma AnyValues(a: int, pts: seq<int>, vals: seq<int>, t: nat, q: nat) returns (own: seq<int>)
    requires Prime(q) && |vals| == |pts| < t
    requires Distinct(pts, q) && forall i :: 0 <= i < |pts| ==> pts[i] % q != 0
    ensures |own| == t - 1 && Reduced(own, q)
    ensures forall i :: 0 <= i < |pts| ==> Cong(Eval([a] + own, pts[i]), vals[i], q)
  {
    var all, want := pts + [0], vals + [a];
    forall i, j | 0 <= i < j < |all| ensures (all[i] - all[j]) % q != 0 {}
    var b := Through(all, want, t, q);
    assert all[|pts|] == 0 && want[|pts|] == a && Eval(b, 0) == b[0];
    own := FreeCoefficients(b, a, q);
    forall i | 0 <= i < |pts| ensures Cong(Eval([a] + own, pts[i]), vals[i], q) {
      EvalCong([a] + own, b, pts[i], q);
      assert all[i] == pts[i] && want[i] == vals[i];
    }
  }
}
