/** Polynomial evaluation and Lagrange interpolation modulo a prime (`horner_poly`,
    `lagrange_basis`, `lagrange_partial_interpolate`). The main result is that interpolation
    reproduces every polynomial with no more coefficients than there are points.
 */
module Lagrange {
  import opened Arithmetic
  import opened Field

  // ---------------------------------------------------------------- polynomials

  /** b[0] + b[1] x + b[2] x^2 + ... over the integers. */
  function Eval(b: seq<int>, x: int): int
  {
    if b == [] then 0 else b[0] + x * Eval(b[1..], x)
  }

  /** horner_poly: the loop's value is Eval modulo q, and a single coefficient is returned as is. */
  method Horner(q: nat, b: seq<int>, x: int) returns (r: int)
    requires q > 0 && b != []
    ensures Cong(r, Eval(b, x), q)
    ensures |b| == 1 ==> r == b[0]
    ensures |b| > 1 ==> 0 <= r < q
  {
    var i := |b| - 1;
    r := b[i];
    assert b[i..][1..] == [];
    while i > 0
      invariant 0 <= i < |b| && Cong(r, Eval(b[i..], x), q)
      invariant i == |b| - 1 ==> r == b[i]
      invariant i < |b| - 1 ==> 0 <= r < q
    {
      i := i - 1;
      assert b[i..][1..] == b[i + 1..];
      HornerStep(q, b[i], r, Eval(b[i + 1..], x), x);
      r := (b[i] + r * x) % q;
    }
    assert b[0..] == b;
  }

  lemma HornerStep(q: nat, c: int, r: int, e: int, x: int)
    requires q > 0 && Cong(r, e, q)
    ensures Cong((c + r * x) % q, c + x * e, q)
  {
    CongMul(r, e, x, x, q);
    CongAdd(c, c, r * x, e * x, q);
    CongMod(c + r * x, q);
  }

  /** Synthetic division by x - z. */
  function Quotient(b: seq<int>, z: int): (d: seq<int>)
    ensures |d| == if b == [] then 0 else |b| - 1
  {
    if |b| <= 1 then [] else [Eval(b[1..], z)] + Quotient(b[1..], z)
  }

  lemma {:induction false} DivideByRoot(b: seq<int>, z: int, x: int)
    ensures Eval(b, x) == Eval(b, z) + (x - z) * Eval(Quotient(b, z), x)
  {
    if |b| == 1 {
      assert b[1..] == [];
    } else if |b| > 1 {
      DivideByRoot(b[1..], z, x);
      var pz, d := Eval(b[1..], z), Eval(Quotient(b[1..], z), x);
      assert Quotient(b, z)[1..] == Quotient(b[1..], z);
      DivisionStep(x, z, pz, d);
    }
  }

  lemma DivisionStep(x: int, z: int, p: int, d: int)
    ensures x * (p + (x - z) * d) == z * p + (x - z) * (p + x * d)
  {
    assert (x - z) * (x * d) == x * ((x - z) * d);
    assert (x - z) * p == x * p - z * p;
  }

  // ---------------------------------------------------------------- basis

  /** The products over the points other than `cur`. */
  function Numerator(x: int, pts: seq<int>, cur: int): int
  {
    if pts == [] then 1
    else
      var last := pts[|pts| - 1];
      Numerator(x, pts[..|pts| - 1], cur) * (if last == cur then 1 else x - last)
  }

  function Denominator(pts: seq<int>, cur: int): int
  {
    Numerator(cur, pts, cur)
  }

  function Basis(x: int, pts: seq<int>, cur: int, q: nat): (r: nat)
    requires q > 0
    ensures r < q
  {
    (Numerator(x, pts, cur) * Inverse(Denominator(pts, cur), q)) % q
  }

  lemma InverseMod(a: int, q: nat)
    requires q > 0
    ensures Inverse(a % q, q) == Inverse(a, q)
  {
    CongMod(a, q);
  }

  /** lagrange_basis: a loop over the points that reduces after every operation. */
  method LagrangeBasis(x: int, pts: seq<int>, cur: int, q: nat) returns (r: nat)
    requires q > 0
    ensures r == Basis(x, pts, cur, q)
  {
    var num, den := 1, 1;
    for j := 0 to |pts|
      invariant Cong(num, Numerator(x, pts[..j], cur), q)
      invariant Cong(den, Denominator(pts[..j], cur), q)
    {
      assert pts[..j + 1][..j] == pts[..j];
      if cur != pts[j] {
        ReduceProduct(num, Numerator(x, pts[..j], cur), x - pts[j], q);
        ReduceProduct(den, Denominator(pts[..j], cur), cur - pts[j], q);
        num := (num * ((x - pts[j]) % q)) % q;
        den := (den * ((cur - pts[j]) % q)) % q;
      }
    }
    assert pts[..|pts|] == pts;
    InverseMod(den, q);
    InverseMod(Denominator(pts, cur), q);
    CongMul(num, Numerator(x, pts, cur), Inverse(den, q), Inverse(den, q), q);
    r := (num * Inverse(den, q)) % q;
  }

  lemma ReduceProduct(a: int, a': int, b: int, q: nat)
    requires q > 0 && Cong(a, a', q)
    ensures Cong((a * (b % q)) % q, a' * b, q)
  {
    CongMod(b, q);
    CongMul(a, a', b % q, b, q);
    CongMod(a * (b % q), q);
  }

  function Dot(u: seq<int>, w: seq<int>): int
    requires |u| == |w|
  {
    if u == [] then 0 else Dot(u[..|u| - 1], w[..|w| - 1]) + u[|u| - 1] * w[|w| - 1]
  }

  function Bases(x: int, all: seq<int>, pts: seq<int>, q: nat): (s: seq<int>)
    requires q > 0
    ensures |s| == |pts|
  {
    seq(|pts|, j requires 0 <= j < |pts| => Basis(x, all, pts[j], q))
  }

  lemma AddReduced(r: int, e: int, t: int, q: nat)
    requires q > 0 && Cong(r, e, q)
    ensures Cong((r + t % q) % q, e + t, q)
  {
    CongMod(t, q);
    CongAdd(r, e, t % q, t, q);
    CongMod(r + t % q, q);
  }

  /** One more term of a dot product, reduced. */
  lemma DotNext(shares: seq<int>, w: seq<int>, i: nat, lambda: int, r: int, q: nat)
    requires q > 0 && i < |shares| && i < |w| && w[i] == lambda && Cong(r, Dot(shares[..i], w[..i]), q)
    ensures Cong((r + (lambda * shares[i]) % q) % q, Dot(shares[..i + 1], w[..i + 1]), q)
  {
    var d := Dot(shares[..i], w[..i]);
    assert shares[..i + 1][..i] == shares[..i] && w[..i + 1][..i] == w[..i];
    assert Dot(shares[..i + 1], w[..i + 1]) == d + shares[i] * lambda;
    AddReduced(r, d, lambda * shares[i], q);
  }

  /** lagrange_partial_interpolate: shares at some of the points, the basis over all of them. */
  method PartialInterpolate(x: int, shares: seq<int>, pts: seq<int>, all: seq<int>, q: nat) returns (r: nat)
    requires q > 0 && |shares| == |pts|
    ensures r < q && Cong(r, Dot(shares, Bases(x, all, pts, q)), q)
  {
    ghost var w := Bases(x, all, pts, q);
    r := 0;
    for i := 0 to |shares|
      invariant r < q && Cong(r, Dot(shares[..i], w[..i]), q)
    {
      var lambda := LagrangeBasis(x, all, pts[i], q);
      DotNext(shares, w, i, lambda, r, q);
      r := (r + (lambda * shares[i]) % q) % q;
    }
    assert shares[..|shares|] == shares && w[..|shares|] == w;
  }

  // ---------------------------------------------------------------- adding and removing a point

  /** Different points are different modulo q. */
  predicate Distinct(pts: seq<int>, q: nat)
    requires q > 0
  {
    forall i, j :: 0 <= i < j < |pts| ==> (pts[i] - pts[j]) % q != 0
  }

  /** cur is different modulo q from every point that is not cur itself. */
  predicate Apart(cur: int, pts: seq<int>, q: nat)
    requires q > 0
  {
    forall i :: 0 <= i < |pts| && pts[i] != cur ==> (cur - pts[i]) % q != 0
  }

  lemma {:induction false} DenominatorNonzero(cur: int, pts: seq<int>, q: nat)
    requires Prime(q) && Apart(cur, pts, q)
    ensures Denominator(pts, cur) % q != 0
    decreases |pts|
  {
    if pts != [] {
      var last := |pts| - 1;
      DenominatorNonzero(cur, pts[..last], q);
      if pts[last] != cur { NonzeroProduct(Denominator(pts[..last], cur), cur - pts[last], q); }
    }
  }

  lemma {:induction false} NumeratorCons(x: int, p: int, pts: seq<int>, cur: int)
    requires p != cur
    ensures Numerator(x, [p] + pts, cur) == Numerator(x, pts, cur) * (x - p)
    decreases |pts|
  {
    var all := [p] + pts;
    if pts == [] {
      assert all[..0] == [];
    } else {
      var last := |pts| - 1;
      assert all[..|all| - 1] == [p] + pts[..last] && all[|all| - 1] == pts[last];
      NumeratorCons(x, p, pts[..last], cur);
      var n, c := Numerator(x, pts[..last], cur), if pts[last] == cur then 1 else x - pts[last];
      assert n * (x - p) * c == n * c * (x - p);
    }
  }

  lemma NumeratorSnoc(x: int, p: int, pts: seq<int>, cur: int)
    requires p != cur
    ensures Numerator(x, pts + [p], cur) == Numerator(x, pts, cur) * (x - p)
  {
    assert (pts + [p])[..|pts|] == pts;
  }

  /** The basis value is the fraction of the two products. */
  lemma BasisFraction(x: int, pts: seq<int>, cur: int, q: nat)
    requires Prime(q) && Apart(cur, pts, q)
    ensures Cong(Basis(x, pts, cur, q) * Denominator(pts, cur), Numerator(x, pts, cur), q)
  {
    var n, d := Numerator(x, pts, cur), Denominator(pts, cur);
    var i := Inverse(d, q);
    DenominatorNonzero(cur, pts, q);
    InverseOk(d, q);
    CongMod(n * i, q);
    CongMul((n * i) % q, n * i, d, d, q);
    CongMul(n, n, d * i, 1, q);
    assert n * i * d == n * (d * i);
  }

  /** Adding a point p multiplies the basis value of cur by (x - p) / (cur - p). */
  lemma BasisGrows(x: int, pts: seq<int>, more: seq<int>, p: int, cur: int, q: nat)
    requires Prime(q) && Apart(cur, pts, q) && Apart(cur, more, q)
    requires forall y :: Numerator(y, more, cur) == Numerator(y, pts, cur) * (y - p)
    ensures Cong((cur - p) * Basis(x, more, cur, q), (x - p) * Basis(x, pts, cur, q), q)
  {
    var b, b', d := Basis(x, pts, cur, q), Basis(x, more, cur, q), Denominator(pts, cur);
    BasisFraction(x, pts, cur, q);
    BasisFraction(x, more, cur, q);
    DenominatorNonzero(cur, pts, q);
    FractionGrows(b, b', d, Numerator(x, pts, cur), x - p, cur - p, q);
  }

  lemma FractionGrows(b: int, b': int, d: int, n: int, s: int, t: int, q: nat)
    requires Prime(q) && d % q != 0 && Cong(b * d, n, q) && Cong(b' * (d * t), n * s, q)
    ensures Cong(t * b', s * b, q)
  {
    CongMul(b * d, n, s, s, q);
    assert b' * (d * t) == d * (t * b') && b * d * s == d * (s * b);
    Cancel(d, t * b', s * b, q);
  }

  /** v scaled by the distance of each point from p. */
  function Scaled(pts: seq<int>, p: int, v: seq<int>): (s: seq<int>)
    requires |pts| == |v|
    ensures |s| == |v|
  {
    seq(|v|, j requires 0 <= j < |v| => (pts[j] - p) * v[j])
  }

  /** One term: removing p from the basis. */
  predicate Removes(x: int, all: seq<int>, p: int, rest: seq<int>, cur: int, q: nat)
    requires q > 0
  {
    Cong((cur - p) * Basis(x, all, cur, q), (x - p) * Basis(x, rest, cur, q), q)
  }

  lemma {:induction false} RemovePoint(x: int, all: seq<int>, p: int, rest: seq<int>, pts: seq<int>, v: seq<int>,
                                       q: nat)
    requires q > 0 && |pts| == |v|
    requires forall j :: 0 <= j < |pts| ==> Removes(x, all, p, rest, pts[j], q)
    ensures Cong(Dot(Scaled(pts, p, v), Bases(x, all, pts, q)), (x - p) * Dot(v, Bases(x, rest, pts, q)), q)
    decreases |pts|
  {
    if pts != [] {
      var k := |pts| - 1;
      RemovePoint(x, all, p, rest, pts[..k], v[..k], q);
      var a, r := Bases(x, all, pts, q), Bases(x, rest, pts, q);
      assert Scaled(pts, p, v)[..k] == Scaled(pts[..k], p, v[..k]);
      assert a[..k] == Bases(x, all, pts[..k], q) && r[..k] == Bases(x, rest, pts[..k], q);
      var t, u := (pts[k] - p) * v[k] * a[k], (x - p) * (v[k] * r[k]);
      LastTerm(pts[k] - p, x - p, v[k], a[k], r[k], q);
      CongAdd(Dot(Scaled(pts, p, v)[..k], a[..k]), (x - p) * Dot(v[..k], r[..k]), t, u, q);
      assert (x - p) * (Dot(v[..k], r[..k]) + v[k] * r[k]) == (x - p) * Dot(v[..k], r[..k]) + u;
    }
  }

  lemma LastTerm(c: int, d: int, v: int, a: int, r: int, q: nat)
    requires q > 0 && Cong(c * a, d * r, q)
    ensures Cong(c * v * a, d * (v * r), q)
  {
    CongMul(c * a, d * r, v, v, q);
    assert c * a * v == c * v * a && d * r * v == d * (v * r);
  }

  // ---------------------------------------------------------------- interpolation

  function Ones(n: nat): (s: seq<int>) ensures |s| == n { seq(n, _ => 1) }

  function Values(b: seq<int>, pts: seq<int>): (s: seq<int>)
    ensures |s| == |pts|
  {
    seq(|pts|, j requires 0 <= j < |pts| => Eval(b, pts[j]))
  }

  /** Dot is linear in its first argument. */
  lemma {:induction false} DotLinear(u: seq<int>, v: seq<int>, c: int, t: seq<int>, w: seq<int>)
    requires |u| == |v| == |t| == |w| && forall j :: 0 <= j < |u| ==> t[j] == u[j] + c * v[j]
    ensures Dot(t, w) == Dot(u, w) + c * Dot(v, w)
    decreases |u|
  {
    if u != [] {
      var k := |u| - 1;
      DotLinear(u[..k], v[..k], c, t[..k], w[..k]);
      assert (u[k] + c * v[k]) * w[k] == u[k] * w[k] + c * (v[k] * w[k]);
      assert c * (Dot(v[..k], w[..k]) + v[k] * w[k]) == c * Dot(v[..k], w[..k]) + c * (v[k] * w[k]);
    }
  }

  lemma {:induction false} DotCons(a: int, u: seq<int>, b: int, w: seq<int>)
    requires |u| == |w|
    ensures Dot([a] + u, [b] + w) == a * b + Dot(u, w)
    decreases |u|
  {
    var p, r := [a] + u, [b] + w;
    if u == [] {
      assert p[..0] == [] && r[..0] == [];
    } else {
      var k := |u| - 1;
      DotCons(a, u[..k], b, w[..k]);
      assert p[..|p| - 1] == [a] + u[..k] && r[..|r| - 1] == [b] + w[..k];
    }
  }

  lemma DistinctFront(front: seq<int>, z: int, q: nat)
    requires q > 0 && Distinct(front + [z], q)
    ensures Distinct(front, q)
  {
    var pts := front + [z];
    forall i, j | 0 <= i < j < |front| ensures (front[i] - front[j]) % q != 0 {
      assert pts[i] == front[i] && pts[j] == front[j];
    }
  }

  lemma FrontApart(front: seq<int>, z: int, j: nat, q: nat)
    requires q > 0 && Distinct(front + [z], q) && j < |front|
    ensures Apart(front[j], front, q) && front[j] != z
  {
    var pts := front + [z];
    assert pts[j] == front[j] && pts[|front|] == z;
    DistinctFront(front, z, q);
    forall i | 0 <= i < |front| && front[i] != front[j] ensures (front[j] - front[i]) % q != 0 {
      if i < j { NegNonzero(front[i] - front[j], q); }
    }
  }

  lemma DistinctParts(front: seq<int>, z: int, q: nat)
    requires q > 0 && Distinct(front + [z], q)
    ensures Distinct(front, q) && forall j :: 0 <= j < |front| ==> Apart(front[j], front, q) && front[j] != z
  {
    DistinctFront(front, z, q);
    forall j | 0 <= j < |front| ensures Apart(front[j], front, q) && front[j] != z { FrontApart(front, z, j, q); }
  }

  lemma NegNonzero(a: int, q: nat)
    requires q > 0 && a % q != 0
    ensures (-a) % q != 0
  {
    if (-a) % q == 0 {
      var k := (-a) / q;
      assert a == (-k) * q + 0;
      RemainderUnique(a, -k, 0, q);
    }
  }

  /** Scaling by the distance from the last point interpolates on the other points. */
  lemma DropLast(x: int, front: seq<int>, z: int, v: seq<int>, q: nat)
    requires Prime(q) && |v| == |front| + 1 && Distinct(front + [z], q)
    ensures var pts := front + [z];
            Cong(Dot(Scaled(pts, z, v), Bases(x, pts, pts, q)),
                 (x - z) * Dot(v[..|front|], Bases(x, front, front, q)), q)
  {
    var pts, k := front + [z], |front|;
    forall j | 0 <= j < k ensures Removes(x, pts, z, front, front[j], q) { LastRemoved(x, front, z, j, q); }
    RemovePoint(x, pts, z, front, front, v[..k], q);
    var s, w := Scaled(pts, z, v), Bases(x, pts, pts, q);
    assert s[..k] == Scaled(front, z, v[..k]) && w[..k] == Bases(x, pts, front, q);
    assert s[k] == 0 by { assert (z - z) * v[k] == 0; }
    DotZeroLast(s, w);
  }

  lemma LastRemoved(x: int, front: seq<int>, z: int, j: nat, q: nat)
    requires Prime(q) && Distinct(front + [z], q) && j < |front|
    ensures Removes(x, front + [z], z, front, front[j], q)
  {
    var pts := front + [z];
    DistinctParts(front, z, q);
    forall y ensures Numerator(y, pts, front[j]) == Numerator(y, front, front[j]) * (y - z) {
      NumeratorSnoc(y, z, front, front[j]);
    }
    ApartMore(pts, j, q);
    BasisGrows(x, front, pts, z, front[j], q);
  }

  lemma DotZeroLast(s: seq<int>, w: seq<int>)
    requires |s| == |w| > 0 && s[|s| - 1] == 0
    ensures Dot(s, w) == Dot(s[..|s| - 1], w[..|s| - 1])
  {
    assert s[|s| - 1] * w[|s| - 1] == 0;
  }

  lemma ApartMore(pts: seq<int>, j: nat, q: nat)
    requires q > 0 && j < |pts| && Distinct(pts, q)
    ensures Apart(pts[j], pts, q)
  {
    forall i | 0 <= i < |pts| && pts[i] != pts[j] ensures (pts[j] - pts[i]) % q != 0 {
      if i < j { NegNonzero(pts[i] - pts[j], q); }
    }
  }

  /** The same for the first point. */
  lemma FirstRemoved(x: int, a: int, rest: seq<int>, j: nat, q: nat)
    requires Prime(q) && Distinct([a] + rest, q) && Distinct(rest, q) && j < |rest| && rest[j] != a
    ensures Removes(x, [a] + rest, a, rest, rest[j], q)
  {
    var pts := [a] + rest;
    forall y ensures Numerator(y, pts, rest[j]) == Numerator(y, rest, rest[j]) * (y - a) {
      NumeratorCons(y, a, rest, rest[j]);
    }
    ApartMore(pts, j + 1, q);
    ApartMore(rest, j, q);
    BasisGrows(x, rest, pts, a, rest[j], q);
  }

  lemma DropFirst(x: int, a: int, rest: seq<int>, v: seq<int>, q: nat)
    requires Prime(q) && |v| == |rest| + 1 && Distinct([a] + rest, q)
    ensures var pts := [a] + rest;
            Cong(Dot(Scaled(pts, a, v), Bases(x, pts, pts, q)),
                 (x - a) * Dot(v[1..], Bases(x, rest, rest, q)), q)
  {
    var pts := [a] + rest;
    DistinctTail(a, rest, q);
    forall j | 0 <= j < |rest| ensures Removes(x, pts, a, rest, rest[j], q) { FirstRemoved(x, a, rest, j, q); }
    RemovePoint(x, pts, a, rest, rest, v[1..], q);
    var s, w := Scaled(pts, a, v), Bases(x, pts, pts, q);
    assert s == [0] + Scaled(rest, a, v[1..]) by { assert (a - a) * v[0] == 0; }
    assert w == [w[0]] + Bases(x, pts, rest, q);
    DotCons(0, Scaled(rest, a, v[1..]), w[0], Bases(x, pts, rest, q));
  }

  lemma DistinctTail(a: int, rest: seq<int>, q: nat)
    requires q > 0 && Distinct([a] + rest, q)
    ensures Distinct(rest, q) && forall j :: 0 <= j < |rest| ==> rest[j] != a
  {
    var pts := [a] + rest;
    forall j | 0 <= j < |rest| ensures rest[j] != a { assert pts[0] == a && pts[j + 1] == rest[j]; }
    forall i, j | 0 <= i < j < |rest| ensures (rest[i] - rest[j]) % q != 0 {
      assert pts[i + 1] == rest[i] && pts[j + 1] == rest[j];
    }
  }

  /** The basis values add up to 1. */
  lemma {:induction false} BasisSum(x: int, pts: seq<int>, q: nat)
    requires Prime(q) && pts != [] && Distinct(pts, q)
    ensures Cong(Dot(Ones(|pts|), Bases(x, pts, pts, q)), 1, q)
    decreases |pts|
  {
    var k := |pts| - 1;
    if k == 0 {
      assert pts == [pts[0]];
      OnePointSum(x, pts[0], q);
    } else {
      var a, z, front, rest := pts[0], pts[k], pts[..k], pts[1..];
      DistinctEnds(pts, q);
      BasisSum(x, front, q);
      BasisSum(x, rest, q);
      EndsMeet(x, a, z, pts, front, rest, q);
    }
  }

  lemma DistinctEnds(pts: seq<int>, q: nat)
    requires q > 0 && |pts| > 1 && Distinct(pts, q)
    ensures var k := |pts| - 1;
            && pts == pts[..k] + [pts[k]] == [pts[0]] + pts[1..] && (pts[0] - pts[k]) % q != 0
            && Distinct(pts[..k], q) && Distinct(pts[1..], q)
  {
    var k := |pts| - 1;
    assert pts == pts[..k] + [pts[k]] && pts == [pts[0]] + pts[1..];
    DistinctParts(pts[..k], pts[k], q);
    DistinctTail(pts[0], pts[1..], q);
  }

  lemma EndsMeet(x: int, a: int, z: int, pts: seq<int>, front: seq<int>, rest: seq<int>, q: nat)
    requires Prime(q) && Distinct(pts, q) && pts == front + [z] == [a] + rest && (a - z) % q != 0
    requires Cong(Dot(Ones(|rest|), Bases(x, rest, rest, q)), 1, q)
    requires Cong(Dot(Ones(|front|), Bases(x, front, front, q)), 1, q)
    ensures Cong(Dot(Ones(|pts|), Bases(x, pts, pts, q)), 1, q)
  {
    var one, w := Ones(|pts|), Bases(x, pts, pts, q);
    DropOneLast(x, front, z, q);
    DropOneFirst(x, a, rest, q);
    EndsDiffer(pts, a, z, w);
    CombineEnds(x, a, z, Dot(Scaled(pts, a, one), w), Dot(Scaled(pts, z, one), w), Dot(one, w),
                Dot(Ones(|rest|), Bases(x, rest, rest, q)), Dot(Ones(|front|), Bases(x, front, front, q)), q);
  }

  lemma EndsDiffer(pts: seq<int>, a: int, z: int, w: seq<int>)
    requires |w| == |pts|
    ensures var one := Ones(|pts|);
            Dot(Scaled(pts, a, one), w) == Dot(Scaled(pts, z, one), w) + (z - a) * Dot(one, w)
  {
    var one := Ones(|pts|);
    DotLinear(Scaled(pts, z, one), one, z - a, Scaled(pts, a, one), w);
  }

  lemma DropOneLast(x: int, front: seq<int>, z: int, q: nat)
    requires Prime(q) && Distinct(front + [z], q)
    ensures var pts := front + [z];
            Cong(Dot(Scaled(pts, z, Ones(|pts|)), Bases(x, pts, pts, q)),
                 (x - z) * Dot(Ones(|front|), Bases(x, front, front, q)), q)
  {
    var one := Ones(|front| + 1);
    DropLast(x, front, z, one, q);
    assert one[..|front|] == Ones(|front|);
  }

  lemma DropOneFirst(x: int, a: int, rest: seq<int>, q: nat)
    requires Prime(q) && Distinct([a] + rest, q)
    ensures var pts := [a] + rest;
            Cong(Dot(Scaled(pts, a, Ones(|pts|)), Bases(x, pts, pts, q)),
                 (x - a) * Dot(Ones(|rest|), Bases(x, rest, rest, q)), q)
  {
    var one := Ones(|rest| + 1);
    DropFirst(x, a, rest, one, q);
    assert one[1..] == Ones(|rest|);
  }

  lemma OnePointSum(x: int, p: int, q: nat)
    requires Prime(q)
    ensures Cong(Dot(Ones(1), Bases(x, [p], [p], q)), 1, q)
  {
    SinglePoint(x, p, q);
    assert Ones(1)[..0] == [] && Bases(x, [p], [p], q)[..0] == [];
  }

  lemma SinglePoint(x: int, p: int, q: nat)
    requires Prime(q)
    ensures Basis(x, [p], p, q) == 1
  {
    assert [p][..0] == [];
    forall y ensures Numerator(y, [p], p) == 1 { assert Numerator(y, [p][..0], p) == 1; }
    assert Numerator(p, [p], p) == 1;
    InverseOk(1, q);
    RemainderUnique(1, 0, 1, q);
    CongMod(1 * Inverse(1, q), q);
  }

  /** From the two ends: (z - a) S is congruent to (x - a) - (x - z) = z - a. */
  lemma CombineEnds(x: int, a: int, z: int, sa: int, sz: int, s: int, ra: int, rz: int, q: nat)
    requires Prime(q) && (a - z) % q != 0
    requires Cong(sa, (x - a) * ra, q) && Cong(sz, (x - z) * rz, q) && Cong(ra, 1, q) && Cong(rz, 1, q)
    requires sa == sz + (z - a) * s
    ensures Cong(s, 1, q)
  {
    CongMul(x - a, x - a, ra, 1, q);
    CongMul(x - z, x - z, rz, 1, q);
    CongSub(sa, x - a, sz, x - z, q);
    assert sa - sz == (z - a) * s && (x - a) - (x - z) == (z - a) * 1;
    NegNonzero(a - z, q);
    Cancel(z - a, s, 1, q);
  }

  /** Lagrange interpolation: for a polynomial with at most as many coefficients as there are
      points, interpolating its values gives its value everywhere. */
  lemma {:induction false} Interpolates(x: int, pts: seq<int>, b: seq<int>, q: nat)
    requires Prime(q) && 1 <= |b| <= |pts| && Distinct(pts, q)
    ensures Cong(Dot(Values(b, pts), Bases(x, pts, pts, q)), Eval(b, x), q)
    decreases |b|
  {
    var k := |pts| - 1;
    var z, front, d := pts[k], pts[..k], Quotient(b, pts[k]);
    assert pts == front + [z];
    var rest := Dot(Values(d, front), Bases(x, front, front, q));
    if |b| == 1 {
      assert d == [];
      ZeroValues(front, Bases(x, front, front, q));
    } else {
      DistinctParts(front, z, q);
      Interpolates(x, front, d, q);
    }
    BasisSum(x, pts, q);
    DividedByRoot(x, pts, front, z, b, rest, q);
  }

  /** The division of b by x - z, in the interpolated value and in the value at x:
      P(z) * 1 + (x - z) * Q modulo q. */
  lemma DividedByRoot(x: int, pts: seq<int>, front: seq<int>, z: int, b: seq<int>, rest: int, q: nat)
    requires Prime(q) && b != [] && pts == front + [z] && Distinct(pts, q)
    requires rest == Dot(Values(Quotient(b, z), front), Bases(x, front, front, q))
    requires Cong(rest, Eval(Quotient(b, z), x), q) && Cong(Dot(Ones(|pts|), Bases(x, pts, pts, q)), 1, q)
    ensures Cong(Dot(Values(b, pts), Bases(x, pts, pts, q)), Eval(b, x), q)
  {
    var w := Bases(x, pts, pts, q);
    var s := ValuesDivided(pts, z, b, w);
    var r := QuotientPart(x, front, z, Quotient(b, z), q, s);
    DivideByRoot(b, z, x);
    Assemble(Dot(Values(b, pts), w), s, Eval(b, z), Dot(Ones(|pts|), w), x - z, rest, r, Eval(Quotient(b, z), x),
             Eval(b, x), q);
  }

  lemma Assemble(v: int, s: int, e: int, o: int, c: int, rest: int, r: int, dx: int, bx: int, q: nat)
    requires q > 0 && v == s + e * o && Cong(s, r, q) && Cong(o, 1, q)
    requires r == c * rest && Cong(rest, dx, q) && bx == e + c * dx
    ensures Cong(v, bx, q)
  {
    AddParts(e, o, c, rest, dx, q);
    CongAdd(s, r, e * o, e * o, q);
  }

  /** The part that the last point does not see. */
  lemma QuotientPart(x: int, front: seq<int>, z: int, d: seq<int>, q: nat, s: int) returns (r: int)
    requires Prime(q) && Distinct(front + [z], q)
    requires var pts := front + [z]; s == Dot(Scaled(pts, z, Values(d, pts)), Bases(x, pts, pts, q))
    ensures r == (x - z) * Dot(Values(d, front), Bases(x, front, front, q)) && Cong(s, r, q)
  {
    var pts := front + [z];
    DropLast(x, front, z, Values(d, pts), q);
    assert Values(d, pts)[..|front|] == Values(d, front);
    r := (x - z) * Dot(Values(d, front), Bases(x, front, front, q));
  }

  /** The values of b at the points from those of its quotient by the root z. */
  lemma ValuesDivided(pts: seq<int>, z: int, b: seq<int>, w: seq<int>) returns (r: int)
    requires b != [] && |w| == |pts|
    ensures r == Dot(Scaled(pts, z, Values(Quotient(b, z), pts)), w)
    ensures Dot(Values(b, pts), w) == r + Eval(b, z) * Dot(Ones(|pts|), w)
  {
    var v, s := Values(b, pts), Scaled(pts, z, Values(Quotient(b, z), pts));
    forall j | 0 <= j < |pts| ensures v[j] == s[j] + Eval(b, z) * Ones(|pts|)[j] {
      DivideByRoot(b, z, pts[j]);
    }
    DotLinear(s, Ones(|pts|), Eval(b, z), v, w);
    r := Dot(s, w);
  }

  lemma AddParts(p: int, one: int, c: int, rest: int, d: int, q: nat)
    requires q > 0 && Cong(one, 1, q) && Cong(rest, d, q)
    ensures Cong(p * one + c * rest, p + c * d, q)
  {
    CongMul(p, p, one, 1, q);
    CongMul(c, c, rest, d, q);
    CongAdd(p * one, p, c * rest, c * d, q);
  }

  lemma {:induction false} ZeroValues(pts: seq<int>, w: seq<int>)
    requires |w| == |pts|
    ensures Dot(Values([], pts), w) == 0
    decreases |pts|
  {
    if pts != [] {
      var k := |pts| - 1;
      ZeroValues(pts[..k], w[..k]);
      assert Values([], pts)[..k] == Values([], pts[..k]);
    }
  }

  lemma {:induction false} DotCong(u: seq<int>, v: seq<int>, w: seq<int>, q: nat)
    requires q > 0 && |u| == |v| == |w| && forall j :: 0 <= j < |u| ==> Cong(u[j], v[j], q)
    ensures Cong(Dot(u, w), Dot(v, w), q)
    decreases |u|
  {
    if u != [] {
      var k := |u| - 1;
      DotCong(u[..k], v[..k], w[..k], q);
      CongMul(u[k], v[k], w[k], w[k], q);
      CongAdd(Dot(u[..k], w[..k]), Dot(v[..k], w[..k]), u[k] * w[k], v[k] * w[k], q);
    }
  }

  /** lagrange_interpolate on shares of a polynomial gives its value at x. */
  method Interpolate(x: int, shares: seq<int>, pts: seq<int>, q: nat, ghost b: seq<int>) returns (r: nat)
    requires q > 0 && |shares| == |pts|
    ensures r < q
    ensures Prime(q) && Distinct(pts, q) && 1 <= |b| <= |pts| &&
            (forall j :: 0 <= j < |pts| ==> Cong(shares[j], Eval(b, pts[j]), q)) ==>
              r == Eval(b, x) % q
  {
    r := PartialInterpolate(x, shares, pts, pts, q);
    if Prime(q) && Distinct(pts, q) && 1 <= |b| <= |pts| &&
       forall j :: 0 <= j < |pts| ==> Cong(shares[j], Eval(b, pts[j]), q) {
      Interpolates(x, pts, b, q);
      DotCong(shares, Values(b, pts), Bases(x, pts, pts, q), q);
      RemainderUnique(r, 0, r, q);
    }
  }
}
