/** Arithmetic modulo a prime: congruences of integers and the modular inverse. */
module Field {
  import opened Arithmetic

  predicate Cong(a: int, b: int, q: int)
    requires q > 0
  {
    a % q == b % q
  }

  lemma AddMultiple(x: int, k: int, q: int)
    requires q > 0
    ensures (x + k * q) % q == x % q
  {
    assert x + k * q == (x / q + k) * q + x % q;
    RemainderUnique(x + k * q, x / q + k, x % q, q);
  }

  /** Congruent numbers differ by a multiple of q. */
  lemma CongWitness(a: int, b: int, q: int) returns (k: int)
    requires q > 0 && Cong(a, b, q)
    ensures a == b + k * q
  {
    k := a / q - b / q;
    assert k * q == (a / q) * q - (b / q) * q;
  }

  lemma CongAdd(a: int, a': int, b: int, b': int, q: int)
    requires q > 0 && Cong(a, a', q) && Cong(b, b', q)
    ensures Cong(a + b, a' + b', q)
  {
    var k := CongWitness(a, a', q);
    var l := CongWitness(b, b', q);
    assert a + b == (a' + b') + (k + l) * q by { Distribute(k, l, q); }
    AddMultiple(a' + b', k + l, q);
  }

  lemma Distribute(k: int, l: int, q: int)
    ensures (k + l) * q == k * q + l * q
  {
  }

  lemma CongSub(a: int, a': int, b: int, b': int, q: int)
    requires q > 0 && Cong(a, a', q) && Cong(b, b', q)
    ensures Cong(a - b, a' - b', q)
  {
    var k := CongWitness(a, a', q);
    var l := CongWitness(b, b', q);
    assert (k - l) * q == k * q - l * q;
    AddMultiple(a' - b', k - l, q);
  }

  lemma CongMul(a: int, a': int, b: int, b': int, q: int)
    requires q > 0 && Cong(a, a', q) && Cong(b, b', q)
    ensures Cong(a * b, a' * b', q)
  {
    var k := CongWitness(a, a', q);
    var l := CongWitness(b, b', q);
    ProductExpands(a', k, b', l, q);
    AddMultiple(a' * b', a' * l + k * b' + k * l * q, q);
  }

  lemma ProductExpands(a: int, k: int, b: int, l: int, q: int)
    ensures (a + k * q) * (b + l * q) == a * b + (a * l + k * b + k * l * q) * q
  {
    assert (a + k * q) * (b + l * q) == a * b + a * (l * q) + (k * q) * b + (k * q) * (l * q);
    assert a * (l * q) == (a * l) * q && (k * q) * b == (k * b) * q && (k * q) * (l * q) == (k * l * q) * q;
  }

  lemma CongMod(a: int, q: int)
    requires q > 0
    ensures Cong(a % q, a, q)
  {
    RemainderUnique(a % q, 0, a % q, q);
  }

  // ---------------------------------------------------------------- inverses

  predicate Prime(q: int)
  {
    q >= 2 && forall d :: 1 < d < q ==> q % d != 0
  }

  /** Extended Euclid: g, u and v with g == u * a + v * b. */
  function Euclid(a: nat, b: nat): (nat, int, int)
    decreases b
  {
    if b == 0 then (a, 1, 0)
    else var (g, u, v) := Euclid(b, a % b); (g, v, u - (a / b) * v)
  }

  ghost predicate Divides(g: int, a: int) { exists k :: Times(g, k) == a }

  function Times(g: int, k: int): int { g * k }

  lemma DividesCombination(g: int, b: int, r: int, m: int)
    requires Divides(g, b) && Divides(g, r)
    ensures Divides(g, m * b + r)
  {
    var k, l :| Times(g, k) == b && Times(g, l) == r;
    assert g * (m * k + l) == m * (g * k) + g * l;
    assert Times(g, m * k + l) == m * b + r;
  }

  lemma CombinationStep(u: int, v: int, a: int, b: int, m: int, r: int)
    requires a == m * b + r
    ensures v * a + (u - m * v) * b == u * b + v * r
  {
    assert v * (m * b) == (m * v) * b;
    assert v * a == v * (m * b) + v * r;
  }

  lemma {:induction false} EuclidOk(a: nat, b: nat)
    requires a > 0 || b > 0
    ensures var (g, u, v) := Euclid(a, b); g > 0 && g == u * a + v * b && Divides(g, a) && Divides(g, b)
    decreases b
  {
    if b == 0 {
      assert Times(a, 1) == a && Times(a, 0) == 0;
    } else {
      var (g, u, v) := Euclid(b, a % b);
      EuclidOk(b, a % b);
      var m := a / b;
      assert a == m * b + a % b;
      DividesCombination(g, b, a % b, m);
      CombinationStep(u, v, a, b, m, a % b);
    }
  }

  /** BN_mod_inverse. */
  function Inverse(a: int, q: int): (i: nat)
    requires q > 0
    ensures i < q
  {
    Euclid(a % q, q).1 % q
  }

  lemma DivisorOfPrime(g: int, q: int)
    requires Prime(q) && g > 0 && Divides(g, q)
    ensures g == 1 || g == q
  {
    var k :| Times(g, k) == q;
    if 1 < g < q {
      RemainderUnique(q, k, 0, g);
    } else if g > q {
      MulGrows(k, g);
    }
  }

  lemma DivisorAtMost(g: int, a: int)
    requires g > 0 && a > 0 && Divides(g, a)
    ensures g <= a
  {
    var k :| Times(g, k) == a;
    MulGrows(k, g);
  }

  lemma InverseOk(a: int, q: int)
    requires Prime(q) && a % q != 0
    ensures Cong(a * Inverse(a, q), 1, q)
  {
    var r := a % q;
    var (g, u, v) := Euclid(r, q);
    EuclidOk(r, q);
    DivisorOfPrime(g, q);
    DivisorAtMost(g, r);
    assert u * r == 1 + (-v) * q;
    AddMultiple(1, -v, q);
    CongMod(a, q);
    CongMod(u, q);
    CongMul(a, r, u % q, u, q);
    assert r * u == u * r;
  }

  /** A factor that is not 0 modulo a prime can be cancelled. */
  lemma Cancel(c: int, a: int, b: int, q: int)
    requires Prime(q) && c % q != 0 && Cong(c * a, c * b, q)
    ensures Cong(a, b, q)
  {
    var i := Inverse(c, q);
    InverseOk(c, q);
    CongMul(c * a, c * b, i, i, q);
    assert c * a * i == (c * i) * a && c * b * i == (c * i) * b;
    CongMul(c * i, 1, a, a, q);
    CongMul(c * i, 1, b, b, q);
  }

  lemma NonzeroProduct(a: int, b: int, q: int)
    requires Prime(q) && a % q != 0 && b % q != 0
    ensures (a * b) % q != 0
  {
    if (a * b) % q == 0 {
      assert a * 0 == 0 && 0 % q == 0 by { RemainderUnique(0, 0, 0, q); }
      Cancel(a, b, 0, q);
    }
  }
}
