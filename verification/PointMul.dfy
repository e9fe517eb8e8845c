/** Multiplication of a point by a scalar (`ecurve_core_t::mul`): a table of small multiples and a
    double-and-add loop over the backward Booth digits, with one scalar or with two half-size ones.

    A point is written as its coefficients over the input point P and the image of P under the
    curve's endomorphism, so what is proved holds in every commutative group.
 */
module PointMul {
  import opened Arithmetic
  import opened Bits
  import opened Booth
  import opened BoothStreams

  /** The point a * P + b * E(P). */
  datatype Point = Point(a: int, b: int)

  const INFINITY := Point(0, 0)
  const P := Point(1, 0)

  function Add(p: Point, r: Point): Point { Point(p.a + r.a, p.b + r.b) }

  function Dbl(p: Point): Point { Add(p, p) }

  /** cnd_negate. */
  function NegateIf(p: Point, flag: bool): Point { if flag then Point(-p.a, -p.b) else p }

  /** The endomorphism on multiples of P. */
  function Endo(p: Point): Point
    requires p.b == 0
  {
    Point(0, p.a)
  }

  const EP := Endo(P)

  /** c * u for one of the two base points. */
  function Times(c: int, u: Point): Point { Point(c * u.a, c * u.b) }

  const TAB_SIZE := 17
  const WIN := 5

  /** The table of small multiples, by doublings and additions. */
  method Table() returns (tab: seq<Point>)
    ensures |tab| == TAB_SIZE && Multiples(tab, P)
  {
    tab := [INFINITY, P];
    for k := 1 to 8
      invariant |tab| == 2 * k && Multiples(tab, P)
    {
      tab := TwoMore(tab, k);
    }
    tab := tab + [Dbl(tab[8])];
  }

  /** Entry k is k * u. */
  predicate Multiples(tab: seq<Point>, u: Point) { forall k :: 0 <= k < |tab| ==> tab[k] == Times(k, u) }

  /** The images of the table entries, entry 0 being infinity in both. */
  method EndoTable(tab: seq<Point>) returns (tab2: seq<Point>)
    requires |tab| == TAB_SIZE && Multiples(tab, P)
    ensures |tab2| == TAB_SIZE && Multiples(tab2, EP)
  {
    tab2 := [tab[0]];
    for i := 1 to TAB_SIZE
      invariant |tab2| == i && Multiples(tab2, EP)
    {
      tab2 := tab2 + [Endo(tab[i])];
    }
  }

  /** dbl(tab[2k], tab[k]) and add(tab[2k + 1], tab[2k], P). */
  method TwoMore(tab: seq<Point>, k: nat) returns (more: seq<Point>)
    requires k >= 1 && |tab| == 2 * k && Multiples(tab, P)
    ensures |more| == 2 * k + 2 && Multiples(more, P)
  {
    var even := Dbl(tab[k]);
    var odd := Add(even, P);
    more := tab + [even, odd];
  }

  /** ct_get without vector instructions: every entry is looked at and the right one kept. */
  method Select(tab: seq<Point>, index: nat) returns (r: Point)
    requires index < |tab| && tab[0] == INFINITY
    ensures r == tab[index]
  {
    r := INFINITY;
    for i := 1 to |tab|
      invariant r == if 0 < index < i then tab[index] else INFINITY
    {
      if index == i { r := tab[i]; }
    }
  }

  /** The doublings between two digits. */
  method DblTimes(p: Point, n: nat) returns (r: Point)
    ensures r == Point(p.a * Pow2(n), p.b * Pow2(n))
  {
    r := p;
    for i := 0 to n
      invariant r == Point(p.a * Pow2(i), p.b * Pow2(i))
    {
      Twice(p.a, Pow2(i));
      Twice(p.b, Pow2(i));
      r := Dbl(r);
    }
  }

  lemma Twice(c: int, p: int)
    ensures c * p + c * p == c * (2 * p)
  {
  }

  // ---------------------------------------------------------------- the digits read so far

  /** c * 2^at is the weighted sum of the first k digits of the backward stream, the last of which
      has index at. */
  ghost predicate Accumulated(x: nat, bits: nat, k: nat, c: int)
    requires bits >= 1
  {
    && 1 <= k <= Count(WIN, bits, true)
    && c * Pow2(IndexBack(bits, k - 1)) == Total(Stream(x, WIN, bits, true)[..k])
  }

  /** The window index of the k-th backward digit. */
  function IndexBack(bits: nat, k: nat): nat
    requires bits >= 1 && k < Count(WIN, bits, true)
  {
    EntryAt(0, WIN, bits, true, k);
    IndexAt(WIN, bits, true, k)
  }

  lemma FirstDigit(x: nat, bits: nat, d: int)
    requires bits >= 1 && d == Digit(x, IndexBack(bits, 0), WIN)
    ensures Accumulated(x, bits, 1, d)
  {
    var es := Stream(x, WIN, bits, true);
    EntryAt(x, WIN, bits, true, 0);
    TotalSnoc([], es[0]);
    assert es[..1] == [] + [es[0]];
  }

  lemma DigitAppended(x: nat, bits: nat, k: nat, c: int, d: int)
    requires bits >= 1 && Accumulated(x, bits, k, c) && k < Count(WIN, bits, true)
    requires d == Digit(x, IndexBack(bits, k), WIN)
    ensures Accumulated(x, bits, k + 1, c * Pow2(WIN) + d)
  {
    var es := Stream(x, WIN, bits, true);
    EntryAt(x, WIN, bits, true, k);
    EntryAt(x, WIN, bits, true, k - 1);
    var at := IndexBack(bits, k);
    TotalSnoc(es[..k], es[k]);
    assert es[..k + 1] == es[..k] + [es[k]];
    Pow2Add(WIN, at);
    Horner(c, d, Pow2(WIN), Pow2(at));
  }

  lemma Horner(c: int, d: int, w: int, p: int)
    ensures (c * w + d) * p == c * (w * p) + d * p
  {
  }

  /** After the last digit, whose index is 0, the coefficient is the scalar. */
  lemma AllDigits(x: nat, bits: nat, c: int)
    requires bits >= 1 && x < Pow2(bits) && Accumulated(x, bits, Count(WIN, bits, true), c)
    ensures c == x
  {
    var m := Count(WIN, bits, true);
    assert Stream(x, WIN, bits, true)[..m] == Stream(x, WIN, bits, true);
    assert IndexBack(bits, m - 1) == 0;
    BackwardCoversAll(x, WIN, bits);
  }

  /** Nothing yet, or the digits so far. */
  ghost predicate SoFar(x: nat, bits: nat, k: nat, c: int)
    requires bits >= 1
  {
    if k == 0 then c == 0 else Accumulated(x, bits, k, c)
  }

  lemma DigitAdded(x: nat, bits: nat, k: nat, c: int, d: int)
    requires bits >= 1 && SoFar(x, bits, k, c) && k < Count(WIN, bits, true)
    requires d == Digit(x, IndexBack(bits, k), WIN)
    ensures SoFar(x, bits, k + 1, (if k == 0 then 0 else c * Pow2(WIN)) + d)
  {
    if k == 0 { FirstDigit(x, bits, d); } else { DigitAppended(x, bits, k, c, d); }
  }

  // ---------------------------------------------------------------- the loops

  function SignIf(c: int, minus: bool): int { if minus then -c else c }

  ghost predicate IsEntry(a: Point, x: nat, bits: nat, k: nat, u: Point, minus: bool)
    requires bits >= 1 && k < Count(WIN, bits, true)
  {
    a == Times(SignIf(Digit(x, IndexBack(bits, k), WIN), minus), u)
  }

  /** get, and the table entry of its value, negated when exactly one of the digit and the scalar is. */
  method NextEntry(w: BoothWnaf, ghost x: nat, bits: nat, ghost k: nat, tab: seq<Point>, ghost u: Point,
                   minus: bool)
    returns (more: bool, a: Point)
    requires 1 <= bits <= 256 && k <= Count(WIN, bits, true) && Reads(w, x, WIN, bits, true, k)
    requires |tab| == TAB_SIZE && Multiples(tab, u)
    modifies w`index
    ensures more <==> k < Count(WIN, bits, true)
    ensures more ==> Reads(w, x, WIN, bits, true, k + 1) && IsEntry(a, x, bits, k, u, minus)
    ensures !more ==> Reads(w, x, WIN, bits, true, k)
  {
    a := INFINITY;
    var value, neg;
    more, value, neg := NextDigit(w, x, WIN, bits, true, k);
    if more {
      assert Pow2(4) == 16;
      a := Lookup(tab, u, value, neg, minus);
    }
  }

  method Lookup(tab: seq<Point>, ghost u: Point, value: nat, neg: bool, minus: bool) returns (a: Point)
    requires Multiples(tab, u) && value < |tab|
    ensures a == Times(SignIf(Signed(value, neg), minus), u)
  {
    a := Select(tab, value);
    SignOut(value, u.a);
    SignOut(value, u.b);
    a := NegateIf(a, neg != minus);
  }

  lemma SignOut(c: int, p: int)
    ensures (-c) * p == -(c * p)
  {
  }

  /** One round of the loop: the doublings, except in the first round, and the addition. */
  method Round(r: Point, first: bool, a: Point) returns (r': Point)
    ensures first ==> r' == a
    ensures !first ==> r' == Point(r.a * Pow2(WIN) + a.a, r.b * Pow2(WIN) + a.b)
  {
    if first { return a; }
    r' := DblTimes(r, WIN);
    r' := Add(r', a);
  }

  /** The coefficient after a round. */
  lemma SignedDigitAdded(x: nat, bits: nat, k: nat, c: int, d: int, minus: bool)
    requires bits >= 1 && SoFar(x, bits, k, SignIf(c, minus)) && k < Count(WIN, bits, true)
    requires d == SignIf(Digit(x, IndexBack(bits, k), WIN), minus)
    ensures SoFar(x, bits, k + 1, SignIf(if k == 0 then d else c * Pow2(WIN) + d, minus))
  {
    SignOut(c, Pow2(WIN));
    DigitAdded(x, bits, k, SignIf(c, minus), Digit(x, IndexBack(bits, k), WIN));
  }

  /** One round of the loop over one stream, if there is another digit. */
  method PlainRound(w: BoothWnaf, tab: seq<Point>, r: Point, first: bool, ghost x: nat, bits: nat, ghost k: nat)
    returns (more: bool, r': Point)
    requires 1 <= bits <= 256 && k <= Count(WIN, bits, true) && first == (k == 0)
    requires |tab| == TAB_SIZE && Multiples(tab, P) && Reads(w, x, WIN, bits, true, k)
    requires r.b == 0 && SoFar(x, bits, k, r.a)
    modifies w`index
    ensures more <==> k < Count(WIN, bits, true)
    ensures if more then Reads(w, x, WIN, bits, true, k + 1) && r'.b == 0 && SoFar(x, bits, k + 1, r'.a) else r' == r
  {
    var a;
    more, a := NextEntry(w, x, bits, k, tab, P, false);
    if !more { return false, r; }
    r' := PlainDigit(r, first, a, x, bits, k);
  }

  /** The body of the loop over one stream once the entry is read. */
  method PlainDigit(r: Point, first: bool, a: Point, ghost x: nat, ghost bits: nat, ghost k: nat) returns (r': Point)
    requires bits >= 1 && k < Count(WIN, bits, true) && first == (k == 0)
    requires r.b == 0 && SoFar(x, bits, k, r.a) && IsEntry(a, x, bits, k, P, false)
    ensures r'.b == 0 && SoFar(x, bits, k + 1, r'.a)
  {
    SignedDigitAdded(x, bits, k, r.a, a.a, false);
    r' := Round(r, first, a);
  }

  /** mul for curves without the endomorphism, on a scalar below 2^bits: the result is x * P. */
  method Mul(limbs: seq<nat>, bits: nat) returns (r: Point)
    requires 1 <= bits <= 256 && |limbs| <= 4 && LimbsOk(limbs) && FromLimbs(limbs) < Pow2(bits)
    ensures r == Point(FromLimbs(limbs), 0)
  {
    var tab := Table();
    var w := NewReader(WIN, limbs, bits, true);
    r := AddDigits(w, FromLimbs(limbs), bits, tab);
  }

  /** The loop over the digits. */
  method AddDigits(w: BoothWnaf, ghost x: nat, bits: nat, tab: seq<Point>) returns (r: Point)
    requires 1 <= bits <= 256 && x < Pow2(bits) && Reads(w, x, WIN, bits, true, 0)
    requires |tab| == TAB_SIZE && Multiples(tab, P)
    modifies w`index
    ensures r == Point(x, 0)
  {
    r := INFINITY;
    ghost var k := 0;
    var first, more := true, true;
    while more
      invariant k <= Count(WIN, bits, true) && first == (k == 0) && (!more ==> k == Count(WIN, bits, true))
      invariant r.b == 0 && SoFar(x, bits, k, r.a) && (more ==> Reads(w, x, WIN, bits, true, k))
      decreases Count(WIN, bits, true) - k, more
    {
      more, r := PlainRound(w, tab, r, first, x, bits, k);
      if more { first, k := false, k + 1; }
    }
    AllDigits(x, bits, r.a);
  }

  /** The two coefficients so far, each with the sign of its scalar. */
  ghost predicate BothSoFar(x: nat, y: nat, bits: nat, k: nat, r: Point, neg1: bool, neg2: bool)
    requires bits >= 1
  {
    SoFar(x, bits, k, SignIf(r.a, neg1)) && SoFar(y, bits, k, SignIf(r.b, neg2))
  }

  /** The body of the loop over two streams once both entries are read. */
  method TwoDigits(r: Point, first: bool, a: Point, b: Point, ghost neg1: bool, ghost neg2: bool,
                   ghost x: nat, ghost y: nat, ghost bits: nat, ghost k: nat) returns (r': Point)
    requires bits >= 1 && k < Count(WIN, bits, true) && first == (k == 0)
    requires BothSoFar(x, y, bits, k, r, neg1, neg2)
    requires IsEntry(a, x, bits, k, P, neg1) && IsEntry(b, y, bits, k, EP, neg2)
    ensures BothSoFar(x, y, bits, k + 1, r', neg1, neg2)
  {
    SignedDigitAdded(x, bits, k, r.a, a.a, neg1);
    SignedDigitAdded(y, bits, k, r.b, b.b, neg2);
    r' := Round(r, first, a);
    r' := Add(r', b);
  }

  /** Both objects are about to give digit k. */
  ghost predicate BothRead(w1: BoothWnaf, w2: BoothWnaf, x: nat, y: nat, bits: nat, k: nat)
    reads w1, w1.data, w2, w2.data
    requires bits >= 1
  {
    w1 != w2 && Reads(w1, x, WIN, bits, true, k) && Reads(w2, y, WIN, bits, true, k)
  }

  /** One round of the loop over both streams, if there is another digit. */
  method GlvRound(w1: BoothWnaf, w2: BoothWnaf, tab: seq<Point>, tab2: seq<Point>, neg1: bool, neg2: bool,
                  r: Point, first: bool, ghost x: nat, ghost y: nat, bits: nat, ghost k: nat)
    returns (more: bool, r': Point)
    requires 1 <= bits <= 256 && k <= Count(WIN, bits, true) && first == (k == 0)
    requires |tab| == |tab2| == TAB_SIZE && Multiples(tab, P) && Multiples(tab2, EP)
    requires BothRead(w1, w2, x, y, bits, k) && BothSoFar(x, y, bits, k, r, neg1, neg2)
    modifies w1`index, w2`index
    ensures more <==> k < Count(WIN, bits, true)
    ensures if more then BothRead(w1, w2, x, y, bits, k + 1) && BothSoFar(x, y, bits, k + 1, r', neg1, neg2)
            else r' == r
  {
    var a;
    more, a := NextEntry(w1, x, bits, k, tab, P, neg1);
    if !more { return false, r; }
    var _, c := NextEntry(w2, y, bits, k, tab2, EP, neg2);
    r' := TwoDigits(r, first, a, c, neg1, neg2, x, y, bits, k);
  }

  /** mul for curves with the endomorphism, on the absolute values of the two half-size scalars and
      their signs: the result is the first scalar times P plus the second times E(P). */
  method MulGlv(limbs1: seq<nat>, neg1: bool, limbs2: seq<nat>, neg2: bool, bits: nat) returns (r: Point)
    requires 1 <= bits <= 256 && |limbs1| <= 4 && LimbsOk(limbs1) && |limbs2| <= 4 && LimbsOk(limbs2)
    requires FromLimbs(limbs1) < Pow2(bits) && FromLimbs(limbs2) < Pow2(bits)
    ensures r == Point(SignIf(FromLimbs(limbs1), neg1), SignIf(FromLimbs(limbs2), neg2))
  {
    var tab := Table();
    var tab2 := EndoTable(tab);
    var w1 := NewReader(WIN, limbs1, bits, true);
    var w2 := NewReader(WIN, limbs2, bits, true);
    r := AddBoth(w1, w2, tab, tab2, neg1, neg2, FromLimbs(limbs1), FromLimbs(limbs2), bits);
  }

  /** The loop over the digits of both scalars. */
  method AddBoth(w1: BoothWnaf, w2: BoothWnaf, tab: seq<Point>, tab2: seq<Point>, neg1: bool, neg2: bool,
                 ghost x: nat, ghost y: nat, bits: nat) returns (r: Point)
    requires 1 <= bits <= 256 && x < Pow2(bits) && y < Pow2(bits) && BothRead(w1, w2, x, y, bits, 0)
    requires |tab| == |tab2| == TAB_SIZE && Multiples(tab, P) && Multiples(tab2, EP)
    modifies w1`index, w2`index
    ensures r == Point(SignIf(x, neg1), SignIf(y, neg2))
  {
    ghost var m := Count(WIN, bits, true);
    r := INFINITY;
    ghost var k := 0;
    var first, more := true, true;
    while more
      invariant k <= m && first == (k == 0) && (!more ==> k == m)
      invariant BothSoFar(x, y, bits, k, r, neg1, neg2)
      invariant more ==> BothRead(w1, w2, x, y, bits, k)
      decreases m - k, more
    {
      more, r := GlvRound(w1, w2, tab, tab2, neg1, neg2, r, first, x, y, bits, k);
      if more { first, k := false, k + 1; }
    }
    AllDigits(x, bits, SignIf(r.a, neg1));
    AllDigits(y, bits, SignIf(r.b, neg2));
  }
}
