/** Carry-less multiplication (`buf256_t::caryless_mul`): the form that recombines four 64-bit
    products and the bit-serial loop, both against multiplication of polynomials over GF(2).
 */
module CarrylessMul {
  import opened Arithmetic
  import opened Bits
  import opened WideWords

  // ---------------------------------------------------------------- the reference

  /** The product of two polynomials over GF(2) given by their coefficient bits: shift and add
      without carries. The instruction `pclmul` computes it for 64-bit operands. */
  function Clmul(a: nat, b: nat): nat
    decreases b
  {
    if b == 0 then 0 else Xor(if b % 2 == 1 then a else 0, 2 * Clmul(a, b / 2))
  }

  /** Coefficient k of the product by the definition: the parity of the pairs i + j = k, from j on. */
  predicate Convolution(a: nat, b: nat, k: nat, j: nat)
    decreases k + 1 - j
  {
    j <= k && ((Bit(b, j) && Bit(a, k - j)) != Convolution(a, b, k, j + 1))
  }

  lemma DoubleBits(x: nat, i: nat)
    ensures Bit(2 * x, i) == (i > 0 && Bit(x, i - 1))
  {
    if i > 0 { assert 2 * x / 2 == x; }
  }

  lemma ClmulBits(a: nat, b: nat, k: nat)
    requires b > 0
    ensures Bit(Clmul(a, b), k) == ((b % 2 == 1 && Bit(a, k)) != (k > 0 && Bit(Clmul(a, b / 2), k - 1)))
  {
    XorBits(if b % 2 == 1 then a else 0, 2 * Clmul(a, b / 2), k);
    DoubleBits(Clmul(a, b / 2), k);
    ZeroBits(k);
  }

  lemma {:induction false} ConvolutionShift(a: nat, b: nat, k: nat, j: nat)
    requires k > 0 && j >= 1
    ensures Convolution(a, b, k, j) == Convolution(a, b / 2, k - 1, j - 1)
    decreases k + 1 - j
  {
    if j <= k {
      ConvolutionShift(a, b, k, j + 1);
      assert Bit(b, j) == Bit(b / 2, j - 1);
    }
  }

  lemma {:induction false} NoConvolution(a: nat, k: nat, j: nat)
    ensures !Convolution(a, 0, k, j)
    decreases k + 1 - j
  {
    if j <= k {
      ZeroBits(j);
      NoConvolution(a, k, j + 1);
    }
  }

  /** Every coefficient of Clmul is the convolution sum: it is polynomial multiplication. */
  lemma {:induction false} ClmulIsPolynomialProduct(a: nat, b: nat, k: nat)
    ensures Bit(Clmul(a, b), k) == Convolution(a, b, k, 0)
    decreases b
  {
    if b == 0 {
      ZeroBits(k);
      NoConvolution(a, k, 0);
    } else {
      ClmulBits(a, b, k);
      assert Bit(b, 0) == (b % 2 == 1);
      if k > 0 {
        ClmulIsPolynomialProduct(a, b / 2, k - 1);
        ConvolutionShift(a, b, k, 1);
      }
    }
  }

  // ---------------------------------------------------------------- laws of Xor

  lemma XorCommutes(x: nat, y: nat)
    ensures Xor(x, y) == Xor(y, x)
  {
    forall i: nat ensures Bit(Xor(x, y), i) == Bit(Xor(y, x), i) { XorBits(x, y, i); XorBits(y, x, i); }
    Extensionality(Xor(x, y), Xor(y, x));
  }

  lemma XorAssociates(x: nat, y: nat, z: nat)
    ensures Xor(Xor(x, y), z) == Xor(x, Xor(y, z))
  {
    forall i: nat ensures Bit(Xor(Xor(x, y), z), i) == Bit(Xor(x, Xor(y, z)), i) {
      XorBits(Xor(x, y), z, i);
      XorBits(x, y, i);
      XorBits(x, Xor(y, z), i);
      XorBits(y, z, i);
    }
    Extensionality(Xor(Xor(x, y), z), Xor(x, Xor(y, z)));
  }

  lemma XorSelf(x: nat)
    ensures Xor(x, x) == 0
  {
    forall i: nat ensures Bit(Xor(x, x), i) == Bit(0, i) { XorBits(x, x, i); ZeroBits(i); }
    Extensionality(Xor(x, x), 0);
  }

  /** (x + y) + (z + t) = (x + z) + (y + t). */
  lemma {:induction false} XorSwap(x: nat, y: nat, z: nat, t: nat)
    ensures Xor(Xor(x, y), Xor(z, t)) == Xor(Xor(x, z), Xor(y, t))
  {
    var l, r := Xor(Xor(x, y), Xor(z, t)), Xor(Xor(x, z), Xor(y, t));
    forall i: nat ensures Bit(l, i) == Bit(r, i) {
      XorBits(Xor(x, y), Xor(z, t), i);
      XorBits(x, y, i);
      XorBits(z, t, i);
      XorBits(Xor(x, z), Xor(y, t), i);
      XorBits(x, z, i);
      XorBits(y, t, i);
    }
    Extensionality(l, r);
  }

  lemma XorDouble(x: nat, y: nat)
    ensures Xor(2 * x, 2 * y) == 2 * Xor(x, y)
  {
    if x == 0 && y == 0 { } else { assert 2 * x / 2 == x && 2 * y / 2 == y; }
  }

  lemma {:induction false} XorShl(x: nat, y: nat, n: nat)
    ensures Xor(Shl(x, n), Shl(y, n)) == Shl(Xor(x, y), n)
    decreases n
  {
    if n > 0 {
      XorShl(x, y, n - 1);
      XorDouble(Shl(x, n - 1), Shl(y, n - 1));
    }
  }

  // ---------------------------------------------------------------- Clmul is bilinear

  lemma {:induction false} ClmulAddLeft(a: nat, c: nat, b: nat)
    ensures Clmul(Xor(a, c), b) == Xor(Clmul(a, b), Clmul(c, b))
    decreases b
  {
    if b == 0 {
      assert Xor(0, 0) == 0;
    } else {
      ClmulAddLeft(a, c, b / 2);
      XorDouble(Clmul(a, b / 2), Clmul(c, b / 2));
      assert Xor(0, 0) == 0;
      XorSwap(if b % 2 == 1 then a else 0, 2 * Clmul(a, b / 2), if b % 2 == 1 then c else 0, 2 * Clmul(c, b / 2));
    }
  }

  lemma ClmulUnfold(a: nat, b: nat)
    ensures Clmul(a, b) == Xor(if b % 2 == 1 then a else 0, 2 * Clmul(a, b / 2))
  {
    if b == 0 { assert Xor(0, 0) == 0; }
  }

  lemma {:induction false} ClmulAddRight(a: nat, b: nat, d: nat)
    ensures Clmul(a, Xor(b, d)) == Xor(Clmul(a, b), Clmul(a, d))
    decreases b + d
  {
    if b == 0 && d == 0 {
      assert Xor(0, 0) == 0;
    } else {
      var x := Xor(b, d);
      assert x / 2 == Xor(b / 2, d / 2) && x % 2 == if b % 2 != d % 2 then 1 else 0;
      ClmulAddRight(a, b / 2, d / 2);
      ClmulUnfold(a, x);
      ClmulUnfold(a, b);
      ClmulUnfold(a, d);
      XorDouble(Clmul(a, b / 2), Clmul(a, d / 2));
      XorZero(a);
      XorSelf(a);
      assert Xor(0, 0) == 0;
      XorSwap(if b % 2 == 1 then a else 0, 2 * Clmul(a, b / 2), if d % 2 == 1 then a else 0, 2 * Clmul(a, d / 2));
    }
  }

  lemma {:induction false} ClmulShiftRight(a: nat, b: nat, n: nat)
    ensures Clmul(a, Shl(b, n)) == Shl(Clmul(a, b), n)
    decreases n
  {
    if n > 0 {
      ClmulShiftRight(a, b, n - 1);
      ClmulEven(a, Shl(b, n - 1));
    }
  }

  lemma ClmulEven(a: nat, s: nat)
    ensures Clmul(a, 2 * s) == 2 * Clmul(a, s)
  {
    ClmulUnfold(a, 2 * s);
    assert 2 * s / 2 == s && 2 * s % 2 == 0;
    XorZero(2 * Clmul(a, s));
  }

  lemma {:induction false} ShlCompose(x: nat, m: nat, n: nat)
    ensures Shl(Shl(x, m), n) == Shl(x, m + n)
    decreases n
  {
    if n > 0 { ShlCompose(x, m, n - 1); }
  }

  lemma ShlDouble(x: nat, n: nat)
    ensures Shl(2 * x, n) == 2 * Shl(x, n)
  {
    ShlCompose(x, 1, n);
    ShlCompose(x, n, 1);
    assert Shl(x, 1) == 2 * x by { assert Shl(x, 0) == x; }
    assert Shl(Shl(x, n), 1) == 2 * Shl(x, n) by { assert Shl(Shl(x, n), 0) == Shl(x, n); }
  }

  lemma {:induction false} ZeroShl(n: nat)
    ensures Shl(0, n) == 0
    decreases n
  {
    if n > 0 { ZeroShl(n - 1); }
  }

  lemma {:induction false} ClmulShiftLeft(a: nat, b: nat, n: nat)
    ensures Clmul(Shl(a, n), b) == Shl(Clmul(a, b), n)
    decreases b
  {
    ZeroShl(n);
    if b > 0 {
      ClmulShiftLeft(a, b / 2, n);
      ShlDouble(Clmul(a, b / 2), n);
      XorShl(if b % 2 == 1 then a else 0, 2 * Clmul(a, b / 2), n);
    }
  }

  /** The degree of a product. */
  lemma {:induction false} ClmulBound(a: nat, b: nat, m: nat, n: nat)
    requires a < Pow2(m) && b < Pow2(n)
    ensures Clmul(a, b) < Pow2(m + n)
    decreases n
  {
    if n == 0 {
    } else {
      ClmulBound(a, b / 2, m, n - 1);
      ClmulUnfold(a, b);
      Pow2Bound(m, m + n);
      XorBound(if b % 2 == 1 then a else 0, 2 * Clmul(a, b / 2), m + n);
    }
  }

  // ---------------------------------------------------------------- the fast form

  /** A 2w-bit product as two w-bit words. */
  function Word(x: nat, w: nat, k: nat): nat { if k == 0 then Low(x, w) else Shr(x, w) }

  lemma WordBits(x: nat, w: nat, i: nat)
    requires x < Pow2(2 * w)
    ensures i < w ==> Bit(Word(x, w, 0), i) == Bit(x, i) && Bit(Word(x, w, 1), i) == Bit(x, i + w)
    ensures Word(x, w, 0) < Pow2(w) && Word(x, w, 1) < Pow2(w)
  {
    LowBits(x, w, i);
    ShrBits(x, w, i);
    LowBelow(x, w);
    Split(x, w);
    Pow2Add(w, w);
    assert w + w == 2 * w;
    HighWordBelow(Shr(x, w), Low(x, w), Pow2(w));
  }

  lemma HighWordBelow(h: nat, l: nat, p: nat)
    requires h * p + l < p * p
    ensures h < p
  {
    var d: int := h - p + 1;
    assert d * p == h * p - p * p + p;
    MulGrows(d, p);
  }

  /** The middle words are sums of three halves. */
  function Middle(x: nat, y: nat, z: nat): nat { Xor(Xor(x, y), z) }

  /** Four words as one number, in two levels. */
  function Glue4(r0: nat, r1: nat, r2: nat, r3: nat, w: nat): nat
  {
    Glue(Glue(r0, r1, w), Glue(r2, r3, w), 2 * w)
  }

  lemma Glue4Bits(r0: nat, r1: nat, r2: nat, r3: nat, w: nat, i: nat)
    requires r0 < Pow2(w) && r1 < Pow2(w) && r2 < Pow2(w) && r3 < Pow2(w)
    ensures Bit(Glue4(r0, r1, r2, r3, w), i) ==
            if i < w then Bit(r0, i)
            else if i < 2 * w then Bit(r1, i - w)
            else if i < 3 * w then Bit(r2, i - 2 * w)
            else Bit(r3, i - 3 * w)
  {
    GlueBelow(r0, r1, w);
    GlueBits(Glue(r0, r1, w), Glue(r2, r3, w), 2 * w, i);
    if i < 2 * w { GlueBits(r0, r1, w, i); } else { GlueBits(r2, r3, w, i - 2 * w); }
  }

  /** The sum of the four products at their places. */
  function Spread(c: nat, e: nat, f: nat, d: nat, w: nat): nat
  {
    Xor(Xor(c, Shl(Xor(f, e), w)), Shl(d, 2 * w))
  }

  lemma SpreadBits(c: nat, e: nat, f: nat, d: nat, w: nat, i: nat)
    ensures Bit(Spread(c, e, f, d, w), i) ==
            ((Bit(c, i) != (i >= w && (Bit(f, i - w) != Bit(e, i - w)))) != (i >= 2 * w && Bit(d, i - 2 * w)))
  {
    XorBits(Xor(c, Shl(Xor(f, e), w)), Shl(d, 2 * w), i);
    XorBits(c, Shl(Xor(f, e), w), i);
    ShlBits(Xor(f, e), w, i);
    ShlBits(d, 2 * w, i);
    if i >= w { XorBits(f, e, i - w); }
  }

  /** One bit of the recombined words. */
  lemma RecombineBit(c: nat, e: nat, f: nat, d: nat, w: nat, i: nat)
    requires c < Pow2(2 * w) && e < Pow2(2 * w) && f < Pow2(2 * w) && d < Pow2(2 * w)
    ensures Word(c, w, 0) < Pow2(w) && Word(d, w, 1) < Pow2(w)
    ensures Middle(Word(f, w, 0), Word(e, w, 0), Word(c, w, 1)) < Pow2(w)
    ensures Middle(Word(d, w, 0), Word(e, w, 1), Word(f, w, 1)) < Pow2(w)
    ensures Bit(Glue4(Word(c, w, 0), Middle(Word(f, w, 0), Word(e, w, 0), Word(c, w, 1)),
                      Middle(Word(d, w, 0), Word(e, w, 1), Word(f, w, 1)), Word(d, w, 1), w), i) ==
            Bit(Spread(c, e, f, d, w), i)
  {
    var k := if i < w then i else if i < 2 * w then i - w else if i < 3 * w then i - 2 * w else i - 3 * w;
    WordBits(c, w, k);
    WordBits(e, w, k);
    WordBits(f, w, k);
    WordBits(d, w, k);
    MiddleBits(Word(f, w, 0), Word(e, w, 0), Word(c, w, 1), w, k);
    MiddleBits(Word(d, w, 0), Word(e, w, 1), Word(f, w, 1), w, k);
    Glue4Bits(Word(c, w, 0), Middle(Word(f, w, 0), Word(e, w, 0), Word(c, w, 1)),
              Middle(Word(d, w, 0), Word(e, w, 1), Word(f, w, 1)), Word(d, w, 1), w, i);
    SpreadBits(c, e, f, d, w, i);
    AboveProducts(c, e, f, d, w, i);
    ShrBits(d, w, k);
  }

  lemma MiddleBits(x: nat, y: nat, z: nat, w: nat, k: nat)
    requires x < Pow2(w) && y < Pow2(w) && z < Pow2(w)
    ensures Middle(x, y, z) < Pow2(w)
    ensures Bit(Middle(x, y, z), k) == ((Bit(x, k) != Bit(y, k)) != Bit(z, k))
  {
    XorBound(x, y, w);
    XorBound(Xor(x, y), z, w);
    XorBits(Xor(x, y), z, k);
    XorBits(x, y, k);
  }

  /** The products have no bits past their 2w. */
  lemma AboveProducts(c: nat, e: nat, f: nat, d: nat, w: nat, i: nat)
    requires c < Pow2(2 * w) && e < Pow2(2 * w) && f < Pow2(2 * w) && d < Pow2(2 * w)
    ensures i >= 2 * w ==> !Bit(c, i)
    ensures i >= 3 * w ==> !Bit(e, i - w) && !Bit(f, i - w)
  {
    if i >= 2 * w { HighBitsZero(c, 2 * w, i); }
    if i >= 3 * w {
      HighBitsZero(e, 2 * w, i - w);
      HighBitsZero(f, 2 * w, i - w);
    }
  }

  lemma Recombine(c: nat, e: nat, f: nat, d: nat, w: nat)
    requires c < Pow2(2 * w) && e < Pow2(2 * w) && f < Pow2(2 * w) && d < Pow2(2 * w)
    ensures Glue4(Word(c, w, 0), Middle(Word(f, w, 0), Word(e, w, 0), Word(c, w, 1)),
                  Middle(Word(d, w, 0), Word(e, w, 1), Word(f, w, 1)), Word(d, w, 1), w) ==
            Spread(c, e, f, d, w)
  {
    var g := Glue4(Word(c, w, 0), Middle(Word(f, w, 0), Word(e, w, 0), Word(c, w, 1)),
                   Middle(Word(d, w, 0), Word(e, w, 1), Word(f, w, 1)), Word(d, w, 1), w);
    forall i: nat ensures Bit(g, i) == Bit(Spread(c, e, f, d, w), i) { RecombineBit(c, e, f, d, w, i); }
    Extensionality(g, Spread(c, e, f, d, w));
  }

  lemma RightHalves(a: nat, b0: nat, b1: nat, w: nat)
    requires b0 < Pow2(w)
    ensures Clmul(a, Glue(b0, b1, w)) == Xor(Clmul(a, b0), Shl(Clmul(a, b1), w))
  {
    var s := Shl(b1, w);
    XorDisjoint(b0, b1, w);
    ClmulAddRight(a, b0, s);
    ClmulShiftRight(a, b1, w);
    assert Clmul(a, Glue(b0, b1, w)) == Clmul(a, Xor(b0, s));
  }

  lemma LeftHalves(a0: nat, a1: nat, b: nat, w: nat)
    requires a0 < Pow2(w)
    ensures Clmul(Glue(a0, a1, w), b) == Xor(Clmul(a0, b), Shl(Clmul(a1, b), w))
  {
    XorDisjoint(a0, a1, w);
    ClmulAddLeft(a0, Shl(a1, w), b);
    ClmulShiftLeft(a1, b, w);
  }

  /** The product of two glued numbers is the sum of the four products at their places. */
  lemma {:induction false} ProductOfHalves(a0: nat, a1: nat, b0: nat, b1: nat, w: nat)
    requires a0 < Pow2(w) && b0 < Pow2(w)
    ensures Clmul(Glue(a0, a1, w), Glue(b0, b1, w)) ==
            Spread(Clmul(a0, b0), Clmul(a0, b1), Clmul(a1, b0), Clmul(a1, b1), w)
  {
    LeftHalves(a0, a1, Glue(b0, b1, w), w);
    RightHalves(a0, b0, b1, w);
    RightHalves(a1, b0, b1, w);
    SumOfPlaces(Clmul(a0, b0), Clmul(a0, b1), Clmul(a1, b0), Clmul(a1, b1), w);
  }

  /** (c + e 2^w) + (f + d 2^w) 2^w = c + (f + e) 2^w + d 2^2w. */
  lemma {:induction false} SumOfPlaces(c: nat, e: nat, f: nat, d: nat, w: nat)
    ensures Xor(Xor(c, Shl(e, w)), Shl(Xor(f, Shl(d, w)), w)) == Spread(c, e, f, d, w)
  {
    XorShl(f, Shl(d, w), w);
    ShlCompose(d, w, w);
    assert w + w == 2 * w;
    XorAssociates(Xor(c, Shl(e, w)), Shl(f, w), Shl(d, 2 * w));
    XorAssociates(c, Shl(e, w), Shl(f, w));
    XorCommutes(Shl(e, w), Shl(f, w));
    XorShl(f, e, w);
  }

  /** caryless_mul with the multiply instruction: four 64x64 products, recombined word by word. */
  function MulFast(a: Buf128, b: Buf128): Buf256
  {
    var c, e, f, d := Clmul(a.lo, b.lo), Clmul(a.lo, b.hi), Clmul(a.hi, b.lo), Clmul(a.hi, b.hi);
    var r0 := Word(c, 64, 0);
    var r1 := Xor(Xor(Word(f, 64, 0), Word(e, 64, 0)), Word(c, 64, 1));
    var r2 := Xor(Xor(Word(d, 64, 0), Word(e, 64, 1)), Word(f, 64, 1));
    var r3 := Word(d, 64, 1);
    Buf256(Buf128(r0, r1), Buf128(r2, r3))
  }

  lemma ProductsBelow(a: Buf128, b: Buf128, w: nat)
    requires w == 64 && Ok128(a) && Ok128(b)
    ensures Clmul(a.lo, b.lo) < Pow2(2 * w) && Clmul(a.lo, b.hi) < Pow2(2 * w)
    ensures Clmul(a.hi, b.lo) < Pow2(2 * w) && Clmul(a.hi, b.hi) < Pow2(2 * w)
  {
    ClmulBound(a.lo, b.lo, w, w);
    ClmulBound(a.lo, b.hi, w, w);
    ClmulBound(a.hi, b.lo, w, w);
    ClmulBound(a.hi, b.hi, w, w);
  }

  lemma MulFastWords(a: Buf128, b: Buf128, w: nat)
    requires w == 64 && Ok128(a) && Ok128(b)
    ensures var r := MulFast(a, b);
            Ok256(r) && Glue4(r.lo.lo, r.lo.hi, r.hi.lo, r.hi.hi, w) ==
                        Spread(Clmul(a.lo, b.lo), Clmul(a.lo, b.hi), Clmul(a.hi, b.lo), Clmul(a.hi, b.hi), w)
  {
    var c, e, f, d := Clmul(a.lo, b.lo), Clmul(a.lo, b.hi), Clmul(a.hi, b.lo), Clmul(a.hi, b.hi);
    ProductsBelow(a, b, w);
    Recombine(c, e, f, d, w);
    RecombineBit(c, e, f, d, w, 0);
  }

  /** The fast form computes the polynomial product of the 128-bit operands. */
  lemma MulFastIsProduct(a: Buf128, b: Buf128)
    requires Ok128(a) && Ok128(b)
    ensures Ok256(MulFast(a, b)) && Val256(MulFast(a, b)) == Clmul(Val128(a), Val128(b))
  {
    MulFastGlued(a, b, 64);
  }

  lemma MulFastGlued(a: Buf128, b: Buf128, w: nat)
    requires w == 64 && Ok128(a) && Ok128(b)
    ensures var r := MulFast(a, b);
            Ok256(r) && Glue4(r.lo.lo, r.lo.hi, r.hi.lo, r.hi.hi, w) == Clmul(Glue(a.lo, a.hi, w), Glue(b.lo, b.hi, w))
  {
    MulFastWords(a, b, w);
    ProductOfHalves(a.lo, a.hi, b.lo, b.hi, w);
  }

  // ---------------------------------------------------------------- the bit-serial form

  /** operator&(bool): both halves masked with all ones or all zeros. */
  function AndBool128(b: Buf128, c: bool): Buf128
  {
    var mask := if c then Pow2(64) - 1 else 0;
    Buf128(And(b.lo, mask), And(b.hi, mask))
  }

  function AndBool256(b: Buf256, c: bool): Buf256 { Buf256(AndBool128(b.lo, c), AndBool128(b.hi, c)) }

  lemma {:induction false} AndZero(x: nat)
    ensures And(x, 0) == 0
  {
  }

  lemma MaskWord(x: nat, w: nat)
    requires x < Pow2(w)
    ensures And(x, Pow2(w) - 1) == x
  {
    AndMask(x, w);
    LowIdentity(x, w);
  }

  lemma MaskBoth(x: nat, y: nat, w: nat)
    requires x < Pow2(w) && y < Pow2(w)
    ensures And(x, Pow2(w) - 1) == x && And(y, Pow2(w) - 1) == y
  {
    MaskWord(x, w);
    MaskWord(y, w);
  }

  lemma MaskedOn(b: Buf128)
    requires Ok128(b)
    ensures AndBool128(b, true) == b
  {
    MaskBoth(b.lo, b.hi, 64);
  }

  /** Adding a masked-out word changes nothing. */
  lemma MaskedOff(r: Buf128, b: Buf128)
    ensures Xor128(r, AndBool128(b, false)) == r
  {
    AndZero(b.lo);
    AndZero(b.hi);
    XorZero(r.lo);
    XorZero(r.hi);
  }

  lemma Xor256Value(a: Buf256, b: Buf256)
    requires Ok256(a) && Ok256(b)
    ensures Ok256(Xor256(a, b)) && Val256(Xor256(a, b)) == Xor(Val256(a), Val256(b))
  {
    var c := Xor256(a, b);
    Xor128Value(a.lo, b.lo);
    Xor128Value(a.hi, b.hi);
    Val128Below(a.lo);
    Val128Below(b.lo);
    Val128Below(c.lo);
    XorGlue(Val128(a.lo), Val128(a.hi), Val128(b.lo), Val128(b.hi), 128);
  }

  lemma XorGlue(a0: nat, a1: nat, b0: nat, b1: nat, w: nat)
    requires a0 < Pow2(w) && b0 < Pow2(w)
    ensures Glue(Xor(a0, b0), Xor(a1, b1), w) == Xor(Glue(a0, a1, w), Glue(b0, b1, w))
  {
    XorBound(a0, b0, w);
    XorDisjoint(a0, a1, w);
    XorDisjoint(b0, b1, w);
    XorDisjoint(Xor(a0, b0), Xor(a1, b1), w);
    XorShl(a1, b1, w);
    XorSwap(a0, b0, Shl(a1, w), Shl(b1, w));
  }

  /** The low i + 1 bits are the low i bits and the next one at its place. */
  lemma {:induction false} LowNext(b: nat, i: nat)
    ensures Low(b, i + 1) == Xor(Low(b, i), if Bit(b, i) then Shl(1, i) else 0)
  {
    var s := if Bit(b, i) then Shl(1, i) else 0;
    forall k: nat ensures Bit(Low(b, i + 1), k) == Bit(Xor(Low(b, i), s), k) {
      LowBits(b, i + 1, k);
      LowBits(b, i, k);
      XorBits(Low(b, i), s, k);
      ZeroBits(k);
      ShlBits(1, i, k);
      OneBits(if k >= i then k - i else 0);
    }
    Extensionality(Low(b, i + 1), Xor(Low(b, i), s));
  }

  lemma OneBits(i: nat)
    ensures Bit(1, i) == (i == 0)
  {
    if i > 0 { ZeroBits(i - 1); assert 1 / 2 == 0; }
  }

  lemma ClmulOne(a: nat, i: nat)
    ensures Clmul(a, Shl(1, i)) == Shl(a, i)
  {
    ClmulShiftRight(a, 1, i);
    ClmulUnfold(a, 1);
    assert Clmul(a, 0) == 0;
    XorZero(a);
  }

  /** One round of the loop adds the shifted operand when the bit is set. */
  lemma SerialStep(a: nat, b: nat, i: nat)
    ensures Clmul(a, Low(b, i + 1)) == Xor(Clmul(a, Low(b, i)), if Bit(b, i) then Shl(a, i) else 0)
  {
    LowNext(b, i);
    ClmulAddRight(a, Low(b, i), if Bit(b, i) then Shl(1, i) else 0);
    ClmulOne(a, i);
  }

  lemma {:induction false} ShiftedBelow(a: nat, i: nat, w: nat)
    requires a < Pow2(w) && i <= w
    ensures Shl(a, i) < Pow2(2 * w)
    ensures Low(Shl(a, i), 2 * w) == Shl(a, i)
  {
    ShlIsMul(a, i);
    Pow2Add(w, i);
    MulLess(a, Pow2(w), Pow2(i));
    Pow2Bound(w + i, 2 * w);
    LowIdentity(Shl(a, i), 2 * w);
  }

  lemma MulLess(a: nat, p: nat, q: nat)
    requires a < p && q > 0
    ensures a * q < p * q
  {
    var d: int := p - a;
    assert d * q == p * q - a * q;
    MulGrows(d, q);
  }

  /** caryless_mul without the instruction: 128 rounds of shift and conditional xor. */
  method MulSerial(a: Buf128, b: Buf128) returns (r: Buf256)
    requires Ok128(a) && Ok128(b)
    ensures Ok256(r) && Val256(r) == Clmul(Val128(a), Val128(b))
  {
    var zero := MakeZero();
    r := StartSum(zero, Val128(a), Val128(b));
    var m := StartOperand(a, zero);
    for i := 0 to 128
      invariant Ok256(r) && Ok256(m)
      invariant Val256(m) == Shl(Val128(a), i)
      invariant Val256(r) == Clmul(Val128(a), Low(Val128(b), i))
    {
      r, m := SerialRound(a, b, i, r, m);
    }
    AllBits(b);
  }

  /** r ^= m & b.get_bit(i); m <<= 1. */
  method SerialRound(a: Buf128, b: Buf128, i: nat, r: Buf256, m: Buf256) returns (r': Buf256, m': Buf256)
    requires Ok128(a) && Ok128(b) && i < 128 && Ok256(r) && Ok256(m)
    requires Val256(m) == Shl(Val128(a), i) && Val256(r) == Clmul(Val128(a), Low(Val128(b), i))
    ensures Ok256(r') && Ok256(m')
    ensures Val256(m') == Shl(Val128(a), i + 1)
    ensures Val256(r') == Clmul(Val128(a), Low(Val128(b), i + 1))
  {
    r' := Xor256(r, AndBool256(m, GetBit128(b, i)));
    m' := ShiftLeft256(m, 1);
    AddRound(b, i, r, m);
    SerialStep(Val128(a), Val128(b), i);
    ShiftRound(a, i, m);
  }

  lemma AddMasked(r: Buf256, m: Buf256, c: bool)
    requires Ok256(r) && Ok256(m)
    ensures var s := Xor256(r, AndBool256(m, c));
            Ok256(s) && Val256(s) == if c then Xor(Val256(r), Val256(m)) else Val256(r)
  {
    if c {
      MaskedOn(m.lo);
      MaskedOn(m.hi);
      Xor256Value(r, m);
    } else {
      MaskedOff(r.lo, m.lo);
      MaskedOff(r.hi, m.hi);
    }
  }

  lemma AddRound(b: Buf128, i: nat, r: Buf256, m: Buf256)
    requires Ok128(b) && i < 128 && Ok256(r) && Ok256(m)
    ensures var s := Xor256(r, AndBool256(m, GetBit128(b, i)));
            Ok256(s) && Val256(s) == Xor(Val256(r), if Bit(Val128(b), i) then Val256(m) else 0)
  {
    AddMasked(r, m, GetBit128(b, i));
    GetBit128Value(b, i);
    XorZero(Val256(r));
  }

  lemma ShiftRound(a: Buf128, i: nat, m: Buf256)
    requires Ok128(a) && i < 128 && Ok256(m) && Val256(m) == Shl(Val128(a), i)
    ensures Ok256(ShiftLeft256(m, 1)) && Val256(ShiftLeft256(m, 1)) == Shl(Val128(a), i + 1)
  {
    Shift256Values(m, 1);
    ShlCompose(Val128(a), i, 1);
    Val128Below(a);
    ShiftedBelow(Val128(a), i + 1, 128);
  }

  predicate IsZero(z: Buf128) { z.lo == 0 && z.hi == 0 }

  lemma NoBits(z: Buf128, i: nat)
    requires IsZero(z)
    ensures !Bit(Val128(z), i)
  {
    ZeroHalves(z);
    ZeroBits(i);
  }

  lemma LowerOnly(m: Buf256)
    requires Ok256(m) && IsZero(m.hi)
    ensures Val256(m) == Val128(m.lo)
  {
    Val128Below(m.lo);
    forall i: nat ensures Bit(Val256(m), i) == Bit(Val128(m.lo), i) {
      GlueBits(Val128(m.lo), Val128(m.hi), 128, i);
      if i >= 128 {
        NoBits(m.hi, i - 128);
        HighBitsZero(Val128(m.lo), 128, i);
      }
    }
    Extensionality(Val256(m), Val128(m.lo));
  }

  lemma CancelsToZero(r: Buf256, x: nat)
    requires Ok256(r) && Xor256(r, r) == r && x == Val256(r)
    ensures x == 0
  {
    Xor256Value(r, r);
    XorSelf(x);
  }

  method MakeZero() returns (z: Buf128)
    ensures IsZero(z)
  {
    z := ZERO128;
  }

  lemma EmptyProduct(v: nat, x: nat, y: nat)
    requires v == 0
    ensures v == Clmul(x, Low(y, 0))
  {
  }

  /** The initial accumulator. */
  method StartSum(zero: Buf128, ghost x: nat, ghost y: nat) returns (r: Buf256)
    requires IsZero(zero)
    ensures Ok256(r) && Val256(r) == Clmul(x, Low(y, 0))
  {
    r := Buf256(zero, zero);
    ghost var v := Val256(r);
    CancelsToZero(r, v);
    EmptyProduct(v, x, y);
  }

  /** The initial operand: a in the low half. */
  method StartOperand(a: Buf128, zero: Buf128) returns (m: Buf256)
    requires Ok128(a) && IsZero(zero)
    ensures Ok256(m) && Val256(m) == Shl(Val128(a), 0)
  {
    m := Buf256(a, zero);
    LowerOnly(m);
  }

  lemma AllBits(b: Buf128)
    requires Ok128(b)
    ensures Low(Val128(b), 128) == Val128(b)
  {
    Val128Below(b);
    LowIdentity(Val128(b), 128);
  }

  /** Both forms give the same 256-bit result, bit for bit: the polynomial product. */
  method FastEqualsSerial(a: Buf128, b: Buf128) returns (r: Buf256)
    requires Ok128(a) && Ok128(b)
    ensures r == MulFast(a, b)
    ensures Val256(r) == Clmul(Val128(a), Val128(b))
  {
    r := MulSerial(a, b);
    MulFastIsProduct(a, b);
    Val256Injective(r, MulFast(a, b));
  }
}
