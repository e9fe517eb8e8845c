/** 128- and 256-bit words built from halves (`buf128_t`, `buf256_t`): shifts and single bits. */
module WideWords {
  import opened Arithmetic
  import opened Bits

  // ---------------------------------------------------------------- a number from two halves

  lemma {:induction false} GlueBelow(lo: nat, hi: nat, w: nat)
    requires lo < Pow2(w) && hi < Pow2(w)
    ensures Glue(lo, hi, w) < Pow2(2 * w)
  {
    ShlIsMul(hi, w);
    Pow2Add(w, w);
    assert w + w == 2 * w;
    BelowSquare(lo, hi, Pow2(w));
  }

  lemma BelowSquare(lo: nat, hi: nat, p: nat)
    requires lo < p && hi < p
    ensures lo + hi * p < p * p
  {
    var d: int := p - hi;
    assert d * p == p * p - hi * p;
    MulGrows(d, p);
  }

  lemma GlueInjective(lo: nat, hi: nat, lo': nat, hi': nat, w: nat)
    requires lo < Pow2(w) && lo' < Pow2(w) && Glue(lo, hi, w) == Glue(lo', hi', w)
    ensures lo == lo' && hi == hi'
  {
    ShlIsMul(hi, w);
    ShlIsMul(hi', w);
    RemainderUnique(Glue(lo, hi, w), hi, lo, Pow2(w));
    RemainderUnique(Glue(lo, hi, w), hi', lo', Pow2(w));
  }

  /** The halves of a shifted pair, as both classes compute them with w-bit operations. */
  function ShlHalves(lo: nat, hi: nat, w: nat, n: nat): (nat, nat)
    requires n < 2 * w
  {
    if n == 0 then (lo, hi)
    else if n == w then (0, lo)
    else if n > w then (0, Low(Shl(lo, n - w), w))
    else (Low(Shl(lo, n), w), Or(Low(Shl(hi, n), w), Shr(lo, w - n)))
  }

  function ShrHalves(lo: nat, hi: nat, w: nat, n: nat): (nat, nat)
    requires n < 2 * w
  {
    if n == 0 then (lo, hi)
    else if n == w then (hi, 0)
    else if n > w then (Shr(hi, n - w), 0)
    else (Or(Shr(lo, n), Low(Shl(hi, w - n), w)), Shr(hi, n))
  }

  lemma LowBelow(x: nat, w: nat)
    ensures Low(x, w) < Pow2(w)
  {
    Split(x, w);
  }

  lemma ShrBelow(x: nat, w: nat, n: nat)
    requires x < Pow2(w)
    ensures Shr(x, n) <= x && Shr(x, n) < Pow2(w)
  {
    ShrAtMost(x, n);
  }

  lemma {:induction false} ShrAtMost(x: nat, n: nat)
    ensures Shr(x, n) <= x
    decreases n
  {
    if n > 0 { ShrAtMost(x / 2, n - 1); }
  }

  lemma ShlHalvesBelow(lo: nat, hi: nat, w: nat, n: nat)
    requires n < 2 * w && lo < Pow2(w) && hi < Pow2(w)
    ensures var (l, r) := ShlHalves(lo, hi, w, n); l < Pow2(w) && r < Pow2(w)
  {
    if n > w {
      LowBelow(Shl(lo, n - w), w);
    } else if 0 < n < w {
      LowBelow(Shl(lo, n), w);
      LowBelow(Shl(hi, n), w);
      ShrBelow(lo, w, w - n);
      OrBound(Low(Shl(hi, n), w), Shr(lo, w - n), w);
    }
  }

  lemma ShrHalvesBelow(lo: nat, hi: nat, w: nat, n: nat)
    requires n < 2 * w && lo < Pow2(w) && hi < Pow2(w)
    ensures var (l, r) := ShrHalves(lo, hi, w, n); l < Pow2(w) && r < Pow2(w)
  {
    if n > w {
      ShrBelow(hi, w, n - w);
    } else if 0 < n < w {
      ShrBelow(lo, w, n);
      ShrBelow(hi, w, n);
      LowBelow(Shl(hi, w - n), w);
      OrBound(Shr(lo, n), Low(Shl(hi, w - n), w), w);
    }
  }

  /** One bit of the shifted halves. */
  lemma ShlHalvesBit(lo: nat, hi: nat, w: nat, n: nat, i: nat)
    requires n < 2 * w && lo < Pow2(w) && hi < Pow2(w) && i < 2 * w
    ensures var (l, r) := ShlHalves(lo, hi, w, n);
            (if i < w then Bit(l, i) else Bit(r, i - w)) ==
            (i >= n && if i - n < w then Bit(lo, i - n) else Bit(hi, i - n - w))
  {
    ZeroBits(i);
    if n > w {
      if i >= w {
        LowBits(Shl(lo, n - w), w, i - w);
        ShlBits(lo, n - w, i - w);
      }
    } else if 0 < n < w {
      if i < w {
        LowBits(Shl(lo, n), w, i);
        ShlBits(lo, n, i);
      } else {
        OrBits(Low(Shl(hi, n), w), Shr(lo, w - n), i - w);
        LowBits(Shl(hi, n), w, i - w);
        ShlBits(hi, n, i - w);
        ShrBits(lo, w - n, i - w);
        if i - n >= w { HighBitsZero(lo, w, i - n); }
      }
    }
  }

  lemma ShrHalvesBit(lo: nat, hi: nat, w: nat, n: nat, i: nat)
    requires n < 2 * w && lo < Pow2(w) && hi < Pow2(w) && i < 2 * w
    ensures var (l, r) := ShrHalves(lo, hi, w, n);
            (if i < w then Bit(l, i) else Bit(r, i - w)) ==
            (if i + n < w then Bit(lo, i + n) else Bit(hi, i + n - w))
  {
    ZeroBits(if i < w then i else i - w);
    if n > w {
      if i < w { ShrBits(hi, n - w, i); } else { HighBitsZero(hi, w, i + n - w); }
    } else if 0 < n < w {
      if i < w {
        OrBits(Shr(lo, n), Low(Shl(hi, w - n), w), i);
        ShrBits(lo, n, i);
        LowBits(Shl(hi, w - n), w, i);
        ShlBits(hi, w - n, i);
        if i + n >= w { HighBitsZero(lo, w, i + n); }
      } else {
        ShrBits(hi, n, i - w);
      }
    } else if n == w && i >= w {
      HighBitsZero(hi, w, i);
    }
  }

  /** Shifting the halves is shifting the number and keeping 2 * w bits. */
  lemma ShlHalvesValue(lo: nat, hi: nat, w: nat, n: nat)
    requires n < 2 * w && lo < Pow2(w) && hi < Pow2(w)
    ensures var (l, r) := ShlHalves(lo, hi, w, n);
            Glue(l, r, w) == Low(Shl(Glue(lo, hi, w), n), 2 * w)
  {
    var (l, r) := ShlHalves(lo, hi, w, n);
    var v := Glue(lo, hi, w);
    ShlHalvesBelow(lo, hi, w, n);
    GlueBelow(l, r, w);
    forall i: nat ensures Bit(Glue(l, r, w), i) == Bit(Low(Shl(v, n), 2 * w), i) {
      LowBits(Shl(v, n), 2 * w, i);
      ShlBits(v, n, i);
      if i < 2 * w {
        GlueBits(l, r, w, i);
        ShlHalvesBit(lo, hi, w, n, i);
        if i >= n { GlueBits(lo, hi, w, i - n); }
      } else {
        HighBitsZero(Glue(l, r, w), 2 * w, i);
      }
    }
    Extensionality(Glue(l, r, w), Low(Shl(v, n), 2 * w));
  }

  lemma ShrHalvesValue(lo: nat, hi: nat, w: nat, n: nat)
    requires n < 2 * w && lo < Pow2(w) && hi < Pow2(w)
    ensures var (l, r) := ShrHalves(lo, hi, w, n);
            Glue(l, r, w) == Shr(Glue(lo, hi, w), n)
  {
    var (l, r) := ShrHalves(lo, hi, w, n);
    var v := Glue(lo, hi, w);
    ShrHalvesBelow(lo, hi, w, n);
    GlueBelow(l, r, w);
    GlueBelow(lo, hi, w);
    forall i: nat ensures Bit(Glue(l, r, w), i) == Bit(Shr(v, n), i) {
      ShrBits(v, n, i);
      if i < 2 * w {
        GlueBits(l, r, w, i);
        ShrHalvesBit(lo, hi, w, n, i);
        GlueBits(lo, hi, w, i + n);
      } else {
        HighBitsZero(Glue(l, r, w), 2 * w, i);
        HighBitsZero(v, 2 * w, i + n);
      }
    }
    Extensionality(Glue(l, r, w), Shr(v, n));
  }

  // ---------------------------------------------------------------- buf128_t

  datatype Buf128 = Buf128(lo: nat, hi: nat)

  predicate Ok128(b: Buf128) { b.lo < Pow2(64) && b.hi < Pow2(64) }

  function Val128(b: Buf128): nat { Glue(b.lo, b.hi, 64) }

  function Or128(a: Buf128, b: Buf128): Buf128 { Buf128(Or(a.lo, b.lo), Or(a.hi, b.hi)) }

  function Xor128(a: Buf128, b: Buf128): Buf128 { Buf128(Xor(a.lo, b.lo), Xor(a.hi, b.hi)) }

  const ZERO128 := Buf128(0, 0)

  /** operator<<, on 64-bit words. */
  function ShiftLeft128(b: Buf128, n: nat): Buf128
    requires n < 128
  {
    if n == 0 then b
    else if n == 64 then Buf128(0, b.lo)
    else if n > 64 then Buf128(0, Low(Shl(b.lo, n - 64), 64))
    else Buf128(Low(Shl(b.lo, n), 64), Or(Low(Shl(b.hi, n), 64), Shr(b.lo, 64 - n)))
  }

  /** operator>>. */
  function ShiftRight128(b: Buf128, n: nat): Buf128
    requires n < 128
  {
    if n == 0 then b
    else if n == 64 then Buf128(b.hi, 0)
    else if n > 64 then Buf128(Shr(b.hi, n - 64), 0)
    else Buf128(Or(Shr(b.lo, n), Low(Shl(b.hi, 64 - n), 64)), Shr(b.hi, n))
  }

  /** get_bit. */
  predicate GetBit128(b: Buf128, i: nat)
    requires i < 128
  {
    var limb := if i / 64 == 0 then b.lo else b.hi;
    Shr(limb, i % 64) % 2 == 1
  }

  lemma GetBit128Limb(b: Buf128, i: nat)
    requires i < 128
    ensures GetBit128(b, i) == if i < 64 then Bit(b.lo, i) else Bit(b.hi, i - 64)
  {
    ShrBits(if i < 64 then b.lo else b.hi, i % 64, 0);
  }

  lemma GetBit128Value(b: Buf128, i: nat)
    requires Ok128(b) && i < 128
    ensures GetBit128(b, i) == Bit(Val128(b), i)
  {
    GetBit128Limb(b, i);
    GlueBits(b.lo, b.hi, 64, i);
  }

  lemma Val128Below(b: Buf128)
    requires Ok128(b)
    ensures Val128(b) < Pow2(128)
  {
    GlueBelow(b.lo, b.hi, 64);
  }

  lemma Val128Injective(a: Buf128, b: Buf128)
    requires Ok128(a) && Ok128(b) && Val128(a) == Val128(b)
    ensures a == b
  {
    GlueInjective(a.lo, a.hi, b.lo, b.hi, 64);
  }

  /** The 128-bit shifts are multiplication modulo 2^128 and division. */
  lemma Shift128IsArithmetic(b: Buf128, n: nat)
    requires Ok128(b) && n < 128
    ensures Ok128(ShiftLeft128(b, n)) && Val128(ShiftLeft128(b, n)) == Val128(b) * Pow2(n) % Pow2(128)
    ensures Ok128(ShiftRight128(b, n)) && Val128(ShiftRight128(b, n)) == Val128(b) / Pow2(n)
  {
    Shift128Values(b, n);
    ShlIsMul(Val128(b), n);
    ShrLowAreDivMod(Shl(Val128(b), n), 128);
    ShrLowAreDivMod(Val128(b), n);
  }

  lemma Shift128Values(b: Buf128, n: nat)
    requires Ok128(b) && n < 128
    ensures Ok128(ShiftLeft128(b, n)) && Val128(ShiftLeft128(b, n)) == Low(Shl(Val128(b), n), 128)
    ensures Ok128(ShiftRight128(b, n)) && Val128(ShiftRight128(b, n)) == Shr(Val128(b), n)
  {
    var (l, r) := ShlHalves(b.lo, b.hi, 64, n);
    assert ShiftLeft128(b, n) == Buf128(l, r);
    var (l', r') := ShrHalves(b.lo, b.hi, 64, n);
    assert ShiftRight128(b, n) == Buf128(l', r');
    ShlHalvesBelow(b.lo, b.hi, 64, n);
    ShrHalvesBelow(b.lo, b.hi, 64, n);
    ShlHalvesValue(b.lo, b.hi, 64, n);
    ShrHalvesValue(b.lo, b.hi, 64, n);
  }

  lemma Or128Value(a: Buf128, b: Buf128)
    requires Ok128(a) && Ok128(b)
    ensures Ok128(Or128(a, b)) && Val128(Or128(a, b)) == Or(Val128(a), Val128(b))
  {
    var c := Or128(a, b);
    OrBound(a.lo, b.lo, 64);
    OrBound(a.hi, b.hi, 64);
    forall i: nat ensures Bit(Val128(c), i) == Bit(Or(Val128(a), Val128(b)), i) {
      OrBits(Val128(a), Val128(b), i);
      GlueBits(a.lo, a.hi, 64, i);
      GlueBits(b.lo, b.hi, 64, i);
      GlueBits(c.lo, c.hi, 64, i);
      if i < 64 { OrBits(a.lo, b.lo, i); } else { OrBits(a.hi, b.hi, i - 64); }
    }
    Extensionality(Val128(c), Or(Val128(a), Val128(b)));
  }

  lemma Xor128Value(a: Buf128, b: Buf128)
    requires Ok128(a) && Ok128(b)
    ensures Ok128(Xor128(a, b)) && Val128(Xor128(a, b)) == Xor(Val128(a), Val128(b))
  {
    var c := Xor128(a, b);
    XorBound(a.lo, b.lo, 64);
    XorBound(a.hi, b.hi, 64);
    forall i: nat ensures Bit(Val128(c), i) == Bit(Xor(Val128(a), Val128(b)), i) {
      XorBits(Val128(a), Val128(b), i);
      GlueBits(a.lo, a.hi, 64, i);
      GlueBits(b.lo, b.hi, 64, i);
      GlueBits(c.lo, c.hi, 64, i);
      if i < 64 { XorBits(a.lo, b.lo, i); } else { XorBits(a.hi, b.hi, i - 64); }
    }
    Extensionality(Val128(c), Xor(Val128(a), Val128(b)));
  }

  // ---------------------------------------------------------------- buf256_t

  datatype Buf256 = Buf256(lo: Buf128, hi: Buf128)

  predicate Ok256(b: Buf256) { Ok128(b.lo) && Ok128(b.hi) }

  function Val256(b: Buf256): nat { Glue(Val128(b.lo), Val128(b.hi), 128) }

  function Xor256(a: Buf256, b: Buf256): Buf256 { Buf256(Xor128(a.lo, b.lo), Xor128(a.hi, b.hi)) }

  /** operator<<, on 128-bit halves that are themselves shifted in halves. */
  function ShiftLeft256(b: Buf256, n: nat): Buf256
    requires n < 256
  {
    if n == 0 then b
    else if n == 128 then Buf256(ZERO128, b.lo)
    else if n > 128 then Buf256(ZERO128, ShiftLeft128(b.lo, n - 128))
    else Buf256(ShiftLeft128(b.lo, n), Or128(ShiftLeft128(b.hi, n), ShiftRight128(b.lo, 128 - n)))
  }

  function ShiftRight256(b: Buf256, n: nat): Buf256
    requires n < 256
  {
    if n == 0 then b
    else if n == 128 then Buf256(b.hi, ZERO128)
    else if n > 128 then Buf256(ShiftRight128(b.hi, n - 128), ZERO128)
    else Buf256(Or128(ShiftRight128(b.lo, n), ShiftLeft128(b.hi, 128 - n)), ShiftRight128(b.hi, n))
  }

  predicate GetBit256(b: Buf256, i: nat)
    requires i < 256
  {
    if i < 128 then GetBit128(b.lo, i) else GetBit128(b.hi, i - 128)
  }

  lemma BitOfHalves(b: Buf256, i: nat, w: nat)
    requires Ok256(b) && w == 128
    ensures Bit(Val256(b), i) == if i < w then Bit(Val128(b.lo), i) else Bit(Val128(b.hi), i - w)
  {
    Val128Below(b.lo);
    GlueBits(Val128(b.lo), Val128(b.hi), w, i);
  }

  lemma GetBit256Value(b: Buf256, i: nat)
    requires Ok256(b) && i < 256
    ensures GetBit256(b, i) == Bit(Val256(b), i)
  {
    BitOfHalves(b, i, 128);
    if i < 128 { GetBit128Value(b.lo, i); } else { GetBit128Value(b.hi, i - 128); }
  }

  lemma Val256Injective(a: Buf256, b: Buf256)
    requires Ok256(a) && Ok256(b) && Val256(a) == Val256(b)
    ensures a == b
  {
    Val128Below(a.lo);
    Val128Below(b.lo);
    GlueInjective(Val128(a.lo), Val128(a.hi), Val128(b.lo), Val128(b.hi), 128);
    Val128Injective(a.lo, b.lo);
    Val128Injective(a.hi, b.hi);
  }

  /** Values of the parts of a 256-bit shift by less than a half. */
  lemma MiddleParts(x: Buf128, y: Buf128, n: nat)
    requires Ok128(x) && Ok128(y) && 0 < n < 128
    ensures var p := Or128(ShiftLeft128(y, n), ShiftRight128(x, 128 - n));
            Ok128(p) && Val128(p) == Or(Low(Shl(Val128(y), n), 128), Shr(Val128(x), 128 - n))
    ensures var p := Or128(ShiftRight128(x, n), ShiftLeft128(y, 128 - n));
            Ok128(p) && Val128(p) == Or(Shr(Val128(x), n), Low(Shl(Val128(y), 128 - n), 128))
  {
    Shift128Values(x, n);
    Shift128Values(y, n);
    Shift128Values(x, 128 - n);
    Shift128Values(y, 128 - n);
    Or128Value(ShiftLeft128(y, n), ShiftRight128(x, 128 - n));
    Or128Value(ShiftRight128(x, n), ShiftLeft128(y, 128 - n));
  }

  lemma ZeroHalves(z: Buf128)
    requires z.lo == 0 && z.hi == 0
    ensures Ok128(z) && Val128(z) == 0
  {
    ShlIsMul(z.hi, 64);
    assert z.hi * Pow2(64) == 0;
  }

  /** The halves of a 256-bit word as numbers. */
  function Halves(s: Buf256): (nat, nat) { (Val128(s.lo), Val128(s.hi)) }

  lemma UpperZero(b: Buf256, n: nat, z: Buf128)
    requires 128 <= n < 256 && (z == ShiftLeft256(b, n).lo || z == ShiftRight256(b, n).hi)
    ensures Ok128(z) && Val128(z) == 0
  {
    assert z.lo == 0 && z.hi == 0;
    ZeroHalves(z);
  }

  lemma LeftByMore(b: Buf256, n: nat, m: nat)
    requires Ok256(b) && 128 < n < 256 && m == n - 128
    ensures Ok128(ShiftLeft256(b, n).hi) && Val128(ShiftLeft256(b, n).hi) == Low(Shl(Val128(b.lo), m), 128)
    ensures Ok128(ShiftRight256(b, n).lo) && Val128(ShiftRight256(b, n).lo) == Shr(Val128(b.hi), m)
  {
    Shift128Values(b.lo, m);
    Shift128Values(b.hi, m);
  }

  lemma ShiftByLess(b: Buf256, n: nat)
    requires Ok256(b) && 0 < n < 128
    ensures Ok256(ShiftLeft256(b, n)) && Halves(ShiftLeft256(b, n)) == ShlHalves(Val128(b.lo), Val128(b.hi), 128, n)
    ensures Ok256(ShiftRight256(b, n)) && Halves(ShiftRight256(b, n)) == ShrHalves(Val128(b.lo), Val128(b.hi), 128, n)
  {
    Shift128Values(b.lo, n);
    Shift128Values(b.hi, n);
    MiddleParts(b.lo, b.hi, n);
  }

  lemma LeftFar(b: Buf256, n: nat)
    requires Ok256(b) && 128 < n < 256
    ensures Ok256(ShiftLeft256(b, n)) && Halves(ShiftLeft256(b, n)) == ShlHalves(Val128(b.lo), Val128(b.hi), 128, n)
  {
    UpperZero(b, n, ShiftLeft256(b, n).lo);
    LeftByMore(b, n, n - 128);
  }

  lemma LeftByHalf(b: Buf256, n: nat)
    requires Ok256(b) && n == 128
    ensures Ok256(ShiftLeft256(b, n)) && Halves(ShiftLeft256(b, n)) == ShlHalves(Val128(b.lo), Val128(b.hi), 128, n)
  {
    UpperZero(b, n, ShiftLeft256(b, n).lo);
  }

  lemma RightFar(b: Buf256, n: nat)
    requires Ok256(b) && 128 < n < 256
    ensures Ok256(ShiftRight256(b, n)) && Halves(ShiftRight256(b, n)) == ShrHalves(Val128(b.lo), Val128(b.hi), 128, n)
  {
    UpperZero(b, n, ShiftRight256(b, n).hi);
    LeftByMore(b, n, n - 128);
  }

  lemma RightByHalf(b: Buf256, n: nat)
    requires Ok256(b) && n == 128
    ensures Ok256(ShiftRight256(b, n)) && Halves(ShiftRight256(b, n)) == ShrHalves(Val128(b.lo), Val128(b.hi), 128, n)
  {
    UpperZero(b, n, ShiftRight256(b, n).hi);
  }

  lemma Shift256Halves(b: Buf256, n: nat)
    requires Ok256(b) && n < 256
    ensures Ok256(ShiftLeft256(b, n)) && Halves(ShiftLeft256(b, n)) == ShlHalves(Val128(b.lo), Val128(b.hi), 128, n)
    ensures Ok256(ShiftRight256(b, n)) && Halves(ShiftRight256(b, n)) == ShrHalves(Val128(b.lo), Val128(b.hi), 128, n)
  {
    if n > 128 {
      LeftFar(b, n);
      RightFar(b, n);
    } else if n == 128 {
      LeftByHalf(b, n);
      RightByHalf(b, n);
    } else if n > 0 {
      ShiftByLess(b, n);
    }
  }

  lemma Shift256Values(b: Buf256, n: nat)
    requires Ok256(b) && n < 256
    ensures Ok256(ShiftLeft256(b, n)) && Val256(ShiftLeft256(b, n)) == Low(Shl(Val256(b), n), 256)
    ensures Ok256(ShiftRight256(b, n)) && Val256(ShiftRight256(b, n)) == Shr(Val256(b), n)
  {
    Val128Below(b.lo);
    Val128Below(b.hi);
    Shift256Halves(b, n);
    ShlHalvesValue(Val128(b.lo), Val128(b.hi), 128, n);
    ShrHalvesValue(Val128(b.lo), Val128(b.hi), 128, n);
  }

  /** Two levels of halves still give multiplication modulo 2^256 and division. */
  lemma Shift256IsArithmetic(b: Buf256, n: nat)
    requires Ok256(b) && n < 256
    ensures Ok256(ShiftLeft256(b, n)) && Val256(ShiftLeft256(b, n)) == Val256(b) * Pow2(n) % Pow2(256)
    ensures Ok256(ShiftRight256(b, n)) && Val256(ShiftRight256(b, n)) == Val256(b) / Pow2(n)
  {
    Shift256Values(b, n);
    ShlIsMul(Val256(b), n);
    ShrLowAreDivMod(Shl(Val256(b), n), 256);
    ShrLowAreDivMod(Val256(b), n);
  }

  /** Every bit moves as get_bit reports. */
  lemma Shift256MovesBits(b: Buf256, n: nat, i: nat)
    requires Ok256(b) && n < 256 && i < 256
    ensures GetBit256(ShiftLeft256(b, n), i) == (i >= n && GetBit256(b, i - n))
    ensures GetBit256(ShiftRight256(b, n), i) == (i + n < 256 && GetBit256(b, i + n))
  {
    LeftMovesBit(b, n, i, Val256(b));
    RightMovesBit(b, n, i, Val256(b));
    if i >= n { GetBit256Value(b, i - n); }
    if i + n < 256 { GetBit256Value(b, i + n); }
  }

  lemma LeftMovesBit(b: Buf256, n: nat, i: nat, v: nat)
    requires Ok256(b) && n < 256 && i < 256 && v == Val256(b)
    ensures GetBit256(ShiftLeft256(b, n), i) == (i >= n && Bit(v, i - n))
  {
    Shift256Values(b, n);
    GetBit256Value(ShiftLeft256(b, n), i);
    LowBits(Shl(v, n), 256, i);
    ShlBits(v, n, i);
  }

  lemma RightMovesBit(b: Buf256, n: nat, i: nat, v: nat)
    requires Ok256(b) && n < 256 && i < 256 && v == Val256(b)
    ensures GetBit256(ShiftRight256(b, n), i) == (i + n < 256 && Bit(v, i + n))
  {
    Shift256Values(b, n);
    GetBit256Value(ShiftRight256(b, n), i);
    ShrBits(v, n, i);
    if i + n >= 256 { NoBitAbove(b, i + n); }
  }

  lemma NoBitAbove(b: Buf256, i: nat)
    requires Ok256(b) && i >= 256
    ensures !Bit(Val256(b), i)
  {
    Val128Below(b.lo);
    Val128Below(b.hi);
    GlueBelow(Val128(b.lo), Val128(b.hi), 128);
    HighBitsZero(Val256(b), 256, i);
  }

  // ---------------------------------------------------------------- single bits

  /** set_bit. */
  function SetBit128(b: Buf128, i: nat, v: bool): Buf128
    requires i < 128
  {
    if i < 64 then b.(lo := SetLimb(b.lo, i, v)) else b.(hi := SetLimb(b.hi, i - 64, v))
  }

  function SetBit256(b: Buf256, i: nat, v: bool): Buf256
    requires i < 256
  {
    if i < 128 then b.(lo := SetBit128(b.lo, i, v)) else b.(hi := SetBit128(b.hi, i - 128, v))
  }

  /** from_bit_index. */
  function FromBitIndex(i: nat): Buf128
    requires i < 128
  {
    if i < 64 then Buf128(Shl(1, i), 0) else Buf128(0, Shl(1, i - 64))
  }

  /** set_bit changes the one bit that get_bit then reports. */
  lemma SetBit128Moves(b: Buf128, i: nat, v: bool, j: nat)
    requires i < 128 && j < 128
    ensures GetBit128(SetBit128(b, i, v), j) == if j == i then v else GetBit128(b, j)
  {
    var c := SetBit128(b, i, v);
    GetBit128Limb(b, j);
    GetBit128Limb(c, j);
    if i < 64 && j < 64 { SetLimbBits(b.lo, i, v, j); }
    if i >= 64 && j >= 64 { SetLimbBits(b.hi, i - 64, v, j - 64); }
  }

  lemma SetBit256Moves(b: Buf256, i: nat, v: bool, j: nat)
    requires i < 256 && j < 256
    ensures GetBit256(SetBit256(b, i, v), j) == if j == i then v else GetBit256(b, j)
  {
    if i < 128 && j < 128 { SetBit128Moves(b.lo, i, v, j); }
    if i >= 128 && j >= 128 { SetBit128Moves(b.hi, i - 128, v, j - 128); }
  }

  /** from_bit_index is the word with that one bit. */
  lemma FromBitIndexBits(i: nat, j: nat)
    requires i < 128 && j < 128
    ensures GetBit128(FromBitIndex(i), j) == (i == j)
  {
    GetBit128Limb(FromBitIndex(i), j);
    var k := if i < 64 then i else i - 64;
    var l := if j < 64 then j else j - 64;
    ShlBits(1, k, l);
    ZeroBits(l);
    if l > k { HighBitsZero(1, 1, l - k); }
  }
}
