/** Machine words as natural numbers.

    The library works on `unsigned`, `uint64_t` and byte values with shifts and masks. Here a
    word is a natural number, and every operator is defined on its binary digits, so that the
    facts proved about it hold for every width. `Bit` is the observation all of them reduce to:
    two numbers with the same bits are equal (`Extensionality`).
 */
module Bits {
  import opened Arithmetic

  function Pow2(n: nat): (p: nat)
    ensures p >= 1
  {
    if n == 0 then 1 else 2 * Pow2(n - 1)
  }

  /** The i-th binary digit of x. */
  predicate Bit(x: nat, i: nat)
    decreases i, x
  {
    if i == 0 then x % 2 == 1 else Bit(x / 2, i - 1)
  }

  function And(x: nat, y: nat): nat
  {
    if x == 0 || y == 0 then 0
    else (if x % 2 == 1 && y % 2 == 1 then 1 else 0) + 2 * And(x / 2, y / 2)
  }

  function Or(x: nat, y: nat): nat
  {
    if x == 0 && y == 0 then 0
    else (if x % 2 == 1 || y % 2 == 1 then 1 else 0) + 2 * Or(x / 2, y / 2)
  }

  function Xor(x: nat, y: nat): nat
  {
    if x == 0 && y == 0 then 0
    else (if x % 2 != y % 2 then 1 else 0) + 2 * Xor(x / 2, y / 2)
  }

  /** Left shift without a width: x * 2^n. */
  function Shl(x: nat, n: nat): nat
    decreases n, x
  {
    if n == 0 then x else 2 * Shl(x, n - 1)
  }

  /** Logical right shift: x / 2^n. */
  function Shr(x: nat, n: nat): nat
    decreases n, x
  {
    if n == 0 then x else Shr(x / 2, n - 1)
  }

  /** The low n bits of x: what a store to an n-bit word keeps. */
  function Low(x: nat, n: nat): nat
    decreases n, x
  {
    if n == 0 then 0 else x % 2 + 2 * Low(x / 2, n - 1)
  }

  // ---------------------------------------------------------------- bits of each operator

  lemma {:induction false} ZeroBits(i: nat)
    ensures !Bit(0, i)
    decreases i
  {
    if i > 0 { ZeroBits(i - 1); }
  }

  lemma {:induction false} AndBits(x: nat, y: nat, i: nat)
    ensures Bit(And(x, y), i) == (Bit(x, i) && Bit(y, i))
    decreases i
  {
    if x == 0 || y == 0 {
      ZeroBits(i);
    } else if i > 0 {
      assert And(x, y) / 2 == And(x / 2, y / 2);
      AndBits(x / 2, y / 2, i - 1);
    }
  }

  lemma {:induction false} OrBits(x: nat, y: nat, i: nat)
    ensures Bit(Or(x, y), i) == (Bit(x, i) || Bit(y, i))
    decreases i
  {
    if i > 0 {
      assert Or(x, y) / 2 == Or(x / 2, y / 2);
      OrBits(x / 2, y / 2, i - 1);
    }
  }

  lemma {:induction false} XorBits(x: nat, y: nat, i: nat)
    ensures Bit(Xor(x, y), i) == (Bit(x, i) != Bit(y, i))
    decreases i
  {
    XorHead(x, y);
    if i > 0 { XorBits(x / 2, y / 2, i - 1); }
  }

  lemma XorHead(x: nat, y: nat)
    ensures Xor(x, y) % 2 == (if x % 2 != y % 2 then 1 else 0) && Xor(x, y) / 2 == Xor(x / 2, y / 2)
  {
  }

  lemma {:induction false} ShlBits(x: nat, n: nat, i: nat)
    ensures Bit(Shl(x, n), i) == (i >= n && Bit(x, i - n))
    decreases n
  {
    if n > 0 && i > 0 { ShlBits(x, n - 1, i - 1); }
  }

  lemma {:induction false} ShrBits(x: nat, n: nat, i: nat)
    ensures Bit(Shr(x, n), i) == Bit(x, i + n)
    decreases n
  {
    if n > 0 { ShrBits(x / 2, n - 1, i); }
  }

  lemma {:induction false} LowBits(x: nat, n: nat, i: nat)
    ensures Bit(Low(x, n), i) == (i < n && Bit(x, i))
    decreases n
  {
    if n == 0 {
      ZeroBits(i);
    } else if i > 0 {
      assert Low(x, n) / 2 == Low(x / 2, n - 1);
      LowBits(x / 2, n - 1, i - 1);
    }
  }

  /** Numbers with the same binary digits are equal. */
  lemma {:induction false} Extensionality(x: nat, y: nat)
    requires forall i: nat :: Bit(x, i) == Bit(y, i)
    ensures x == y
    decreases x + y
  {
    assert Bit(x, 0) == Bit(y, 0);
    if x != 0 || y != 0 {
      forall i: nat ensures Bit(x / 2, i) == Bit(y / 2, i) {
        assert Bit(x, i + 1) == Bit(y, i + 1);
      }
      Extensionality(x / 2, y / 2);
    }
  }

  // ---------------------------------------------------------------- shifts as arithmetic

  lemma {:induction false} Pow2Add(m: nat, n: nat)
    ensures Pow2(m + n) == Pow2(m) * Pow2(n)
    decreases m
  {
    if m > 0 { Pow2Add(m - 1, n); }
  }

  lemma {:induction false} Pow2Bound(m: nat, n: nat)
    requires m <= n
    ensures Pow2(m) <= Pow2(n)
    decreases n
  {
    if m < n { Pow2Bound(m, n - 1); }
  }

  lemma Pow2Values()
    ensures Pow2(8) == 0x100 && Pow2(16) == 0x1_0000 && Pow2(32) == 0x1_0000_0000
  {
    Pow2Add(8, 8);
    Pow2Add(16, 16);
  }

  lemma {:induction false} ShlIsMul(x: nat, n: nat)
    ensures Shl(x, n) == x * Pow2(n)
    decreases n
  {
    if n > 0 { ShlIsMul(x, n - 1); }
  }

  /** Shr and Low are the quotient and the remainder of the division by 2^n. */
  lemma {:induction false} Split(x: nat, n: nat)
    ensures x == Shr(x, n) * Pow2(n) + Low(x, n)
    ensures Low(x, n) < Pow2(n)
    decreases n
  {
    if n > 0 {
      Split(x / 2, n - 1);
      SplitDouble(Shr(x, n), Pow2(n - 1), Low(x / 2, n - 1), x % 2);
    }
  }

  lemma SplitDouble(h: int, p: int, l: int, b: int)
    ensures 2 * (h * p + l) + b == h * (2 * p) + (b + 2 * l)
  {
    assert h * (2 * p) == 2 * (h * p);
  }

  lemma ShrLowAreDivMod(x: nat, n: nat)
    ensures Shr(x, n) == x / Pow2(n)
    ensures Low(x, n) == x % Pow2(n)
  {
    Split(x, n);
    RemainderUnique(x, Shr(x, n), Low(x, n), Pow2(n));
  }

  lemma {:induction false} LowIdentity(x: nat, n: nat)
    requires x < Pow2(n)
    ensures Low(x, n) == x
    decreases n
  {
    if n > 0 { LowIdentity(x / 2, n - 1); }
  }

  lemma {:induction false} HighBitsZero(x: nat, n: nat, i: nat)
    requires x < Pow2(n) && n <= i
    ensures !Bit(x, i)
    decreases n
  {
    if n == 0 { ZeroBits(i); } else { HighBitsZero(x / 2, n - 1, i - 1); }
  }

  lemma {:induction false} XorBound(x: nat, y: nat, n: nat)
    requires x < Pow2(n) && y < Pow2(n)
    ensures Xor(x, y) < Pow2(n)
    decreases n
  {
    if n > 0 { XorBound(x / 2, y / 2, n - 1); }
  }

  lemma {:induction false} OrBound(x: nat, y: nat, n: nat)
    requires x < Pow2(n) && y < Pow2(n)
    ensures Or(x, y) < Pow2(n)
    decreases n
  {
    if n > 0 { OrBound(x / 2, y / 2, n - 1); }
  }

  lemma {:induction false} AndBound(x: nat, y: nat)
    ensures And(x, y) <= x && And(x, y) <= y
    decreases x
  {
    if x != 0 && y != 0 { AndBound(x / 2, y / 2); }
  }

  /** Or of a number below 2^n with a multiple of 2^n is their sum. */
  lemma {:induction false} OrDisjoint(lo: nat, hi: nat, n: nat)
    requires lo < Pow2(n)
    ensures Or(lo, Shl(hi, n)) == lo + Shl(hi, n)
    decreases n
  {
    if n == 0 {
      OrZero(hi);
    } else {
      assert Shl(hi, n) / 2 == Shl(hi, n - 1) && Shl(hi, n) % 2 == 0;
      OrDisjoint(lo / 2, hi, n - 1);
    }
  }

  lemma {:induction false} OrZero(x: nat)
    ensures Or(0, x) == x && Or(x, 0) == x
    decreases x
  {
    if x > 0 { OrZero(x / 2); }
  }

  lemma {:induction false} XorDisjoint(lo: nat, hi: nat, n: nat)
    requires lo < Pow2(n)
    ensures Xor(lo, Shl(hi, n)) == lo + Shl(hi, n)
    decreases n
  {
    if n == 0 {
      XorZero(hi);
    } else {
      assert Shl(hi, n) / 2 == Shl(hi, n - 1) && Shl(hi, n) % 2 == 0;
      XorDisjoint(lo / 2, hi, n - 1);
    }
  }

  lemma {:induction false} XorZero(x: nat)
    ensures Xor(0, x) == x && Xor(x, 0) == x
    decreases x
  {
    if x > 0 { XorZero(x / 2); }
  }

  /** And with the mask 2^n - 1 keeps the low n bits. */
  lemma {:induction false} AndMask(x: nat, n: nat)
    ensures And(x, Pow2(n) - 1) == Low(x, n)
    decreases n
  {
    if n > 0 {
      assert (Pow2(n) - 1) / 2 == Pow2(n - 1) - 1 && (Pow2(n) - 1) % 2 == 1;
      AndMask(x / 2, n - 1);
      if x == 0 { LowIdentity(0, n); }
    }
  }

  /** A number from its low w bits and the rest. */
  function Glue(lo: nat, hi: nat, w: nat): nat { lo + Shl(hi, w) }

  lemma GlueBits(lo: nat, hi: nat, w: nat, i: nat)
    requires lo < Pow2(w)
    ensures Bit(Glue(lo, hi, w), i) == if i < w then Bit(lo, i) else Bit(hi, i - w)
  {
    OrDisjoint(lo, hi, w);
    OrBits(lo, Shl(hi, w), i);
    ShlBits(hi, w, i);
    if i >= w { HighBitsZero(lo, w, i); }
  }

  // ---------------------------------------------------------------- replacing bits of a word

  /** The complement of a word of w bits. */
  function Not(x: nat, w: nat): nat { Xor(Pow2(w) - 1, x) }

  lemma {:induction false} OnesBits(w: nat, i: nat)
    ensures Bit(Pow2(w) - 1, i) == (i < w)
    decreases w
  {
    if w == 0 {
      ZeroBits(i);
    } else {
      assert (Pow2(w) - 1) / 2 == Pow2(w - 1) - 1 && (Pow2(w) - 1) % 2 == 1;
      if i > 0 { OnesBits(w - 1, i - 1); }
    }
  }

  /** Replacing the field of n bits at position k: (x & ~(mask << k)) | (v << k). */
  function Patch(x: nat, v: nat, k: nat, n: nat, w: nat): nat
  {
    Or(And(x, Not(Shl(Pow2(n) - 1, k), w)), Shl(v, k))
  }

  lemma PatchBits(x: nat, v: nat, k: nat, n: nat, w: nat, i: nat)
    requires v < Pow2(n) && i < w
    ensures Bit(Patch(x, v, k, n, w), i) == if k <= i < k + n then Bit(v, i - k) else Bit(x, i)
  {
    var m := Shl(Pow2(n) - 1, k);
    OrBits(And(x, Not(m, w)), Shl(v, k), i);
    AndBits(x, Not(m, w), i);
    XorBits(Pow2(w) - 1, m, i);
    OnesBits(w, i);
    ShlBits(Pow2(n) - 1, k, i);
    ShlBits(v, k, i);
    if i >= k {
      OnesBits(n, i - k);
      if i >= k + n { HighBitsZero(v, n, i - k); }
    }
  }

  /** Storing one bit in a 64-bit word. */
  function SetLimb(x: nat, offset: nat, value: bool): nat
    requires offset < 64
  {
    Patch(x, if value then 1 else 0, offset, 1, 64)
  }

  lemma SetLimbBits(x: nat, offset: nat, value: bool, i: nat)
    requires offset < 64 && i < 64
    ensures Bit(SetLimb(x, offset, value), i) == if i == offset then value else Bit(x, i)
  {
    assert Pow2(1) == 2;
    PatchBits(x, if value then 1 else 0, offset, 1, 64, i);
  }

  // ---------------------------------------------------------------- bytes of a word

  /** Byte i of x, least significant first. */
  function ByteAt(x: nat, i: nat): (b: nat)
    ensures b < 256
  {
    Split(Shr(x, 8 * i), 8);
    assert Pow2(8) == 256;
    Low(Shr(x, 8 * i), 8)
  }

  lemma ByteBits(x: nat, i: nat, k: nat)
    ensures Bit(ByteAt(x, i), k) == (k < 8 && Bit(x, 8 * i + k))
  {
    LowBits(Shr(x, 8 * i), 8, k);
    ShrBits(x, 8 * i, k);
  }

  /** Where bit k of byte i sits among 64-bit words. */
  lemma BytePlace(i: nat, k: nat)
    requires k < 8
    ensures (8 * i + k) / 64 == i / 8 && (8 * i + k) % 64 == 8 * (i % 8) + k
  {
  }
}
