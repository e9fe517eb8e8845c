/** Booth recoding of a scalar into signed windows (`booth_wnaf_t`). */
module Booth {
  import opened Arithmetic
  import opened Bits

  import Wire

  // ---------------------------------------------------------------- numbers from pieces

  /** The scalar of its 64-bit limbs, least significant first. */
  function FromLimbs(limbs: seq<nat>): nat
  {
    if limbs == [] then 0 else Glue(limbs[0], FromLimbs(limbs[1..]), 64)
  }

  /** At most 256 bits. */
  ghost predicate Short(x: nat) { forall i: nat :: i >= 256 ==> !Bit(x, i) }

  predicate LimbsOk(limbs: seq<nat>) { forall k :: 0 <= k < |limbs| ==> limbs[k] < Pow2(64) }

  lemma {:induction false} LimbBits(limbs: seq<nat>, i: nat)
    requires LimbsOk(limbs)
    ensures Bit(FromLimbs(limbs), i) == (i / 64 < |limbs| && Bit(limbs[i / 64], i % 64))
    decreases |limbs|
  {
    if limbs == [] {
      ZeroBits(i);
    } else {
      GlueBits(limbs[0], FromLimbs(limbs[1..]), 64, i);
      LimbIndex(i);
      if i >= 64 { LimbBits(limbs[1..], i - 64); }
    }
  }

  lemma LimbIndex(i: nat)
    ensures if i >= 64 then (i - 64) / 64 == i / 64 - 1 && (i - 64) % 64 == i % 64 else i / 64 == 0 && i % 64 == i
  {
  }

  lemma LimbByteBit(limbs: seq<nat>, i: nat, k: nat)
    requires LimbsOk(limbs)
    ensures Bit(ByteAt(FromLimbs(limbs), i), k) == (i / 8 < |limbs| && Bit(ByteAt(limbs[i / 8], i % 8), k))
  {
    ByteBits(FromLimbs(limbs), i, k);
    LimbBits(limbs, 8 * i + k);
    if k < 8 { BytePlace(i, k); }
    if i / 8 < |limbs| { ByteBits(limbs[i / 8], i % 8, k); }
  }

  /** memmove of the limbs: byte i of the scalar is byte i mod 8 of limb i / 8. */
  lemma LimbBytes(limbs: seq<nat>, i: nat)
    requires LimbsOk(limbs)
    ensures ByteAt(FromLimbs(limbs), i) == if i / 8 < |limbs| then ByteAt(limbs[i / 8], i % 8) else 0
  {
    var b := if i / 8 < |limbs| then ByteAt(limbs[i / 8], i % 8) else 0;
    forall k: nat ensures Bit(ByteAt(FromLimbs(limbs), i), k) == Bit(b, k) { LimbByteBit(limbs, i, k); ZeroBits(k); }
    Extensionality(ByteAt(FromLimbs(limbs), i), b);
  }

  // ---------------------------------------------------------------- one window

  /** Bit i of x as a number, and 0 below the scalar. */
  function BitValue(x: nat, i: int): nat
  {
    if i >= 0 && Bit(x, i) then 1 else 0
  }

  /** win + 1 bits of x, the lowest of them bit index - 1. */
  function Window(x: nat, index: nat, win: nat): nat { Low(Shr(2 * x, index), win + 1) }

  lemma WindowBits(x: nat, index: nat, win: nat, i: nat)
    ensures Bit(Window(x, index, win), i) == (i < win + 1 && BitValue(x, index + i - 1) == 1)
  {
    LowBits(Shr(2 * x, index), win + 1, i);
    ShrBits(2 * x, index, i);
    assert Shl(x, 1) == 2 * x by { assert Shl(x, 0) == x; }
    ShlBits(x, 1, i + index);
  }

  /** The signed digit of a window: its upper bits as a number, plus its lowest bit, minus 2^win
      when its top bit is set. */
  function Digit(x: nat, index: nat, win: nat): int
  {
    Low(Shr(x, index), win) + BitValue(x, index - 1) - Pow2(win) * BitValue(x, index + win - 1)
  }

  lemma WindowRest(x: nat, index: nat, win: nat, h: nat, l: nat)
    requires win >= 1 && h == Window(x, index, win) / 2 && l == Low(Shr(x, index), win)
    ensures h == l
  {
    forall i: nat ensures Bit(h, i) == Bit(l, i) {
      assert Bit(Window(x, index, win), i + 1) == Bit(h, i);
      WindowBits(x, index, win, i + 1);
      LowBits(Shr(x, index), win, i);
      ShrBits(x, index, i);
    }
    Extensionality(h, l);
  }

  lemma WindowSplits(x: nat, index: nat, win: nat)
    requires win >= 1
    ensures var v := Window(x, index, win);
            && v < 2 * Pow2(win)
            && v % 2 == BitValue(x, index - 1)
            && v / 2 == Low(Shr(x, index), win)
            && (v >= Pow2(win) <==> BitValue(x, index + win - 1) == 1)
  {
    var v := Window(x, index, win);
    Split(Shr(2 * x, index), win + 1);
    WindowBits(x, index, win, 0);
    WindowBits(x, index, win, win);
    TopBit(v, win);
    WindowRest(x, index, win, v / 2, Low(Shr(x, index), win));
  }

  lemma {:induction false} TopBit(v: nat, n: nat)
    requires v < 2 * Pow2(n)
    ensures Bit(v, n) <==> v >= Pow2(n)
    decreases n
  {
    if n > 0 { TopBit(v / 2, n - 1); }
  }

  // ---------------------------------------------------------------- the branch-free digit

  const WORD := 0x1_0000_0000

  /** 32-bit unsigned negation of bits and subtraction with wrap-around. */
  function Not32(a: nat): nat requires a < WORD { WORD - 1 - a }

  function Sub32(a: nat, b: nat): nat requires a < WORD && b < WORD { (a - b + WORD) % WORD }

  lemma AndAll(d: nat)
    requires d < WORD
    ensures And(d, WORD - 1) == d && And(d, 0) == 0
  {
    Pow2Values();
    AndMask(d, 32);
    LowIdentity(d, 32);
  }

  lemma AndOne(d: nat)
    ensures And(d, 1) == d % 2
  {
    if d != 0 { assert And(d / 2, 0) == 0; }
  }

  lemma TopOfWindow(val: nat, win: nat)
    requires val < 2 * Pow2(win)
    ensures Shr(val, win) == if val >= Pow2(win) then 1 else 0
  {
    Split(val, win);
    ShrLowAreDivMod(val, win);
    var p := Pow2(win);
    if val >= p { RemainderUnique(val, 1, val - p, p); } else { RemainderUnique(val, 0, val, p); }
  }

  /** The mask of all ones when the top bit of the window is set, else 0. */
  lemma SignMask(val: nat, win: nat)
    requires val < 2 * Pow2(win)
    ensures Shr(val, win) <= 1
    ensures Not32(Sub32(Shr(val, win), 1)) == if val >= Pow2(win) then WORD - 1 else 0
  {
    TopOfWindow(val, win);
  }

  /** Choosing between two words with a mask. */
  lemma Select(u: nat, v: nat, s: nat)
    requires u < WORD && v < WORD && (s == 0 || s == WORD - 1)
    ensures Or(And(u, s), And(v, Not32(s))) == if s == 0 then v else u
  {
    AndAll(u);
    AndAll(v);
    if s == 0 { OrZero(v); } else { OrZero(u); }
  }

  function Signed(value: nat, neg: bool): int { if neg then -(value as int) else value }

  /** The value and sign that `get` computes from a window v with mask s. */
  lemma MaskedDigit(v: nat, win: nat, s: nat, d: nat)
    requires 1 <= win <= 8 && v < 2 * Pow2(win) <= 512
    requires s == if v >= Pow2(win) then WORD - 1 else 0
    requires d == Or(And(2 * Pow2(win) - v - 1, s), And(v, Not32(s)))
    ensures And(s, 1) == if v >= Pow2(win) then 1 else 0
    ensures d / 2 + d % 2 <= Pow2(win - 1)
    ensures Signed(d / 2 + d % 2, v >= Pow2(win)) == (v + 1) / 2 - if v >= Pow2(win) then Pow2(win) else 0
  {
    Select(2 * Pow2(win) - v - 1, v, s);
    AndOne(s);
  }

  lemma WindowMagnitude(win: nat)
    requires win <= 8
    ensures 2 * Pow2(win) <= 512
  {
    Pow2Bound(win, 8);
    Pow2Values();
  }

  // ---------------------------------------------------------------- reading the window from two bytes

  /** The two bytes at `off`, as `get` assembles them; the second is missing at the end. */
  function TwoBytes(x: nat, off: nat): nat
  {
    if off + 1 < 33 then Or(ByteAt(x, off), Shl(ByteAt(x, off + 1), 8)) else ByteAt(x, off)
  }

  lemma TwoBytesBits(x: nat, off: nat, k: nat)
    requires Short(x) && off < 33
    ensures k < 16 ==> Bit(TwoBytes(x, off), k) == Bit(x, 8 * off + k)
  {
    ByteBits(x, off, k);
    if off + 1 < 33 {
      OrBits(ByteAt(x, off), Shl(ByteAt(x, off + 1), 8), k);
      ShlBits(ByteAt(x, off + 1), 8, k);
      if k >= 8 { ByteBits(x, off + 1, k - 8); }
    } else if k >= 8 {
      assert 8 * off + k >= 256;
    }
  }

  /** The raw value before masking. */
  function RawWindow(x: nat, index: nat): nat
    requires index <= 264
  {
    if index == 0 then 2 * ByteAt(x, 0) else Shr(TwoBytes(x, (index - 1) / 8), (index - 1) % 8)
  }

  /** Nine bits can be read at every index, so windows of up to 8 bits and their lower neighbour fit. */
  lemma RawWindowBits(x: nat, index: nat, k: nat)
    requires Short(x) && index <= 264 && k <= 8
    ensures Bit(RawWindow(x, index), k) == (BitValue(x, index + k - 1) == 1)
  {
    if index == 0 {
      var b := ByteAt(x, 0);
      assert Shl(b, 1) == 2 * b by { assert Shl(b, 0) == b; }
      ShlBits(b, 1, k);
      if k > 0 { ByteBits(x, 0, k - 1); }
    } else {
      var off, sh := (index - 1) / 8, (index - 1) % 8;
      ShrBits(TwoBytes(x, off), sh, k);
      TwoBytesBits(x, off, k + sh);
      assert 8 * off + (k + sh) == index + k - 1;
    }
  }

  lemma MaskedWindowBit(x: nat, index: nat, win: nat, i: nat)
    requires Short(x) && index <= 264 && 1 <= win <= 8
    ensures Bit(Low(RawWindow(x, index), win + 1), i) == Bit(Window(x, index, win), i)
  {
    LowBits(RawWindow(x, index), win + 1, i);
    WindowBits(x, index, win, i);
    if i <= 8 { RawWindowBits(x, index, i); }
  }

  lemma MaskedWindow(x: nat, index: nat, win: nat)
    requires Short(x) && index <= 264 && 1 <= win <= 8
    ensures And(RawWindow(x, index), Pow2(win + 1) - 1) == Window(x, index, win)
  {
    AndMask(RawWindow(x, index), win + 1);
    RawWindowLow(x, index, win, Low(RawWindow(x, index), win + 1), Window(x, index, win));
  }

  lemma RawWindowLow(x: nat, index: nat, win: nat, l: nat, v: nat)
    requires Short(x) && index <= 264 && 1 <= win <= 8
    requires l == Low(RawWindow(x, index), win + 1) && v == Window(x, index, win)
    ensures l == v
  {
    forall i: nat ensures Bit(l, i) == Bit(v, i) { MaskedWindowBit(x, index, win, i); }
    Extensionality(l, v);
  }

  // ---------------------------------------------------------------- the object

  /** Index of the highest window of a backward stream. */
  function StartIndex(win: nat, bits: nat): nat
    requires win >= 1 && bits >= 1
  {
    ((bits - 1) + (win - 1)) / win * win
  }

  lemma MultipleMod(k: int, w: nat)
    requires w >= 1
    ensures (k * w) % w == 0
  {
    var d := k - (k * w) / w;
    assert d * w == (k * w) % w;
    MulGrows(d, w);
  }

  /** Stepping by the window width stays on multiples of it. */
  lemma NextIndex(i: int, w: nat)
    requires w >= 1 && i % w == 0
    ensures (i + w) % w == 0 && (i - w) % w == 0
  {
    var k := i / w;
    assert i == k * w;
    assert i + w == (k + 1) * w && i - w == (k - 1) * w;
    MultipleMod(k + 1, w);
    MultipleMod(k - 1, w);
  }

  /** The start index is the least multiple of the width that is at least bits - 1. */
  lemma StartBounds(win: nat, bits: nat)
    requires win >= 1 && bits >= 1
    ensures bits - 1 <= StartIndex(win, bits) <= (bits - 1) + (win - 1)
    ensures StartIndex(win, bits) % win == 0
  {
    var n := (bits - 1) + (win - 1);
    assert n == n / win * win + n % win;
    MultipleMod(n / win, win);
  }

  lemma LimbsShort(limbs: seq<nat>)
    requires LimbsOk(limbs) && |limbs| <= 4
    ensures Short(FromLimbs(limbs))
  {
    forall i: nat | i >= 256 ensures !Bit(FromLimbs(limbs), i) { LimbBits(limbs, i); }
  }

  lemma DigitFromWindow(x: nat, index: nat, win: nat)
    requires win >= 1
    ensures var v := Window(x, index, win);
            Digit(x, index, win) == (v + 1) / 2 - (if v >= Pow2(win) then Pow2(win) else 0)
  {
    var v := Window(x, index, win);
    WindowSplits(x, index, win);
    assert (v + 1) / 2 == v / 2 + v % 2;
  }

  /** The branch-free part of get: magnitude and sign from the bits of a window. */
  method DigitOf(val: nat, win: nat) returns (value: nat, neg: bool)
    requires 1 <= win <= 8 && val < 2 * Pow2(win)
    ensures value <= Pow2(win - 1)
    ensures Signed(value, neg) == (val + 1) / 2 - if val >= Pow2(win) then Pow2(win) else 0
  {
    WindowMagnitude(win);
    SignMask(val, win);
    var s := Not32(Sub32(Shr(val, win), 1));
    var d := 2 * Pow2(win) - val - 1;
    d := Or(And(d, s), And(val, Not32(s)));
    MaskedDigit(val, win, s, d);
    value, neg := d / 2 + d % 2, And(s, 1) == 1;
  }

  class BoothWnaf {
    const win: nat
    const bits: nat
    const back: bool
    const data: array<Wire.byte>
    var index: int
    ghost const x: nat

    ghost predicate Valid()
      reads this, data
    {
      && 1 <= win <= 8 && 1 <= bits <= 256 && Short(x)
      && data.Length == 33 && (forall i :: 0 <= i < 33 ==> data[i] == ByteAt(x, i))
      && index % win == 0
      && (if back then 0 <= index + win && index <= StartIndex(win, bits) else 0 <= index < bits + win)
    }

    /** The constructor from up to four limbs: the limbs are copied and the rest is zero. */
    constructor (win: nat, limbs: seq<nat>, bits: nat, back: bool)
      requires 1 <= win <= 8 && 1 <= bits <= 256 && |limbs| <= 4 && LimbsOk(limbs)
      ensures Valid() && this.win == win && this.bits == bits && this.back == back && x == FromLimbs(limbs)
      ensures index == if back then StartIndex(win, bits) else 0
    {
      this.win, this.bits, this.back, this.x := win, bits, back, FromLimbs(limbs);
      index := if back then StartIndex(win, bits) else 0;
      var d := new Wire.byte[33](i => if 0 <= i && i / 8 < |limbs| then ByteAt(limbs[i / 8], i % 8) else 0);
      data := d;
      new;
      forall i | 0 <= i < 33 ensures data[i] == ByteAt(x, i) { LimbBytes(limbs, i); }
      LimbsShort(limbs);
      StartBounds(win, bits);
    }

    /** The bits of the current window, from one or two bytes. */
    method ReadWindow() returns (val: nat)
      requires Valid() && 0 <= index && (back || index < bits)
      ensures val == Window(x, index, win)
    {
      StartBounds(win, bits);
      if index == 0 {
        val := 2 * (data[0] as nat);
      } else {
        var off := (index - 1) / 8;
        val := data[off];
        if off + 1 < data.Length { val := Or(val, Shl(data[off + 1], 8)); }
        val := Shr(val, (index - 1) % 8);
      }
      assert val == RawWindow(x, index);
      MaskedWindow(x, index, win);
      var kMask := Pow2(win + 1) - 1;
      val := And(val, kMask);
    }

    /** get: the next signed digit, or false at the end of the stream. No byte outside the 33 is
        read, and the digit is at most 2^(win-1) in magnitude. */
    method Get() returns (ok: bool, value: nat, neg: bool)
      requires Valid()
      modifies this`index
      ensures Valid()
      ensures ok <==> if back then old(index) >= 0 else old(index) < bits
      ensures !ok ==> index == old(index)
      ensures ok ==> index == if back then old(index) - win else old(index) + win
      ensures ok ==> Signed(value, neg) == Digit(x, old(index), win) && value <= Pow2(win - 1)
    {
      if back {
        if index < 0 { return false, 0, false; }
      } else {
        if index >= bits { return false, 0, false; }
      }
      var val := ReadWindow();
      WindowSplits(x, index, win);
      value, neg := DigitOf(val, win);
      DigitFromWindow(x, index, win);
      NextIndex(index, win);
      index := if back then index - win else index + win;
      ok := true;
    }
  }
}
