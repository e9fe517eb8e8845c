/** The digit streams of `booth_wnaf_t` as a whole, and the scalar they stand for. */
module BoothStreams {
  import opened Arithmetic
  import opened Bits
  import opened Booth

  /** A window index and its signed digit. */
  datatype Entry = Entry(index: nat, digit: int)

  /** The first m windows, from the bottom up. */
  function Forward(x: nat, win: nat, m: nat): (es: seq<Entry>)
    ensures |es| == m
  {
    seq(m, j requires 0 <= j < m => Entry(j * win, Digit(x, j * win, win)))
  }

  function Reverse(es: seq<Entry>): (r: seq<Entry>)
    ensures |r| == |es|
  {
    seq(|es|, j requires 0 <= j < |es| => es[|es| - 1 - j])
  }

  function ForwardCount(win: nat, bits: nat): nat requires win >= 1 && bits >= 1 { (bits - 1) / win + 1 }

  function BackwardCount(win: nat, bits: nat): nat requires win >= 1 && bits >= 1 { ((bits - 1) + (win - 1)) / win + 1 }

  function Count(win: nat, bits: nat, back: bool): nat
    requires win >= 1 && bits >= 1
  {
    if back then BackwardCount(win, bits) else ForwardCount(win, bits)
  }

  /** The whole stream in the order `get` gives it. */
  function Stream(x: nat, win: nat, bits: nat, back: bool): seq<Entry>
    requires win >= 1 && bits >= 1
  {
    var es := Forward(x, win, Count(win, bits, back));
    if back then Reverse(es) else es
  }

  /** The sum of digit * 2^index. */
  function Total(es: seq<Entry>): int
  {
    if es == [] then 0 else es[0].digit * Pow2(es[0].index) + Total(es[1..])
  }

  // ---------------------------------------------------------------- the sum telescopes

  lemma {:induction false} LowExtends(x: nat, n: nat, w: nat)
    ensures Low(x, n + w) == Low(x, n) + Low(Shr(x, n), w) * Pow2(n)
    decreases n
  {
    if n > 0 {
      LowExtends(x / 2, n - 1, w);
      assert Low(x, n + w) == x % 2 + 2 * Low(x / 2, (n - 1) + w);
      AddLowBit(x % 2, Low(x / 2, n - 1), Low(Shr(x, n), w), Pow2(n - 1));
    }
  }

  lemma AddLowBit(b: int, l: int, h: int, p: int)
    ensures b + 2 * (l + h * p) == (b + 2 * l) + h * (2 * p)
  {
    assert h * (2 * p) == 2 * (h * p);
  }

  lemma TelescopeStep(low: int, w: int, b: int, t: int, p: int, pw: int)
    ensures (low - b * p) + (w + b - pw * t) * p == (low + w * p) - t * (p * pw)
  {
    assert (w + b - pw * t) * p == w * p + b * p - (pw * t) * p;
    assert (pw * t) * p == t * (p * pw);
  }

  /** The sum of the first m digits is the low part of x, less a carry out of its top bit. */
  function Telescoped(x: nat, n: nat): int { Low(x, n) - BitValue(x, n - 1) * Pow2(n) }

  lemma {:induction false} TotalSnoc(es: seq<Entry>, e: Entry)
    ensures Total(es + [e]) == Total(es) + e.digit * Pow2(e.index)
  {
    if es == [] {
      assert (es + [e])[1..] == [];
    } else {
      assert (es + [e])[1..] == es[1..] + [e];
      TotalSnoc(es[1..], e);
    }
  }

  lemma {:induction false} ForwardTotal(x: nat, win: nat, m: nat)
    ensures Total(Forward(x, win, m)) == Telescoped(x, m * win)
    decreases m
  {
    if m == 0 {
      assert 0 * win == 0;
    } else {
      var n := (m - 1) * win;
      var e := Entry(n, Digit(x, n, win));
      ForwardTotal(x, win, m - 1);
      assert Forward(x, win, m) == Forward(x, win, m - 1) + [e];
      TotalSnoc(Forward(x, win, m - 1), e);
      assert m * win == n + win;
      LowExtends(x, n, win);
      Pow2Add(n, win);
      TelescopeStep(Low(x, n), Low(Shr(x, n), win), BitValue(x, n - 1), BitValue(x, n + win - 1), Pow2(n), Pow2(win));
    }
  }

  lemma {:induction false} ReverseTotal(es: seq<Entry>)
    ensures Total(Reverse(es)) == Total(es)
  {
    if es == [] {
    } else {
      var r := Reverse(es[1..]);
      assert Reverse(es) == r + [es[0]];
      TotalSnoc(r, es[0]);
      ReverseTotal(es[1..]);
    }
  }

  /** Exactly which scalars the telescoped sum gives back. */
  lemma TelescopedExact(x: nat, n: nat)
    requires n >= 1
    ensures Telescoped(x, n) == x <==> x < Pow2(n - 1)
  {
    Split(x, n);
    var p := Pow2(n);
    LowTop(x, n);
    if x < Pow2(n - 1) {
      LowIdentity(x, n);
      HighBitsZero(x, n - 1, n - 1);
    } else if BitValue(x, n - 1) == 0 {
      assert Telescoped(x, n) == Low(x, n) < Pow2(n - 1);
    } else {
      assert Telescoped(x, n) == Low(x, n) - p < 0;
    }
  }

  /** When bit n - 1 is clear the low n bits are below 2^(n-1). */
  lemma LowTop(x: nat, n: nat)
    requires n >= 1
    ensures !Bit(x, n - 1) ==> Low(x, n) < Pow2(n - 1)
  {
    Split(x, n);
    LowBits(x, n, n - 1);
    TopBit(Low(x, n), n - 1);
  }

  /** One less than the number of bits that the windows of a stream span. */
  function Span(win: nat, bits: nat, back: bool): nat
    requires win >= 1 && bits >= 1
  {
    (Count(win, bits, back) - 1) * win + win - 1
  }

  /** Booth reconstruction: the digits of a whole stream, weighted by their windows, add up to the
      scalar exactly when it lies below half of the range of the windows. */
  lemma StreamReconstructs(x: nat, win: nat, bits: nat, back: bool)
    requires win >= 1 && bits >= 1
    ensures Total(Stream(x, win, bits, back)) == x <==> x < Pow2(Span(win, bits, back))
  {
    var m := Count(win, bits, back);
    StreamTotal(x, win, bits, back);
    LastWindow(m, win);
    TelescopedExact(x, m * win);
  }

  lemma StreamTotal(x: nat, win: nat, bits: nat, back: bool)
    requires win >= 1 && bits >= 1
    ensures Total(Stream(x, win, bits, back)) == Telescoped(x, Count(win, bits, back) * win)
  {
    var m := Count(win, bits, back);
    ForwardTotal(x, win, m);
    ReverseTotal(Forward(x, win, m));
  }

  lemma LastWindow(m: nat, win: nat)
    requires m >= 1 && win >= 1
    ensures m * win == (m - 1) * win + win >= 1
  {
    assert m * win == (m - 1) * win + win;
  }

  /** In backward mode with windows of at least 2 bits that covers every scalar of the declared width. */
  lemma {:induction false} BackwardCoversAll(x: nat, win: nat, bits: nat)
    requires win >= 2 && bits >= 1 && x < Pow2(bits)
    ensures Total(Stream(x, win, bits, true)) == x
  {
    StreamReconstructs(x, win, bits, true);
    StartBounds(win, bits);
    assert Span(win, bits, true) == StartIndex(win, bits) + win - 1;
    Pow2Bound(bits, Span(win, bits, true));
  }

  /** With windows of one bit the top window of backward mode has no bit to spare, and the largest
      scalar of the width is missed. */
  lemma BackwardMisses(win: nat, x: nat, bits: nat)
    requires win == 1 && bits >= 1 && x == Pow2(bits) - 1
    ensures Total(Stream(x, win, bits, true)) != x
  {
    OneBitSpan(win, bits);
    LargestAbove(bits - 1, bits);
    MissesAbove(x, win, bits, true, bits - 1);
  }

  /** The forward windows span the width and one bit more unless the window size divides it. */
  lemma ForwardSpan(win: nat, bits: nat)
    requires win >= 1 && bits >= 1
    ensures bits <= Span(win, bits, false) <==> bits % win != 0
  {
    var q, r := bits / win, bits % win;
    assert bits == q * win + r;
    if r == 0 {
      assert bits - 1 == (q - 1) * win + (win - 1);
      RemainderUnique(bits - 1, q - 1, win - 1, win);
    } else {
      RemainderUnique(bits - 1, q, r - 1, win);
    }
  }

  lemma {:induction false} ForwardCovers(x: nat, win: nat, bits: nat)
    requires win >= 1 && bits >= 1 && x < Pow2(bits) && bits % win != 0
    ensures Total(Stream(x, win, bits, false)) == x
  {
    ForwardSpan(win, bits);
    StreamReconstructs(x, win, bits, false);
    Pow2Bound(bits, Span(win, bits, false));
  }

  /** Otherwise it fails already on the largest scalar of the width. */
  lemma {:induction false} ForwardMisses(win: nat, bits: nat, x: nat)
    requires win >= 1 && bits >= 1 && bits % win == 0 && x == Pow2(bits) - 1
    ensures Total(Stream(x, win, bits, false)) != x
  {
    ForwardSpan(win, bits);
    StreamReconstructs(x, win, bits, false);
    LargestAbove(Span(win, bits, false), bits);
  }

  /** Every scalar of the declared width comes back. */
  ghost predicate CoversWidth(win: nat, bits: nat, back: bool)
    requires win >= 1 && bits >= 1
  {
    forall x: nat :: x < Pow2(bits) ==> Total(Stream(x, win, bits, back)) == x
  }

  /** When that is so, in the caller's terms: backwards for all windows of at least 2 bits, forwards
      when the window size does not divide the width. */
  lemma WidthsCovered(win: nat, bits: nat)
    requires win >= 1 && bits >= 1
    ensures CoversWidth(win, bits, true) <==> win >= 2
    ensures CoversWidth(win, bits, false) <==> bits % win != 0
  {
    var largest := Pow2(bits) - 1;
    if win >= 2 {
      forall x: nat | x < Pow2(bits) ensures Total(Stream(x, win, bits, true)) == x { BackwardCoversAll(x, win, bits); }
    } else {
      BackwardMisses(win, largest, bits);
    }
    if bits % win != 0 {
      forall x: nat | x < Pow2(bits) ensures Total(Stream(x, win, bits, false)) == x { ForwardCovers(x, win, bits); }
    } else {
      ForwardMisses(win, bits, largest);
    }
  }

  lemma MissesAbove(x: nat, win: nat, bits: nat, back: bool, n: nat)
    requires win >= 1 && bits >= 1 && n == Span(win, bits, back) && x >= Pow2(n)
    ensures Total(Stream(x, win, bits, back)) != x
  {
    StreamReconstructs(x, win, bits, back);
  }

  lemma OneBitSpan(win: nat, bits: nat)
    requires win == 1 && bits >= 1
    ensures Span(win, bits, true) == bits - 1
  {
    var m := BackwardCount(win, bits);
    assert m == bits && (m - 1) * 1 == m - 1;
  }

  lemma LargestAbove(n: nat, bits: nat)
    requires n < bits
    ensures Pow2(n) <= Pow2(bits) - 1
  {
    Pow2Bound(n, bits - 1);
    assert Pow2(bits) == 2 * Pow2(bits - 1);
  }

  // ---------------------------------------------------------------- the two streams

  lemma CountsCompare(win: nat, bits: nat)
    requires win >= 1 && bits >= 1
    ensures ForwardCount(win, bits) <= BackwardCount(win, bits) <= ForwardCount(win, bits) + 1
    ensures BackwardCount(win, bits) == ForwardCount(win, bits) + 1 ==>
              (BackwardCount(win, bits) - 1) * win >= bits
  {
    var f: int, b: int := (bits - 1) / win, ((bits - 1) + (win - 1)) / win;
    assert bits - 1 == f * win + (bits - 1) % win;
    assert (bits - 1) + (win - 1) == b * win + ((bits - 1) + (win - 1)) % win;
    assert (b - f) * win == b * win - f * win;
    MulGrows(b - f, win);
    MulGrows(b - f - 2, win);
    assert (b - f - 2) * win == (b - f) * win - 2 * win;
    assert b == f + 1 ==> b * win == f * win + win;
  }

  /** A window above the scalar holds only the bit just below it. */
  lemma DigitAbove(x: nat, index: nat, win: nat, bits: nat)
    requires x < Pow2(bits) && bits <= index && win >= 1
    ensures Digit(x, index, win) == BitValue(x, index - 1)
  {
    forall i: nat ensures Bit(Low(Shr(x, index), win), i) == Bit(0, i) {
      LowBits(Shr(x, index), win, i);
      ShrBits(x, index, i);
      HighBitsZero(x, bits, i + index);
      ZeroBits(i);
    }
    Extensionality(Low(Shr(x, index), win), 0);
    HighBitsZero(x, bits, index + win - 1);
    assert Pow2(win) * 0 == 0;
  }

  /** The backward stream reversed is the forward stream, with at most one more digit on top: the
      scalar bit just below that window. */
  lemma {:induction false} StreamsAgree(x: nat, win: nat, bits: nat)
    requires win >= 1 && bits >= 1 && x < Pow2(bits)
    ensures var f, b := Stream(x, win, bits, false), Reverse(Stream(x, win, bits, true));
            || b == f
            || (|b| == |f| + 1 && b[..|f|] == f && b[|f|].digit == BitValue(x, b[|f|].index - 1))
  {
    var m, k := ForwardCount(win, bits), BackwardCount(win, bits);
    CountsCompare(win, bits);
    var b := Reverse(Stream(x, win, bits, true));
    assert b == Forward(x, win, k);
    if k == m + 1 {
      assert b[..m] == Forward(x, win, m);
      DigitAbove(x, m * win, win, bits);
    }
  }

  // ---------------------------------------------------------------- running the object

  /** The object is about to give digit k of the stream of x. */
  ghost predicate Reads(b: BoothWnaf, x: nat, win: nat, bits: nat, back: bool, k: nat)
    reads b, b.data
    requires win >= 1 && bits >= 1
  {
    && b.Valid() && b.win == win && b.bits == bits && b.back == back && b.x == x
    && b.index == IndexAt(win, bits, back, k)
  }

  method NewReader(win: nat, limbs: seq<nat>, bits: nat, back: bool) returns (b: BoothWnaf)
    requires 1 <= win <= 8 && 1 <= bits <= 256 && |limbs| <= 4 && LimbsOk(limbs)
    ensures fresh(b) && Reads(b, FromLimbs(limbs), win, bits, back, 0)
  {
    b := new BoothWnaf(win, limbs, bits, back);
    if back { EndOfBackward(win, bits); } else { EndOfForward(win, bits); }
  }

  /** get gives the next digit, or false after the last. */
  method NextDigit(b: BoothWnaf, ghost x: nat, ghost win: nat, ghost bits: nat, ghost back: bool, ghost k: nat)
    returns (ok: bool, value: nat, neg: bool)
    requires 1 <= win <= 8 && 1 <= bits <= 256 && k <= Count(win, bits, back) && Reads(b, x, win, bits, back, k)
    modifies b`index
    ensures ok <==> k < Count(win, bits, back)
    ensures ok ==> Reads(b, x, win, bits, back, k + 1) && IsDigit(x, win, bits, back, k, value, neg)
    ensures !ok ==> Reads(b, x, win, bits, back, k)
  {
    StillGoing(win, bits, back, k);
    if k < Count(win, bits, back) { EntryAt(x, win, bits, back, k); }
    ok, value, neg := b.Get();
  }

  /** The value and the sign of digit k. */
  ghost predicate IsDigit(x: nat, win: nat, bits: nat, back: bool, k: nat, value: nat, neg: bool)
    requires win >= 1 && bits >= 1
  {
    var at := IndexAt(win, bits, back, k);
    at >= 0 && Signed(value, neg) == Digit(x, at, win) && value <= Pow2(win - 1)
  }

  lemma NextOfStream(x: nat, win: nat, bits: nat, back: bool, es: seq<Entry>, value: nat, neg: bool)
    requires win >= 1 && bits >= 1 && |es| < Count(win, bits, back) && es <= Stream(x, win, bits, back)
    requires IsDigit(x, win, bits, back, |es|, value, neg)
    ensures es + [Entry(IndexAt(win, bits, back, |es|), Signed(value, neg))] <= Stream(x, win, bits, back)
  {
    EntryAt(x, win, bits, back, |es|);
  }

  /** Calling get until it says no yields the stream. */
  method Recode(win: nat, limbs: seq<nat>, bits: nat, back: bool) returns (es: seq<Entry>)
    requires 1 <= win <= 8 && 1 <= bits <= 256 && |limbs| <= 4 && LimbsOk(limbs)
    ensures es == Stream(FromLimbs(limbs), win, bits, back)
  {
    var b := NewReader(win, limbs, bits, back);
    es := ReadAll(b, FromLimbs(limbs), win, bits, back);
  }

  method ReadAll(b: BoothWnaf, ghost x: nat, win: nat, bits: nat, back: bool) returns (es: seq<Entry>)
    requires 1 <= win <= 8 && 1 <= bits <= 256 && Reads(b, x, win, bits, back, 0)
    modifies b`index
    ensures es == Stream(x, win, bits, back)
  {
    es := [];
    var ok := true;
    while ok
      invariant |es| <= Count(win, bits, back) && (!ok ==> |es| == Count(win, bits, back))
      invariant Reads(b, x, win, bits, back, |es|) && es <= Stream(x, win, bits, back)
      decreases Count(win, bits, back) - |es|, ok
    {
      var at := b.index;
      var value, neg;
      ok, value, neg := NextDigit(b, x, win, bits, back, |es|);
      if ok {
        NextOfStream(x, win, bits, back, es, value, neg);
        es := es + [Entry(at, Signed(value, neg))];
      }
    }
  }

  lemma EndOfForward(win: nat, bits: nat)
    requires win >= 1 && bits >= 1
    ensures var m := ForwardCount(win, bits); (m - 1) * win < bits <= m * win
  {
    assert bits - 1 == (bits - 1) / win * win + (bits - 1) % win;
  }

  lemma EndOfBackward(win: nat, bits: nat)
    requires win >= 1 && bits >= 1
    ensures (BackwardCount(win, bits) - 1) * win == StartIndex(win, bits)
  {
  }

  /** The window index before the k-th call of `get`. */
  function IndexAt(win: nat, bits: nat, back: bool, k: nat): int
    requires win >= 1 && bits >= 1
  {
    if back then (Count(win, bits, back) - 1 - k) * win else k * win
  }

  /** The k-th entry of the stream, and the index after it. */
  lemma EntryAt(x: nat, win: nat, bits: nat, back: bool, k: nat)
    requires win >= 1 && bits >= 1 && k < Count(win, bits, back)
    ensures IndexAt(win, bits, back, k) >= 0
    ensures var at := IndexAt(win, bits, back, k);
            Stream(x, win, bits, back)[k] == Entry(at, Digit(x, at, win))
    ensures IndexAt(win, bits, back, k + 1) ==
            if back then IndexAt(win, bits, back, k) - win else IndexAt(win, bits, back, k) + win
  {
    var m: int := Count(win, bits, back);
    MulGrows(m - 1 - k, win);
    assert (m - 1 - (k + 1)) * win == (m - 1 - k) * win - win;
  }

  /** The object's end test agrees with the count of windows. */
  lemma StillGoing(win: nat, bits: nat, back: bool, k: nat)
    requires win >= 1 && bits >= 1 && k <= Count(win, bits, back)
    ensures back ==> (IndexAt(win, bits, back, k) >= 0 <==> k < Count(win, bits, back))
    ensures !back ==> (IndexAt(win, bits, back, k) < bits <==> k < Count(win, bits, back))
  {
    var m: int := Count(win, bits, back);
    if back {
      MulGrows(m - 1 - k, win);
    } else {
      EndOfForward(win, bits);
      assert (m - 1 - k) * win == (m - 1) * win - k * win;
      MulGrows(m - 1 - k, win);
    }
  }
}
