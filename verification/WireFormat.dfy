/** The wire format told byte by byte, without the functions that write and read it: which bytes a
    field may be written as, and which value some bytes denote. Writing gives such bytes, and reading
    gives a value exactly when a prefix of the input denotes it.
 */
module WireFormat {
  import opened Arithmetic
  import opened Bits
  import opened Wire

  // ---------------------------------------------------------------- integers

  /** b is u in base 256, most significant byte first. */
  ghost predicate IsUInt(b: Bytes, u: nat)
  {
    u < Pow256(|b|) && forall k :: 0 <= k < |b| ==> b[k] == u / Pow256(|b| - 1 - k) % 256
  }

  lemma DivDiv(u: nat, p: nat)
    requires p > 0
    ensures u / 256 / p == u / (256 * p)
  {
    var q, r := u / 256 / p, u / 256 % p;
    assert u == (q * p + r) * 256 + u % 256;
    RemainderUnique(u, q, r * 256 + u % 256, 256 * p);
  }

  lemma {:induction false} DigitsOf(u: nat, w: nat, k: nat)
    requires k < w
    ensures BigEndian(u, w)[k] == u / Pow256(w - 1 - k) % 256
    decreases w
  {
    if k < w - 1 {
      DigitsOf(u / 256, w - 1, k);
      DivDiv(u, Pow256(w - 2 - k));
    }
  }

  lemma {:induction false} BytesRoundTrip(b: Bytes)
    ensures BigEndian(FromBigEndian(b), |b|) == b
  {
    if b != [] {
      BytesRoundTrip(b[..|b| - 1]);
      assert b == b[..|b| - 1] + [b[|b| - 1]];
    }
  }

  /** The bytes that are u, and the number that bytes are. */
  lemma UIntIs(b: Bytes, u: nat)
    ensures IsUInt(b, u) <==> u == FromBigEndian(b)
    ensures IsUInt(b, u) <==> u < Pow256(|b|) && b == BigEndian(u, |b|)
  {
    var e := BigEndian(u, |b|);
    forall k | 0 <= k < |b| ensures e[k] == u / Pow256(|b| - 1 - k) % 256 { DigitsOf(u, |b|, k); }
    BytesRoundTrip(b);
    if u < Pow256(|b|) {
      BigEndianRoundTrip(u, |b|);
      if IsUInt(b, u) { assert b == e; }
    }
  }

  /** Two's complement: the number modulo 256^|b|, for the numbers of the signed range. */
  ghost predicate IsSInt(b: Bytes, i: int)
  {
    0 <= 2 * i + Pow256(|b|) && 2 * i < Pow256(|b|) && IsUInt(b, if i < 0 then i + Pow256(|b|) else i)
  }

  lemma SIntIs(b: Bytes, i: int)
    ensures IsSInt(b, i) <==> i == ToSigned(FromBigEndian(b), |b|)
  {
    if 0 <= 2 * i + Pow256(|b|) && 2 * i < Pow256(|b|) { UIntIs(b, if i < 0 then i + Pow256(|b|) else i); }
  }

  // ---------------------------------------------------------------- lengths

  /** The leading bits that say how many bytes a length code of k bytes has. */
  function Marker(k: nat): nat
  {
    match k
    case 2 => 0x8000
    case 3 => 0xc0_0000
    case 4 => 0xe000_0000
    case _ => 0
  }

  /** h is a length code of n: n with the leading bits in front. The code need not be the shortest. */
  ghost predicate LenDenotes(h: Bytes, n: nat)
  {
    && 1 <= |h| <= 4 && n <= 0x400_0000 && IsUInt(h, n + Marker(|h|))
    && match |h|
       case 1 => h[0] < 0x80
       case 2 => 0x80 <= h[0] < 0xc0
       case 3 => 0xc0 <= h[0] < 0xe0
       case _ => 0xe0 <= h[0]
  }

  /** The shortest of them is written. */
  ghost predicate LenWritten(h: Bytes, n: nat)
  {
    LenDenotes(h, n) && forall g :: LenDenotes(g, n) ==> |h| <= |g|
  }

  lemma FromBigEndian4(b: Bytes)
    requires |b| == 4
    ensures FromBigEndian(b) ==
            0x100_0000 * (b[0] as int) + 0x1_0000 * (b[1] as int) + 0x100 * (b[2] as int) + b[3]
  {
    FromBigEndian3(b[..3]);
  }

  /** The value of up to four bytes. */
  lemma ShortValue(b: Bytes)
    requires 1 <= |b| <= 4
    ensures FromBigEndian(b) ==
            match |b|
            case 1 => b[0]
            case 2 => 0x100 * (b[0] as int) + b[1]
            case 3 => 0x1_0000 * (b[0] as int) + 0x100 * (b[1] as int) + b[2]
            case _ => 0x100_0000 * (b[0] as int) + 0x1_0000 * (b[1] as int) + 0x100 * (b[2] as int) + b[3]
  {
    match |b|
    case 1 => FromBigEndian1(b);
    case 2 => FromBigEndian2(b);
    case 3 => FromBigEndian3(b);
    case _ => FromBigEndian4(b);
  }

  /** A length from its head, the first byte without the leading bits, and the other bytes. */
  lemma HeadValue(s: Bytes, k: nat, m: nat)
    requires 1 <= k <= 4 && k <= |s| && m == [0, 0x80, 0xc0, 0xe0][k - 1] <= s[0]
    ensures (s[0] - m) * Pow256(k - 1) + FromBigEndian(s[1..k]) == FromBigEndian(s[..k]) - Marker(k)
  {
    var b, t := s[..k], s[1..k];
    ShortValue(b);
    assert forall j :: 0 <= j < k - 1 ==> t[j] == b[j + 1];
    match k
    case 1 => assert t == [];
    case 2 => FromBigEndian1(t);
    case 3 => FromBigEndian2(t);
    case _ => FromBigEndian3(t);
  }

  /** Reading a length: the first byte tells how many bytes there are. */
  lemma ReadLenByCount(s: Bytes, k: nat)
    requires s != [] && k == if s[0] < 0x80 then 1 else if s[0] < 0xc0 then 2 else if s[0] < 0xe0 then 3 else 4
    ensures ReadLen(s) ==
            if |s| < k then Bad
            else
              var v := FromBigEndian(s[..k]) - Marker(k);
              if v <= MAX_CONVERT_LEN then Got(v, k) else Bad
  {
    if k <= |s| {
      HeadValue(s, k, [0, 0x80, 0xc0, 0xe0][k - 1]);
      if k == 1 { FromBigEndian1(s[..1]); }
    }
  }

  /** Reading gives a length exactly when the bytes it uses denote it. */
  lemma ReadLenDenotes(s: Bytes, n: nat, u: nat)
    requires u <= |s|
    ensures LenDenotes(s[..u], n) <==> ReadLen(s) == Got(n, u)
  {
    if s != [] {
      var k := if s[0] < 0x80 then 1 else if s[0] < 0xc0 then 2 else if s[0] < 0xe0 then 3 else 4;
      ReadLenByCount(s, k);
      if u == k {
        UIntIs(s[..k], n + Marker(k));
        ShortValue(s[..k]);
      }
    }
  }

  /** The longest lengths for one, two and three bytes. */
  lemma LenCapacity(g: Bytes, n: nat)
    requires LenDenotes(g, n)
    ensures (|g| == 1 ==> n <= 0x7f) && (|g| == 2 ==> n <= 0x3fff) && (|g| == 3 ==> n <= 0x1f_ffff)
  {
    UIntIs(g, n + Marker(|g|));
    ShortValue(g);
  }

  lemma Shortest(c: Bytes, n: nat)
    requires LenDenotes(c, n)
    requires |c| == if n <= 0x7f then 1 else if n <= 0x3fff then 2 else if n <= 0x1f_ffff then 3 else 4
    ensures LenWritten(c, n)
  {
    forall g | LenDenotes(g, n) ensures |c| <= |g| { LenCapacity(g, n); }
  }

  lemma LenCodeDenotes(n: nat)
    requires n <= MAX_CONVERT_LEN
    ensures LenDenotes(LenCode(n), n)
  {
    var c := LenCode(n);
    LenRoundTrip(n, []);
    assert c + [] == c == c[..|c|];
    ReadLenDenotes(c, n, |c|);
  }

  lemma LenCodeWritten(n: nat)
    requires n <= MAX_CONVERT_LEN
    ensures LenWritten(LenCode(n), n)
  {
    LenCodeDenotes(n);
    Shortest(LenCode(n), n);
  }

  // ---------------------------------------------------------------- packed bits

  lemma {:induction false} BitsOfBits(b: nat, n: nat, i: nat)
    requires i < n
    ensures BitsOf(b, n)[i] == Bit(b, i)
    decreases n
  {
    if i > 0 { BitsOfBits(b / 2, n - 1, i - 1); }
  }

  lemma {:induction false} ByteOfBits(bits: seq<bool>, i: nat)
    requires |bits| <= 8
    ensures Bit(ByteOf(bits), i) == (i < |bits| && bits[i])
    decreases |bits|
  {
    if bits == [] {
      ZeroBits(i);
    } else if i > 0 {
      assert ByteOf(bits) / 2 == ByteOf(bits[1..]);
      ByteOfBits(bits[1..], i - 1);
    }
  }

  /** Bit i of the packed form. */
  lemma {:induction false} PackBit(v: seq<bool>, i: nat)
    requires i < 8 * |Pack(v)|
    ensures Bit(Pack(v)[i / 8], i % 8) == (i < |v| && v[i])
    decreases |v|
  {
    if |v| <= 8 {
      ByteOfBits(v, i);
    } else if i < 8 {
      ByteOfBits(v[..8], i);
    } else {
      PackBit(v[8..], i - 8);
      assert Pack(v)[i / 8] == Pack(v[8..])[(i - 8) / 8];
    }
  }

  /** v is the bits of b, in order. */
  predicate Loaded(v: seq<bool>, b: Bytes)
  {
    |b| == (|v| + 7) / 8 && forall i :: 0 <= i < |v| ==> v[i] == Bit(b[i / 8], i % 8)
  }

  lemma LoadedHead(v: seq<bool>, b: Bytes, n: nat, w: nat)
    requires Loaded(v, b) && w == 8 && n <= w && n <= |v| && b != []
    ensures v[..n] == BitsOf(b[0], n)
  {
    forall i | 0 <= i < n ensures v[i] == BitsOf(b[0], n)[i] {
      assert i / 8 == 0 && i % 8 == i;
      BitsOfBits(b[0], n, i);
    }
  }

  lemma LoadedTail(v: seq<bool>, b: Bytes, w: nat)
    requires Loaded(v, b) && w == 8 && |v| > w
    ensures Loaded(v[w..], b[1..])
  {
    var rest, tail := v[w..], b[1..];
    forall i | 0 <= i < |rest| ensures rest[i] == Bit(tail[i / 8], i % 8) {
      assert rest[i] == v[i + w] == Bit(b[(i + w) / 8], (i + w) % 8);
      NextByte(i);
      assert b[i / 8 + 1] == tail[i / 8];
    }
  }

  lemma NextByte(i: nat)
    ensures (i + 8) / 8 == i / 8 + 1 && (i + 8) % 8 == i % 8
  {
  }

  lemma {:induction false} LoadedIsUnpacked(v: seq<bool>, b: Bytes)
    requires Loaded(v, b)
    ensures v == Unpack(b, |v|)
    decreases |v|
  {
    if |v| <= 8 {
      if v != [] {
        LoadedHead(v, b, |v|, 8);
        assert v[..|v|] == v;
      }
    } else {
      LoadedHead(v, b, 8, 8);
      LoadedTail(v, b, 8);
      LoadedIsUnpacked(v[8..], b[1..]);
      UnpackedParts(v, b, v[..8], v[8..]);
    }
  }

  lemma UnpackedParts(v: seq<bool>, b: Bytes, head: seq<bool>, tail: seq<bool>)
    requires |v| > 8 && |b| == (|v| + 7) / 8 && v == head + tail && |head| == 8 && |b[1..]| == (|tail| + 7) / 8
    requires head == BitsOf(b[0], 8) && tail == Unpack(b[1..], |tail|)
    ensures v == Unpack(b, |v|)
  {
  }


  lemma UnpackDenotes(b: Bytes, v: seq<bool>)
    requires |b| == (|v| + 7) / 8
    ensures Loaded(v, b) <==> v == Unpack(b, |v|)
  {
    var u := seq(|v|, i requires 0 <= i < |v| => Bit(b[i / 8], i % 8));
    LoadedIsUnpacked(u, b);
    if Loaded(v, b) { LoadedIsUnpacked(v, b); }
  }

  // ---------------------------------------------------------------- what bytes denote

  /** A length code and that many bytes. */
  ghost predicate BufDenotes(e: Bytes, b: Bytes)
  {
    |b| <= |e| && LenDenotes(e[..|e| - |b|], |b|) && e[|e| - |b|..] == b
  }

  /** One buffer after another. */
  ghost predicate BufsDenote(e: Bytes, bs: seq<Bytes>)
    decreases |bs|
  {
    if bs == [] then e == []
    else exists k: nat :: k <= |e| && BufDenotes(e[..k], bs[0]) && BufsDenote(e[k..], bs[1..])
  }

  /** A 16-bit count below 2^15 and that many bytes. */
  ghost predicate ShortDenotes(e: Bytes, b: Bytes)
  {
    |b| <= 0x7fff && |e| == 2 + |b| && IsUInt(e[..2], |b|) && e[2..] == b
  }

  /** The bytes e are read as g. Any byte but 0 is true. */
  ghost predicate Denotes(g: Field, e: Bytes)
  {
    match g
    case UInt(w, u) => |e| == w && IsUInt(e, u)
    case SInt(w, i) => |e| == w && IsSInt(e, i)
    case Flag(x) => |e| == 1 && x == (e[0] != 0)
    case Str(s) => ShortDenotes(e, s)
    case Buf(b) => BufDenotes(e, b)
    case BitVec(v) =>
      var p := (|v| + 7) / 8;
      p <= |e| && LenDenotes(e[..|e| - p], |v|) && Loaded(v, e[|e| - p..])
    case Flags(fs) =>
      |e| == 2 + |fs| && ShortDenotes(e, e[2..]) && forall k :: 0 <= k < |fs| ==> fs[k] == (e[2 + k] != 0)
    case Bufs(bs) =>
      |bs| <= 0x10_0000 && exists k: nat :: k <= |e| && LenDenotes(e[..k], |bs|) && BufsDenote(e[k..], bs)
  }

  lemma ReadBufDenotes(s: Bytes, b: Bytes, u: nat)
    requires u <= |s|
    ensures BufDenotes(s[..u], b) <==> ReadBuf(s) == Got(b, u)
  {
    if |b| <= u {
      var k := u - |b|;
      assert s[..u][..k] == s[..k];
      ReadLenDenotes(s, |b|, k);
    }
  }

  /** A slice of a prefix is a prefix of a slice. */
  lemma Slices(s: Bytes, k: nat, u: nat)
    requires k <= u <= |s|
    ensures s[..u][..k] == s[..k] && s[..u][k..] == s[k..][..u - k]
  {
  }

  lemma {:induction false} DenotedBufsRead(s: Bytes, bs: seq<Bytes>, u: nat)
    requires u <= |s| && BufsDenote(s[..u], bs)
    ensures ReadBufs(s, |bs|) == Got(bs, u)
    decreases |bs|
  {
    if bs != [] {
      var k: nat :| k <= u && BufDenotes(s[..u][..k], bs[0]) && BufsDenote(s[..u][k..], bs[1..]);
      Slices(s, k, u);
      ReadBufDenotes(s, bs[0], k);
      DenotedBufsRead(s[k..], bs[1..], u - k);
      ReadBufsStep(s, bs, k, u);
    }
  }

  lemma ReadBufsStep(s: Bytes, bs: seq<Bytes>, k: nat, u: nat)
    requires bs != [] && k <= u <= |s| && ReadBuf(s) == Got(bs[0], k)
    requires ReadBufs(s[k..], |bs| - 1) == Got(bs[1..], u - k)
    ensures ReadBufs(s, |bs|) == Got(bs, u)
  {
    assert [bs[0]] + bs[1..] == bs;
  }

  lemma {:induction false} ReadBufsDenoted(s: Bytes, bs: seq<Bytes>, u: nat)
    requires u <= |s| && ReadBufs(s, |bs|) == Got(bs, u)
    ensures BufsDenote(s[..u], bs)
    decreases |bs|
  {
    if bs != [] {
      var k := FirstUsed(s, bs, u);
      Slices(s, k, u);
      ReadBufDenotes(s, bs[0], k);
      ReadBufsDenoted(s[k..], bs[1..], u - k);
      assert BufDenotes(s[..u][..k], bs[0]) && BufsDenote(s[..u][k..], bs[1..]);
    }
  }

  lemma FirstUsed(s: Bytes, bs: seq<Bytes>, u: nat) returns (k: nat)
    requires bs != [] && ReadBufs(s, |bs|) == Got(bs, u)
    ensures k <= u <= |s| && ReadBuf(s) == Got(bs[0], k) && ReadBufs(s[k..], |bs| - 1) == Got(bs[1..], u - k)
  {
    k := ReadBuf(s).used;
    var rest := ReadBufs(s[k..], |bs| - 1);
    assert bs == [ReadBuf(s).value] + rest.value;
    assert bs[1..] == rest.value;
  }

  lemma ReadStrDenotes(s: Bytes, b: Bytes, u: nat)
    requires u <= |s|
    ensures ShortDenotes(s[..u], b) <==> ReadStr(s) == Got(b, u)
  {
    if |s| >= 2 {
      UIntIs(s[..2], |b|);
      FromBigEndian2(s[..2]);
      if u >= 2 { assert s[..u][..2] == s[..2] && s[..u][2..] == s[2..u]; }
    }
  }

  lemma ReadFlagsDenote(s: Bytes, fs: seq<bool>, u: nat)
    requires u <= |s|
    ensures Denotes(Flags(fs), s[..u]) <==> ReadFlags(s) == Got(fs, u)
  {
    var b := ReadStr(s);
    if u >= 2 { ReadStrDenotes(s, s[..u][2..], u); }
    if b.Got? && ReadFlags(s) == Got(fs, u) {
      ReadStrDenotes(s, b.value, u);
      forall k | 0 <= k < |fs| ensures fs[k] == (s[..u][2 + k] != 0) { assert s[..u][2..][k] == b.value[k]; }
    }
    if Denotes(Flags(fs), s[..u]) {
      assert b == Got(s[..u][2..], u);
      assert fs == ReadFlags(s).value;
    }
  }

  lemma DenotedBitsRead(s: Bytes, v: seq<bool>, u: nat)
    requires u <= |s| && Denotes(BitVec(v), s[..u])
    ensures ReadBits(s) == Got(v, u)
  {
    var p := (|v| + 7) / 8;
    var k := u - p;
    Slices(s, k, u);
    ReadLenDenotes(s, |v|, k);
    ReadPackedParts(s, |v|, k);
    UnpackDenotes(s[k..][..p], v);
  }

  lemma ReadBitsDenoted(s: Bytes, v: seq<bool>, u: nat)
    requires u <= |s| && ReadBits(s) == Got(v, u)
    ensures Denotes(BitVec(v), s[..u])
  {
    var k := BitsUsed(s, v, u);
    ReadLenDenotes(s, |v|, k);
    UnpackDenotes(s[k..][..u - k], v);
    BitsDenoteAt(s, v, k, u);
  }

  lemma BitsUsed(s: Bytes, v: seq<bool>, u: nat) returns (k: nat)
    requires ReadBits(s) == Got(v, u)
    ensures k + (|v| + 7) / 8 == u <= |s| && ReadLen(s) == Got(|v|, k) && v == Unpack(s[k..][..u - k], |v|)
  {
    k := ReadLen(s).used;
    ReadPackedParts(s, ReadLen(s).value, k);
  }

  lemma BitsDenoteAt(s: Bytes, v: seq<bool>, k: nat, u: nat)
    requires k + (|v| + 7) / 8 == u <= |s| && LenDenotes(s[..k], |v|) && Loaded(v, s[k..][..u - k])
    ensures Denotes(BitVec(v), s[..u])
  {
    Slices(s, k, u);
  }

  lemma DenotedVectorRead(s: Bytes, bs: seq<Bytes>, u: nat)
    requires u <= |s| && Denotes(Bufs(bs), s[..u])
    ensures ReadVector(s) == Got(bs, u)
  {
    var k: nat :| k <= u && LenDenotes(s[..u][..k], |bs|) && BufsDenote(s[..u][k..], bs);
    Slices(s, k, u);
    ReadLenDenotes(s, |bs|, k);
    DenotedBufsRead(s[k..], bs, u - k);
    BufsNotShort(s[k..][..u - k], bs);
  }

  lemma ReadVectorDenoted(s: Bytes, bs: seq<Bytes>, u: nat)
    requires u <= |s| && ReadVector(s) == Got(bs, u)
    ensures Denotes(Bufs(bs), s[..u])
  {
    var k := ReadLen(s).used;
    Slices(s, k, u);
    ReadLenDenotes(s, |bs|, k);
    ReadBufsDenoted(s[k..], bs, u - k);
    assert LenDenotes(s[..u][..k], |bs|) && BufsDenote(s[..u][k..], bs);
  }

  /** Every buffer takes at least one byte. */
  lemma {:induction false} BufsNotShort(e: Bytes, bs: seq<Bytes>)
    requires BufsDenote(e, bs)
    ensures |e| >= |bs|
    decreases |bs|
  {
    if bs != [] {
      var k: nat :| k <= |e| && BufDenotes(e[..k], bs[0]) && BufsDenote(e[k..], bs[1..]);
      BufsNotShort(e[k..], bs[1..]);
    }
  }

  /** Reading gives g and uses u bytes exactly when the first u bytes denote g. */
  lemma ReadDenotes(t: Field, g: Field, s: Bytes, u: nat)
    requires SameType(t, g) && u <= |s|
    ensures Denotes(g, s[..u]) <==> Parse(t, s) == Got(g, u)
  {
    match g
    case UInt(w, v) => UIntIs(s[..u], v);
    case SInt(w, i) => SIntIs(s[..u], i);
    case Flag(x) => if u == 1 { FromBigEndian1(s[..1]); }
    case Str(b) => ReadStrDenotes(s, b, u);
    case Buf(b) => ReadBufDenotes(s, b, u);
    case BitVec(v) =>
      if Denotes(g, s[..u]) { DenotedBitsRead(s, v, u); }
      if ReadBits(s) == Got(v, u) { ReadBitsDenoted(s, v, u); }
    case Flags(fs) => ReadFlagsDenote(s, fs, u);
    case Bufs(bs) =>
      if Denotes(g, s[..u]) { DenotedVectorRead(s, bs, u); }
      if ReadVector(s) == Got(bs, u) { ReadVectorDenoted(s, bs, u); }
  }

  /** What is read has the type asked for. */
  lemma ReadType(t: Field, s: Bytes)
    ensures Parse(t, s).Got? ==> SameType(t, Parse(t, s).value)
  {
  }

  /** The first u bytes of s denote g. */
  ghost predicate PrefixDenotes(g: Field, s: Bytes, u: nat) { u <= |s| && Denotes(g, s[..u]) }

  /** No prefix of s denotes a value of t's type. */
  ghost predicate NoneDenoted(t: Field, s: Bytes)
  {
    forall g: Field, u: nat :: SameType(t, g) ==> !PrefixDenotes(g, s, u)
  }

  lemma ReadMeans(t: Field, s: Bytes)
    ensures match Parse(t, s)
            case Got(g, u) => SameType(t, g) && PrefixDenotes(g, s, u)
            case Bad => NoneDenoted(t, s)
  {
    ReadType(t, s);
    var p := Parse(t, s);
    if p.Got? { ReadDenotes(t, p.value, s, p.used); } else {
      forall g: Field, u: nat | SameType(t, g) ensures !PrefixDenotes(g, s, u) {
        if u <= |s| { ReadDenotes(t, g, s, u); }
      }
    }
  }

  // ---------------------------------------------------------------- what is written

  ghost predicate BufWritten(e: Bytes, b: Bytes)
  {
    |b| <= |e| && LenWritten(e[..|e| - |b|], |b|) && e[|e| - |b|..] == b
  }

  ghost predicate BufsWritten(e: Bytes, bs: seq<Bytes>)
    decreases |bs|
  {
    if bs == [] then e == []
    else exists k: nat :: k <= |e| && BufWritten(e[..k], bs[0]) && BufsWritten(e[k..], bs[1..])
  }

  /** Packed, with the bits of the last byte that hold nothing zero. */
  ghost predicate BitsWritten(e: Bytes, v: seq<bool>)
  {
    |e| == (|v| + 7) / 8 && forall i :: 0 <= i < 8 * |e| ==> Bit(e[i / 8], i % 8) == (i < |v| && v[i])
  }

  /** The bytes that f is written as. A vector<bool> writes its count modulo 2^16, and as many flags
      as that is when it is read back as a signed number, true as 1 and false as 0.
   */
  ghost predicate Written(f: Field, e: Bytes)
  {
    match f
    case UInt(w, u) => |e| == w && IsUInt(e, u)
    case SInt(w, i) => |e| == w && IsSInt(e, i)
    case Flag(b) => e == if b then [1] else [0]
    case Str(s) => ShortDenotes(e, s)
    case Buf(b) => BufWritten(e, b)
    case BitVec(v) =>
      var p := (|v| + 7) / 8;
      p <= |e| && LenWritten(e[..|e| - p], |v|) && BitsWritten(e[|e| - p..], v)
    case Flags(fs) =>
      var n := |fs| % 0x1_0000;
      var m := if n < 0x8000 then n else 0;
      |e| == 2 + m && IsUInt(e[..2], n) && forall k :: 0 <= k < m ==> e[2 + k] == if fs[k] then 1 else 0
    case Bufs(bs) => exists k: nat :: k <= |e| && LenWritten(e[..k], |bs|) && BufsWritten(e[k..], bs)
  }

  lemma BufCodeWritten(b: Bytes)
    requires |b| <= MAX_CONVERT_LEN
    ensures BufWritten(BufCode(b), b)
  {
    LenCodeWritten(|b|);
    var e := BufCode(b);
    assert e[..|e| - |b|] == LenCode(|b|);
  }

  lemma {:induction false} BufsCodeWritten(bs: seq<Bytes>)
    requires EachShort(bs)
    ensures BufsWritten(BufsCode(bs), bs)
  {
    if bs != [] {
      var c, e := BufCode(bs[0]), BufsCode(bs);
      BufCodeWritten(bs[0]);
      BufsCodeWritten(bs[1..]);
      assert e[..|c|] == c && e[|c|..] == BufsCode(bs[1..]);
    }
  }

  lemma CoupleWritten(e: Bytes, n: nat)
    requires n < 0x1_0000 && e == BigEndian(n, 2)
    ensures IsUInt(e, n)
  {
    UIntIs(e, n);
    FromBigEndian2([0, 0]);
  }

  lemma FlagsCodeWritten(fs: seq<bool>)
    ensures Written(Flags(fs), Code(Flags(fs)))
  {
    var e, n := Code(Flags(fs)), |fs| % 0x1_0000;
    assert e[..2] == BigEndian(n, 2);
    CoupleWritten(e[..2], n);
  }

  lemma BitsCodeWritten(v: seq<bool>)
    requires |v| <= MAX_CONVERT_LEN
    ensures Written(BitVec(v), Code(BitVec(v)))
  {
    var c, p := LenCode(|v|), Pack(v);
    var e := c + p;
    assert e[..|e| - |p|] == c && e[|e| - |p|..] == p;
    LenCodeWritten(|v|);
    forall i | 0 <= i < 8 * |p| ensures Bit(p[i / 8], i % 8) == (i < |v| && v[i]) { PackBit(v, i); }
  }

  lemma VectorCodeWritten(bs: seq<Bytes>)
    requires Writable(Bufs(bs))
    ensures Written(Bufs(bs), Code(Bufs(bs)))
  {
    var c, e := LenCode(|bs|), Code(Bufs(bs));
    LenCodeWritten(|bs|);
    BufsCodeWritten(bs);
    assert e[..|c|] == c && e[|c|..] == BufsCode(bs);
  }

  lemma StrCodeWritten(s: Bytes)
    requires |s| <= SHRT_MAX
    ensures ShortDenotes(BigEndian(|s|, 2) + s, s)
  {
    var e := BigEndian(|s|, 2) + s;
    assert e[..2] == BigEndian(|s|, 2) && e[2..] == s;
    CoupleWritten(e[..2], |s|);
  }

  /** The code of a field is what the format says. */
  lemma CodeWritten(f: Field)
    requires Writable(f)
    ensures Written(f, Code(f))
  {
    var e := Code(f);
    match f
    case UInt(w, u) => UIntIs(e, u);
    case SInt(w, i) => UIntIs(e, ToUnsigned(i, w));
    case Flag(b) =>
    case Str(s) => StrCodeWritten(s);
    case Buf(b) => BufCodeWritten(b);
    case BitVec(v) => BitsCodeWritten(v);
    case Flags(fs) => FlagsCodeWritten(fs);
    case Bufs(bs) => VectorCodeWritten(bs);
  }

  // ---------------------------------------------------------------- messages

  /** One field after another. */
  ghost predicate AllWritten(fs: seq<Field>, e: Bytes)
    decreases |fs|
  {
    if fs == [] then e == []
    else exists k: nat :: k <= |e| && Written(fs[0], e[..k]) && AllWritten(fs[1..], e[k..])
  }

  ghost predicate AllDenote(fs: seq<Field>, e: Bytes)
    decreases |fs|
  {
    if fs == [] then e == []
    else exists k: nat :: k <= |e| && Denotes(fs[0], e[..k]) && AllDenote(fs[1..], e[k..])
  }

  lemma {:induction false} CodeAllWritten(fs: seq<Field>)
    requires AllWritable(fs)
    ensures AllWritten(fs, CodeAll(fs))
  {
    if fs != [] {
      var c, e := Code(fs[0]), CodeAll(fs);
      CodeWritten(fs[0]);
      CodeAllWritten(fs[1..]);
      assert e[..|c|] == c && e[|c|..] == CodeAll(fs[1..]);
    }
  }

  predicate SameTypes(ts: seq<Field>, gs: seq<Field>)
  {
    |ts| == |gs| && forall k :: 0 <= k < |ts| ==> SameType(ts[k], gs[k])
  }

  /** Reading a message gives gs and uses u bytes exactly when the first u bytes denote gs. */
  lemma {:induction false} ReadAllDenote(ts: seq<Field>, gs: seq<Field>, s: Bytes, u: nat)
    requires SameTypes(ts, gs) && u <= |s|
    ensures AllDenote(gs, s[..u]) <==> ParseAll(ts, s) == Got(gs, u)
    decreases |ts|
  {
    if AllDenote(gs, s[..u]) { DenotedRead(ts, gs, s, u); }
    if ParseAll(ts, s) == Got(gs, u) { ReadDenoted(ts, gs, s, u); }
  }

  ghost predicate PrefixDenoteAll(gs: seq<Field>, s: Bytes, u: nat) { u <= |s| && AllDenote(gs, s[..u]) }

  ghost predicate NoneDenoteAll(ts: seq<Field>, s: Bytes)
  {
    forall gs: seq<Field>, u: nat :: SameTypes(ts, gs) ==> !PrefixDenoteAll(gs, s, u)
  }

  /** Only a proper prefix of s denotes values of the types of ts. */
  ghost predicate PrefixOnly(ts: seq<Field>, s: Bytes)
  {
    exists gs: seq<Field>, u: nat :: u < |s| && SameTypes(ts, gs) && PrefixDenoteAll(gs, s, u)
  }

  /** The verdict of a strict reader: the fields the bytes denote, or no fields, or bytes left over. */
  lemma VerdictMeans(ts: seq<Field>, s: Bytes)
    ensures match Deserialize(ts, s)
            case Accepted(gs) => SameTypes(ts, gs) && AllDenote(gs, s)
            case Malformed => NoneDenoteAll(ts, s)
            case Trailing => PrefixOnly(ts, s)
  {
    var p := ParseAll(ts, s);
    assert s[..|s|] == s;
    if p.Got? {
      ReadDenoted(ts, p.value, s, p.used);
      assert PrefixDenoteAll(p.value, s, p.used);
    } else {
      forall gs: seq<Field>, u: nat | SameTypes(ts, gs) ensures !PrefixDenoteAll(gs, s, u) {
        if u <= |s| { ReadAllDenote(ts, gs, s, u); }
      }
    }
  }

  lemma ParseAllStep(ts: seq<Field>, gs: seq<Field>, s: Bytes, k: nat, u: nat)
    requires ts != [] && gs != [] && k <= u <= |s| && Parse(ts[0], s) == Got(gs[0], k)
    requires ParseAll(ts[1..], s[k..]) == Got(gs[1..], u - k)
    ensures ParseAll(ts, s) == Got(gs, u)
  {
    assert [gs[0]] + gs[1..] == gs;
  }

  lemma ParseAllParts(ts: seq<Field>, gs: seq<Field>, s: Bytes, u: nat) returns (k: nat)
    requires ts != [] && ParseAll(ts, s) == Got(gs, u)
    ensures gs != [] && k <= u <= |s| && Parse(ts[0], s) == Got(gs[0], k)
    ensures ParseAll(ts[1..], s[k..]) == Got(gs[1..], u - k)
  {
    var g := Parse(ts[0], s);
    k := g.used;
    var rest := ParseAll(ts[1..], s[k..]);
    assert gs == [g.value] + rest.value;
    assert gs[1..] == rest.value;
  }

  lemma DenoteParts(gs: seq<Field>, s: Bytes, u: nat) returns (k: nat)
    requires gs != [] && u <= |s| && AllDenote(gs, s[..u])
    ensures k <= u && Denotes(gs[0], s[..k]) && AllDenote(gs[1..], s[k..][..u - k])
  {
    k :| k <= u && Denotes(gs[0], s[..u][..k]) && AllDenote(gs[1..], s[..u][k..]);
    Slices(s, k, u);
  }

  lemma DenoteStep(gs: seq<Field>, s: Bytes, k: nat, u: nat)
    requires gs != [] && k <= u <= |s| && Denotes(gs[0], s[..k]) && AllDenote(gs[1..], s[k..][..u - k])
    ensures AllDenote(gs, s[..u])
  {
    Slices(s, k, u);
    assert Denotes(gs[0], s[..u][..k]) && AllDenote(gs[1..], s[..u][k..]);
  }

  lemma {:induction false} DenotedRead(ts: seq<Field>, gs: seq<Field>, s: Bytes, u: nat)
    requires SameTypes(ts, gs) && u <= |s| && AllDenote(gs, s[..u])
    ensures ParseAll(ts, s) == Got(gs, u)
    decreases |ts|
  {
    if ts == [] {
      assert s[..u] == [];
    } else {
      var k := DenoteParts(gs, s, u);
      ReadDenotes(ts[0], gs[0], s, k);
      DenotedRead(ts[1..], gs[1..], s[k..], u - k);
      ParseAllStep(ts, gs, s, k, u);
    }
  }

  lemma {:induction false} ReadDenoted(ts: seq<Field>, gs: seq<Field>, s: Bytes, u: nat)
    requires u <= |s| && ParseAll(ts, s) == Got(gs, u)
    ensures SameTypes(ts, gs) && AllDenote(gs, s[..u])
    decreases |ts|
  {
    if ts != [] {
      var k := ParseAllParts(ts, gs, s, u);
      ReadType(ts[0], s);
      ReadDenotes(ts[0], gs[0], s, k);
      ReadDenoted(ts[1..], gs[1..], s[k..], u - k);
      DenoteStep(gs, s, k, u);
    }
  }

  /** A bundle holds msgs exactly when its bytes denote a vector of them. */
  lemma UnbundleDenotes(s: Bytes, msgs: seq<Bytes>)
    ensures Unbundle(s) == Accepted(msgs) <==> Denotes(Bufs(msgs), s)
  {
    var t := Bufs([]);
    var p := Parse(t, s);
    assert s[..|s|] == s;
    ReadDenotes(t, Bufs(msgs), s, |s|);
    ReadType(t, s);
    OneField(t, s);
  }

  lemma OneField(t: Field, s: Bytes)
    ensures ParseAll([t], s) == if Parse(t, s).Bad? then Bad else Got([Parse(t, s).value], Parse(t, s).used)
  {
    var p, ts := Parse(t, s), [t];
    assert ts[1..] == [];
    if p.Got? { assert ParseAll(ts[1..], s[p.used..]) == Got([], 0) && [p.value] + [] == [p.value]; }
  }
}
