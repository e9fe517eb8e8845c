/** The wire format of the converter: what each field is as bytes, and what reading those bytes
    gives back. Everything here is a value; `Converter.dfy` holds the object that walks a buffer.
 */
module Wire {

  type byte = x: nat | x < 256
  type Bytes = seq<byte>

  const SHRT_MAX := 0x7fff
  const MAX_CONVERT_LEN := 64 * 1024 * 1024
  const MAX_CONTAINER_ELEMENTS := 1024 * 1024

  /** The result of reading a value from the front of some bytes. */
  datatype Parsed<+T> = Bad | Got(value: T, used: nat)

  // ---------------------------------------------------------------- big-endian integers

  function Pow256(w: nat): (p: nat)
    ensures p >= 1
  {
    if w == 0 then 1 else 256 * Pow256(w - 1)
  }

  function BigEndian(v: nat, w: nat): (b: Bytes)
    ensures |b| == w
    decreases w
  {
    if w == 0 then [] else BigEndian(v / 256, w - 1) + [v % 256]
  }

  function FromBigEndian(b: Bytes): (v: nat)
    ensures v < Pow256(|b|)
  {
    if b == [] then 0 else FromBigEndian(b[..|b| - 1]) * 256 + b[|b| - 1]
  }

  lemma {:induction false} BigEndianRoundTrip(v: nat, w: nat)
    requires v < Pow256(w)
    ensures FromBigEndian(BigEndian(v, w)) == v
    decreases w
  {
    if w > 0 {
      BigEndianRoundTrip(v / 256, w - 1);
      assert BigEndian(v, w)[..w - 1] == BigEndian(v / 256, w - 1);
    }
  }

  function ReadUInt(s: Bytes, w: nat): Parsed<nat>
  {
    if w <= |s| then Got(FromBigEndian(s[..w]), w) else Bad
  }

  /** Two's complement: the unsigned value a signed one is stored as, and back. */
  function ToUnsigned(v: int, w: nat): (u: nat)
    requires 0 <= v + Pow256(w) && v < Pow256(w)
    ensures u < Pow256(w)
  {
    if v < 0 then v + Pow256(w) else v
  }

  function ToSigned(u: nat, w: nat): int
  {
    if 2 * u >= Pow256(w) then u - Pow256(w) else u
  }

  // ---------------------------------------------------------------- the length code

  /** 1 to 4 bytes; the number of leading ones of the first byte tells how many follow. */
  function LenCode(n: nat): (b: Bytes)
    requires n <= MAX_CONVERT_LEN
    ensures 1 <= |b| <= 4
  {
    if n <= 0x7f then [n]
    else if n <= 0x3fff then [0x80 + n / 0x100, n % 0x100]
    else if n <= 0x1f_ffff then [0xc0 + n / 0x1_0000, n / 0x100 % 0x100, n % 0x100]
    else [0xe0 + n / 0x100_0000, n / 0x1_0000 % 0x100, n / 0x100 % 0x100, n % 0x100]
  }

  function LenValue(head: nat, rest: Bytes): Parsed<nat>
  {
    var v := head * Pow256(|rest|) + FromBigEndian(rest);
    if v <= MAX_CONVERT_LEN then Got(v, 1 + |rest|) else Bad
  }

  function ReadLen(s: Bytes): (p: Parsed<nat>)
    ensures p.Got? ==> p.value <= MAX_CONVERT_LEN && 1 <= p.used <= |s|
  {
    if |s| == 0 then Bad
    else if s[0] < 0x80 then Got(s[0], 1)
    else if s[0] < 0xc0 then if |s| < 2 then Bad else LenValue(s[0] - 0x80, s[1..2])
    else if s[0] < 0xe0 then if |s| < 3 then Bad else LenValue(s[0] - 0xc0, s[1..3])
    else if |s| < 4 then Bad else LenValue(s[0] - 0xe0, s[1..4])
  }

  /** The bits of a length code's first byte that belong to the length, and how many bytes follow. */
  function LenHead(b: byte): (nat, nat)
  {
    if b < 0x80 then (b, 0)
    else if b < 0xc0 then (b - 0x80, 1)
    else if b < 0xe0 then (b - 0xc0, 2)
    else (b - 0xe0, 3)
  }

  lemma ReadLenByHead(s: Bytes)
    requires |s| >= 1
    ensures var (head, n) := LenHead(s[0]);
            ReadLen(s) == if |s| < 1 + n then Bad else LenValue(head, s[1..][..n])
  {
    var (head, n) := LenHead(s[0]);
    if n == 0 {
      assert s[1..][..0] == [];
    } else if |s| >= 1 + n {
      assert s[1..][..n] == s[1..1 + n];
    }
  }

  lemma FromBigEndian1(b: Bytes)
    requires |b| == 1
    ensures FromBigEndian(b) == b[0] && Pow256(1) == 256
  {
    assert FromBigEndian([]) == 0 && b[..0] == [];
  }

  lemma FromBigEndian2(b: Bytes)
    requires |b| == 2
    ensures FromBigEndian(b) == 0x100 * (b[0] as int) + b[1] && Pow256(2) == 0x1_0000
  {
    FromBigEndian1(b[..1]);
  }

  lemma FromBigEndian3(b: Bytes)
    requires |b| == 3
    ensures FromBigEndian(b) == 0x1_0000 * (b[0] as int) + 0x100 * (b[1] as int) + b[2] && Pow256(3) == 0x100_0000
  {
    FromBigEndian2(b[..2]);
  }

  lemma LenRoundTrip2(n: nat, tail: Bytes)
    requires 0x7f < n <= 0x3fff
    ensures ReadLen(LenCode(n) + tail) == Got(n, 2)
  {
    var c := LenCode(n);
    assert (c + tail)[0] == c[0] && (c + tail)[1..2] == [c[1]];
    FromBigEndian1([c[1]]);
  }

  lemma LenRoundTrip3(n: nat, tail: Bytes)
    requires 0x3fff < n <= 0x1f_ffff
    ensures ReadLen(LenCode(n) + tail) == Got(n, 3)
  {
    var c := LenCode(n);
    assert (c + tail)[0] == c[0] && (c + tail)[1..3] == [c[1], c[2]];
    FromBigEndian2([c[1], c[2]]);
    assert n == n / 0x1_0000 * 0x1_0000 + n / 0x100 % 0x100 * 0x100 + n % 0x100;
  }

  lemma LenRoundTrip4(n: nat, tail: Bytes)
    requires 0x1f_ffff < n <= MAX_CONVERT_LEN
    ensures ReadLen(LenCode(n) + tail) == Got(n, 4)
  {
    var c := LenCode(n);
    assert (c + tail)[0] == c[0] && (c + tail)[1..4] == [c[1], c[2], c[3]];
    FromBigEndian3([c[1], c[2], c[3]]);
    FourDigits(n);
  }

  lemma FourDigits(n: nat)
    ensures n == n / 0x100_0000 * 0x100_0000 + n / 0x1_0000 % 0x100 * 0x1_0000 + n / 0x100 % 0x100 * 0x100 + n % 0x100
  {
    assert n / 0x1_0000 == n / 0x100 / 0x100 && n / 0x100_0000 == n / 0x1_0000 / 0x100;
  }

  lemma LenRoundTrip(n: nat, tail: Bytes)
    requires n <= MAX_CONVERT_LEN
    ensures ReadLen(LenCode(n) + tail) == Got(n, |LenCode(n)|)
  {
    if n <= 0x7f {
      assert (LenCode(n) + tail)[0] == n;
    } else if n <= 0x3fff {
      LenRoundTrip2(n, tail);
    } else if n <= 0x1f_ffff {
      LenRoundTrip3(n, tail);
    } else {
      LenRoundTrip4(n, tail);
    }
  }

  // ---------------------------------------------------------------- bit vectors

  /** Up to eight bits as a byte, the first one least significant. */
  function ByteOf(bits: seq<bool>): (b: nat)
    requires |bits| <= 8
    ensures b < Pow2n(|bits|) && b < 256
  {
    if bits == [] then 0 else (if bits[0] then 1 else 0) + 2 * ByteOf(bits[1..])
  }

  function Pow2n(n: nat): nat
    requires n <= 8
  {
    [1, 2, 4, 8, 16, 32, 64, 128, 256][n]
  }

  function BitsOf(b: nat, n: nat): (bits: seq<bool>)
    ensures |bits| == n
    decreases n
  {
    if n == 0 then [] else [b % 2 == 1] + BitsOf(b / 2, n - 1)
  }

  lemma {:induction false} ByteRoundTrip(bits: seq<bool>)
    requires |bits| <= 8
    ensures BitsOf(ByteOf(bits), |bits|) == bits
  {
    if bits != [] { ByteRoundTrip(bits[1..]); }
  }

  /** Bits packed eight to a byte; the unused bits of the last byte are zero. */
  function Pack(bits: seq<bool>): (b: Bytes)
    ensures |b| == (|bits| + 7) / 8
  {
    if bits == [] then []
    else if |bits| <= 8 then [ByteOf(bits)]
    else [ByteOf(bits[..8])] + Pack(bits[8..])
  }

  function Unpack(b: Bytes, n: nat): (bits: seq<bool>)
    requires |b| == (n + 7) / 8
    ensures |bits| == n
  {
    if n == 0 then []
    else if n <= 8 then BitsOf(b[0], n)
    else BitsOf(b[0], 8) + Unpack(b[1..], n - 8)
  }

  lemma {:induction false} PackRoundTrip(bits: seq<bool>)
    ensures Unpack(Pack(bits), |bits|) == bits
  {
    if bits == [] {
    } else if |bits| <= 8 {
      ByteRoundTrip(bits);
    } else {
      ByteRoundTrip(bits[..8]);
      PackRoundTrip(bits[8..]);
      assert Pack(bits)[1..] == Pack(bits[8..]);
      assert bits == bits[..8] + bits[8..];
    }
  }

  // ---------------------------------------------------------------- fields

  datatype Field =
    | UInt(width: nat, u: nat)       // uint8_t .. uint64_t
    | SInt(width: nat, i: int)       // int8_t .. int64_t
    | Flag(flag: bool)               // bool
    | Str(chars: Bytes)              // std::string, 16-bit length
    | Buf(bytes: Bytes)              // buf_t, length code
    | BitVec(bits: seq<bool>)        // bits_t, length code counting bits
    | Flags(flags: seq<bool>)        // std::vector<bool>, 16-bit count
    | Bufs(bufs: seq<Bytes>)         // std::vector<buf_t>, length code

  predicate WidthOk(w: nat) { w in {1, 2, 4, 8} }

  /** The values a field of the C++ type can hold and the write pass accepts: a string is at
      most SHRT_MAX long and every length code at most MAX_CONVERT_LEN. */
  predicate Writable(f: Field)
  {
    match f
    case UInt(w, u) => WidthOk(w) && u < Pow256(w)
    case SInt(w, i) => WidthOk(w) && 0 <= 2 * i + Pow256(w) && 2 * i < Pow256(w)
    case Flag(_) => true
    case Str(s) => |s| <= SHRT_MAX
    case Buf(b) => |b| <= MAX_CONVERT_LEN
    case BitVec(bits) => |bits| <= MAX_CONVERT_LEN
    case Flags(_) => true
    case Bufs(bs) => |bs| <= MAX_CONVERT_LEN && EachShort(bs)
  }

  /** `(short)n`: the count a std::vector<bool> of n entries is written with. */
  function ShortCast(n: nat): (s: int)
    ensures -0x8000 <= s <= 0x7fff
  {
    ToSigned16(n % 0x1_0000)
  }

  function ToSigned16(u: nat): int { if u >= 0x8000 then u - 0x1_0000 else u }

  function FlagBytes(flags: seq<bool>): (b: Bytes)
    ensures |b| == |flags|
  {
    seq(|flags|, k requires 0 <= k < |flags| => if flags[k] then 1 else 0)
  }

  function BufCode(b: Bytes): (r: Bytes)
    requires |b| <= MAX_CONVERT_LEN
    ensures |r| >= 1 + |b|
  {
    LenCode(|b|) + b
  }

  predicate EachShort(bs: seq<Bytes>) { forall k :: 0 <= k < |bs| ==> |bs[k]| <= MAX_CONVERT_LEN }

  function BufsCode(bs: seq<Bytes>): (r: Bytes)
    requires EachShort(bs)
    ensures |r| >= |bs|
  {
    if bs == [] then [] else BufCode(bs[0]) + BufsCode(bs[1..])
  }

  /** The bytes of a field. */
  function Code(f: Field): Bytes
    requires Writable(f)
  {
    match f
    case UInt(w, u) => BigEndian(u, w)
    case SInt(w, i) => BigEndian(ToUnsigned(i, w), w)
    case Flag(b) => [if b then 1 else 0]
    case Str(s) => BigEndian(|s|, 2) + s
    case Buf(b) => BufCode(b)
    case BitVec(bits) => LenCode(|bits|) + Pack(bits)
    case Flags(fs) =>
      var n := ShortCast(|fs|);
      BigEndian(|fs| % 0x1_0000, 2) + FlagBytes(if n > 0 then fs[..n] else [])
    case Bufs(bs) => LenCode(|bs|) + BufsCode(bs)
  }

  function ReadBuf(s: Bytes): (p: Parsed<Bytes>)
    ensures p.Got? ==> 1 <= p.used <= |s|
  {
    var n := ReadLen(s);
    if n.Bad? || |s| < n.used + n.value then Bad
    else Got(s[n.used..n.used + n.value], n.used + n.value)
  }

  function ReadBufs(s: Bytes, n: nat): (p: Parsed<seq<Bytes>>)
    ensures p.Got? ==> p.used <= |s| && |p.value| == n
    decreases n
  {
    if n == 0 then Got([], 0)
    else
      var b := ReadBuf(s);
      if b.Bad? then Bad else
      var rest := ReadBufs(s[b.used..], n - 1);
      if rest.Bad? then Bad else Got([b.value] + rest.value, b.used + rest.used)
  }

  function ReadStr(s: Bytes): (p: Parsed<Bytes>)
    ensures p.Got? ==> 2 <= p.used <= |s|
  {
    if |s| < 2 then Bad else
    var n := ToSigned(FromBigEndian(s[..2]), 2);
    if n < 0 || |s| < 2 + n then Bad else Got(s[2..2 + n], 2 + n)
  }

  /** A bit count and the bytes that hold that many bits. */
  function ReadPacked(s: Bytes): (p: Parsed<(nat, Bytes)>)
    ensures p.Got? ==> p.used <= |s| && |p.value.1| == (p.value.0 + 7) / 8
  {
    var n := ReadLen(s);
    if n.Bad? || |s| < n.used + (n.value + 7) / 8 then Bad
    else
      var used := n.used + (n.value + 7) / 8;
      Got((n.value, s[n.used..used]), used)
  }

  /** A packed vector is its length code and the bytes after it. */
  lemma ReadPackedParts(s: Bytes, n: nat, u: nat)
    requires ReadLen(s) == Got(n, u)
    ensures var rest, k := s[u..], (n + 7) / 8;
            ReadPacked(s) == if |rest| < k then Bad else Got((n, rest[..k]), u + k)
  {
    var k := (n + 7) / 8;
    if |s[u..]| >= k { assert s[u..][..k] == s[u..u + k]; }
  }

  /** So is a buffer. */
  lemma ReadBufParts(s: Bytes, n: nat, u: nat)
    requires ReadLen(s) == Got(n, u)
    ensures var rest := s[u..]; ReadBuf(s) == if |rest| < n then Bad else Got(rest[..n], u + n)
  {
    if |s[u..]| >= n { assert s[u..][..n] == s[u..u + n]; }
  }

  function ReadBits(s: Bytes): (p: Parsed<seq<bool>>)
    ensures p.Got? ==> p.used <= |s|
  {
    var p := ReadPacked(s);
    if p.Bad? then Bad else Got(Unpack(p.value.1, p.value.0), p.used)
  }

  function ReadFlags(s: Bytes): (p: Parsed<seq<bool>>)
    ensures p.Got? ==> p.used <= |s|
  {
    var b := ReadStr(s);
    if b.Bad? then Bad
    else Got(seq(|b.value|, k requires 0 <= k < |b.value| => b.value[k] != 0), b.used)
  }

  function ReadVector(s: Bytes): (p: Parsed<seq<Bytes>>)
    ensures p.Got? ==> p.used <= |s|
  {
    var n := ReadLen(s);
    if n.Bad? || n.value > MAX_CONTAINER_ELEMENTS || |s| < n.used + n.value then Bad
    else
      var bs := ReadBufs(s[n.used..], n.value);
      if bs.Bad? then Bad else Got(bs.value, n.used + bs.used)
  }

  function Wrap<T>(p: Parsed<T>, f: T -> Field): Parsed<Field>
  {
    match p
    case Bad => Bad
    case Got(v, n) => Got(f(v), n)
  }

  /** What reading into a field of f's type gives. */
  function Parse(f: Field, s: Bytes): (p: Parsed<Field>)
    ensures p.Got? ==> p.used <= |s|
  {
    match f
    case UInt(w, _) => Wrap(ReadUInt(s, w), u => UInt(w, u))
    case SInt(w, _) => Wrap(ReadUInt(s, w), u => SInt(w, ToSigned(u, w)))
    case Flag(_) => Wrap(ReadUInt(s, 1), u => Flag(u != 0))
    case Str(_) => Wrap(ReadStr(s), v => Str(v))
    case Buf(_) => Wrap(ReadBuf(s), v => Buf(v))
    case BitVec(_) => Wrap(ReadBits(s), v => BitVec(v))
    case Flags(_) => Wrap(ReadFlags(s), v => Flags(v))
    case Bufs(_) => Wrap(ReadVector(s), v => Bufs(v))
  }

  /** Fields that come back: a std::vector<bool> must fit the 16-bit count and a vector the
      element limit, which the write pass does not check. */
  predicate Readable(f: Field)
    requires Writable(f)
  {
    match f
    case Flags(fs) => |fs| <= SHRT_MAX
    case Bufs(bs) => |bs| <= MAX_CONTAINER_ELEMENTS
    case _ => true
  }

  // ---------------------------------------------------------------- one field round-trips

  lemma BufRoundTrip(b: Bytes, tail: Bytes)
    requires |b| <= MAX_CONVERT_LEN
    ensures ReadBuf(BufCode(b) + tail) == Got(b, |BufCode(b)|)
  {
    var c := LenCode(|b|);
    assert BufCode(b) + tail == c + (b + tail);
    LenRoundTrip(|b|, b + tail);
    assert (c + (b + tail))[|c|..|c| + |b|] == b;
  }

  lemma {:induction false} BufsRoundTrip(bs: seq<Bytes>, tail: Bytes)
    requires EachShort(bs)
    ensures ReadBufs(BufsCode(bs) + tail, |bs|) == Got(bs, |BufsCode(bs)|)
  {
    if bs != [] {
      var c, rest := BufCode(bs[0]), BufsCode(bs[1..]) + tail;
      assert BufsCode(bs) + tail == c + rest;
      BufsRoundTrip(bs[1..], tail);
      FirstBuf(bs[0], bs[1..], rest);
      assert [bs[0]] + bs[1..] == bs;
    }
  }

  lemma FirstBuf(b: Bytes, bs: seq<Bytes>, rest: Bytes)
    requires |b| <= MAX_CONVERT_LEN && ReadBufs(rest, |bs|).Got?
    ensures ReadBufs(BufCode(b) + rest, |bs| + 1) ==
            Got([b] + ReadBufs(rest, |bs|).value, |BufCode(b)| + ReadBufs(rest, |bs|).used)
  {
    var c := BufCode(b);
    BufRoundTrip(b, rest);
    assert (c + rest)[|c|..] == rest;
  }

  lemma IntRoundTrip(f: Field, tail: Bytes)
    requires (f.UInt? || f.SInt?) && Writable(f)
    ensures Parse(f, Code(f) + tail) == Got(f, |Code(f)|)
  {
    var c := Code(f);
    assert (c + tail)[..|c|] == c;
    BigEndianRoundTrip(if f.UInt? then f.u else ToUnsigned(f.i, f.width), f.width);
  }

  lemma ShortPrefix(n: nat, body: Bytes, tail: Bytes)
    requires n <= SHRT_MAX && n == |body|
    ensures var s := BigEndian(n, 2) + body + tail;
            ToSigned(FromBigEndian(s[..2]), 2) == n && s[2..2 + n] == body
  {
    var s := BigEndian(n, 2) + body + tail;
    assert Pow256(2) == 0x1_0000 by { FromBigEndian2([0, 0]); }
    BigEndianRoundTrip(n, 2);
    assert s[..2] == BigEndian(n, 2);
  }

  lemma StrRoundTrip(f: Field, tail: Bytes)
    requires f.Str? && Writable(f)
    ensures Parse(f, Code(f) + tail) == Got(f, |Code(f)|)
  {
    ShortPrefix(|f.chars|, f.chars, tail);
  }

  lemma FlagsRoundTrip(f: Field, tail: Bytes)
    requires f.Flags? && |f.flags| <= SHRT_MAX
    ensures Parse(f, Code(f) + tail) == Got(f, |Code(f)|)
  {
    var fs := f.flags;
    assert fs[..|fs|] == fs;
    ShortPrefix(|fs|, FlagBytes(fs), tail);
    var s := Code(f) + tail;
    assert Code(f) == BigEndian(|fs|, 2) + FlagBytes(fs);
    assert ReadStr(s) == Got(FlagBytes(fs), 2 + |fs|);
    var b := FlagBytes(fs);
    assert seq(|b|, k requires 0 <= k < |b| => b[k] != 0) == fs;
  }

  lemma BitVecRoundTrip(f: Field, tail: Bytes)
    requires f.BitVec? && Writable(f)
    ensures Parse(f, Code(f) + tail) == Got(f, |Code(f)|)
  {
    var c, p := LenCode(|f.bits|), Pack(f.bits);
    var s := c + (p + tail);
    assert Code(f) + tail == s && s[|c|..] == p + tail && (p + tail)[..|p|] == p;
    LenRoundTrip(|f.bits|, p + tail);
    ReadPackedParts(s, |f.bits|, |c|);
    PackRoundTrip(f.bits);
  }

  lemma VectorRoundTrip(f: Field, tail: Bytes)
    requires f.Bufs? && Writable(f) && Readable(f)
    ensures Parse(f, Code(f) + tail) == Got(f, |Code(f)|)
  {
    var c, p := LenCode(|f.bufs|), BufsCode(f.bufs);
    assert Code(f) + tail == c + (p + tail);
    LenRoundTrip(|f.bufs|, p + tail);
    assert (c + (p + tail))[|c|..] == p + tail;
    BufsRoundTrip(f.bufs, tail);
  }

  /** Reading what was written gives the same field and uses exactly its bytes, whatever follows. */
  lemma FieldRoundTrip(f: Field, tail: Bytes)
    requires Writable(f) && Readable(f)
    ensures Parse(f, Code(f) + tail) == Got(f, |Code(f)|)
  {
    match f
    case UInt(_, _) => IntRoundTrip(f, tail);
    case SInt(_, _) => IntRoundTrip(f, tail);
    case Flag(b) =>
      BigEndianRoundTrip(if b then 1 else 0, 1);
      FromBigEndian1(Code(f));
      assert (Code(f) + tail)[..1] == Code(f);
    case Str(_) => StrRoundTrip(f, tail);
    case Buf(b) => BufRoundTrip(b, tail);
    case BitVec(_) => BitVecRoundTrip(f, tail);
    case Flags(_) => FlagsRoundTrip(f, tail);
    case Bufs(_) => VectorRoundTrip(f, tail);
  }

  lemma LongFlagsLost(f: Field)
    requires f.Flags? && |f.flags| > SHRT_MAX
    ensures Parse(f, Code(f)) != Got(f, |Code(f)|)
  {
    var fs := f.flags;
    var head := BigEndian(|fs| % 0x1_0000, 2);
    assert Pow256(2) == 0x1_0000 by { FromBigEndian2([0, 0]); }
    BigEndianRoundTrip(|fs| % 0x1_0000, 2);
    assert Code(f)[..2] == head;
    var n := ShortCast(|fs|);
    assert ToSigned(FromBigEndian(Code(f)[..2]), 2) == n;
    assert n < |fs|;
  }

  lemma LongVectorRejected(f: Field)
    requires f.Bufs? && Writable(f) && |f.bufs| > MAX_CONTAINER_ELEMENTS
    ensures Parse(f, Code(f)) == Bad
  {
    LenRoundTrip(|f.bufs|, BufsCode(f.bufs));
  }

  /** Exactly which fields come back. The write pass takes longer vectors without complaint: a
      std::vector<bool> past SHRT_MAX is cut short or made unreadable by its 16-bit count, and a
      vector past the element limit is refused by every reader. */
  lemma FieldRoundTripExactly(f: Field)
    requires Writable(f)
    ensures Parse(f, Code(f)) == Got(f, |Code(f)|) <==> Readable(f)
  {
    if Readable(f) {
      FieldRoundTrip(f, []);
      assert Code(f) + [] == Code(f);
    } else if f.Flags? {
      LongFlagsLost(f);
    } else {
      LongVectorRejected(f);
    }
  }

  // ---------------------------------------------------------------- messages

  predicate AllWritable(fs: seq<Field>) { forall k :: 0 <= k < |fs| ==> Writable(fs[k]) }

  predicate AllReadable(fs: seq<Field>)
    requires AllWritable(fs)
  {
    forall k :: 0 <= k < |fs| ==> Readable(fs[k])
  }

  function CodeAll(fs: seq<Field>): Bytes
    requires AllWritable(fs)
  {
    if fs == [] then [] else Code(fs[0]) + CodeAll(fs[1..])
  }

  /** Fields are read left to right and the first bad one ends the message. */
  function ParseAll(fs: seq<Field>, s: Bytes): (p: Parsed<seq<Field>>)
    ensures p.Got? ==> p.used <= |s| && |p.value| == |fs|
  {
    if fs == [] then Got([], 0)
    else
      var f := Parse(fs[0], s);
      if f.Bad? then Bad else
      var rest := ParseAll(fs[1..], s[f.used..]);
      if rest.Bad? then Bad else Got([f.value] + rest.value, f.used + rest.used)
  }

  /** The template a field is read into carries no information but its type. */
  predicate SameType(f: Field, g: Field)
  {
    match f
    case UInt(w, _) => g.UInt? && g.width == w
    case SInt(w, _) => g.SInt? && g.width == w
    case Flag(_) => g.Flag?
    case Str(_) => g.Str?
    case Buf(_) => g.Buf?
    case BitVec(_) => g.BitVec?
    case Flags(_) => g.Flags?
    case Bufs(_) => g.Bufs?
  }

  /** A whole message comes back through readers of the same types, and nothing is left over. */
  lemma {:induction false} MessageRoundTrip(fs: seq<Field>, templates: seq<Field>, tail: Bytes)
    requires AllWritable(fs) && AllReadable(fs)
    requires |templates| == |fs| && forall k :: 0 <= k < |fs| ==> SameType(fs[k], templates[k])
    ensures ParseAll(templates, CodeAll(fs) + tail) == Got(fs, |CodeAll(fs)|)
  {
    if fs != [] {
      var c, rest := Code(fs[0]), CodeAll(fs[1..]) + tail;
      var s := c + rest;
      assert CodeAll(fs) + tail == s && s[|c|..] == rest;
      FieldRoundTrip(fs[0], rest);
      assert Parse(templates[0], s) == Parse(fs[0], s) == Got(fs[0], |c|);
      MessageRoundTrip(fs[1..], templates[1..], tail);
      assert [fs[0]] + fs[1..] == fs;
    }
  }

  // ---------------------------------------------------------------- ser and deser

  datatype Deserialized<T> = Accepted(value: T) | Malformed | Trailing

  /** Strict deserialization: bytes left over are an error. */
  function Deserialize(templates: seq<Field>, s: Bytes): (d: Deserialized<seq<Field>>)
    ensures d.Accepted? ==> |d.value| == |templates|
  {
    match ParseAll(templates, s)
    case Bad => Malformed
    case Got(fs, n) => if n == |s| then Accepted(fs) else Trailing
  }

  lemma {:induction false} SerializeRoundTrip(fs: seq<Field>, templates: seq<Field>)
    requires AllWritable(fs) && AllReadable(fs)
    requires |templates| == |fs| && forall k :: 0 <= k < |fs| ==> SameType(fs[k], templates[k])
    ensures Deserialize(templates, CodeAll(fs)) == Accepted(fs)
  {
    MessageRoundTrip(fs, templates, []);
    assert CodeAll(fs) + [] == CodeAll(fs);
  }

  /** A bundle is a serialized std::vector<buf_t>. */
  function Bundle(msgs: seq<Bytes>): Bytes
    requires Writable(Bufs(msgs))
  {
    CodeAll([Bufs(msgs)])
  }

  function Unbundle(s: Bytes): Deserialized<seq<Bytes>>
  {
    match Deserialize([Bufs([])], s)
    case Accepted(fs) => if fs[0].Bufs? then Accepted(fs[0].bufs) else Malformed
    case Malformed => Malformed
    case Trailing => Trailing
  }

  lemma BundleRoundTrip(msgs: seq<Bytes>)
    requires Writable(Bufs(msgs)) && |msgs| <= MAX_CONTAINER_ELEMENTS
    ensures Unbundle(Bundle(msgs)) == Accepted(msgs)
  {
    SerializeRoundTrip([Bufs(msgs)], [Bufs([])]);
  }
}
