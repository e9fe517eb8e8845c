/** The converter object: one traversal of the fields serves three modes.

    A converter made by `Sizer` only counts bytes, one made by `Writer` stores them through an
    unchecked pointer, and one made by `Reader` takes them from a bounded source. Every method
    says what it does in all three modes; the pure meaning of the bytes is in module Wire.
 */
module Converter {
  import opened CInt
  import opened Bits
  import opened Wire
  import opened WireFormat
  import opened Sequences
  import Errors

  /** s with the bytes from `at` on replaced by e. */
  lemma SpliceNext(s: Bytes, at: nat, b: Bytes, k: nat, before: Bytes, after: Bytes)
    requires k < |b| && at + |b| <= |s| && before == Splice(s, at, b[..k]) && after == before[at + k := b[k]]
    ensures after == Splice(s, at, b[..k + 1])
  {
    assert b[..k + 1] == b[..k] + [b[k]];
  }

  // ---------------------------------------------------------------- masks used by the length code

  lemma {:induction false} AndSingleBit(x: nat, k: nat)
    ensures And(x, Pow2(k)) == 0 <==> x / Pow2(k) % 2 == 0
    decreases k
  {
    if k == 0 {
      if x != 0 { assert And(x / 2, 0) == 0; }
    } else {
      assert Pow2(k) / 2 == Pow2(k - 1) && Pow2(k) % 2 == 0;
      AndSingleBit(x / 2, k - 1);
      ShrLowAreDivMod(x, k);
      ShrLowAreDivMod(x / 2, k - 1);
    }
  }

  lemma TestHighBits(b: byte)
    ensures And(b, 0x80) == 0 <==> b < 0x80
    ensures And(b, 0x40) == 0 <==> b / 0x40 % 2 == 0
    ensures And(b, 0x20) == 0 <==> b / 0x20 % 2 == 0
  {
    BytePowers();
    TestBit(b, 7, 0x80);
    TestBit(b, 6, 0x40);
    TestBit(b, 5, 0x20);
  }

  lemma BytePowers()
    ensures Pow2(7) == 0x80 && Pow2(6) == 0x40 && Pow2(5) == 0x20
  {
  }

  lemma TestBit(b: nat, k: nat, p: nat)
    requires p == Pow2(k)
    ensures And(b, p) == 0 <==> b / p % 2 == 0
  {
    AndSingleBit(b, k);
  }

  lemma KeepLowBits(b: byte)
    ensures And(b, 0x3f) == b % 0x40 && And(b, 0x1f) == b % 0x20
  {
    assert Pow2(6) == 0x40 && Pow2(5) == 0x20;
    AndMask(b, 6);
    AndMask(b, 5);
    ShrLowAreDivMod(b, 6);
    ShrLowAreDivMod(b, 5);
  }

  lemma MiddleCode(len: nat, b0: byte)
    requires 0x3fff < len <= 0x1f_ffff && b0 == 0xc0 + len / 0x1_0000
    ensures LenCode(len) == [b0] + ([len / 0x100 % 0x100] + [len % 0x100])
  {
  }

  lemma LongCode(len: nat, b0: byte)
    requires 0x1f_ffff < len <= MAX_CONVERT_LEN && b0 == 0xe0 + len / 0x100_0000
    ensures LenCode(len) == [b0] + ([len / 0x1_0000 % 0x100] + [len / 0x100 % 0x100] + [len % 0x100])
  {
  }

  /** The three masked tests of convert_len find the head of the length code. */
  lemma MasksGiveHead(b: byte)
    ensures And(b, 0x80) == 0 <==> b < 0x80
    ensures b >= 0x80 ==>
              LenHead(b) == if And(b, 0x40) == 0 then (And(b, 0x3f), 1)
                            else (And(b, 0x1f), if And(b, 0x20) == 0 then 2 else 3)
  {
    TestHighBits(b);
    KeepLowBits(b);
    HeadFromBits(b, And(b, 0x40), And(b, 0x20));
  }

  lemma HeadFromBits(b: byte, b6: nat, b5: nat)
    requires (b6 == 0 <==> b / 0x40 % 2 == 0) && (b5 == 0 <==> b / 0x20 % 2 == 0)
    ensures b >= 0x80 ==>
              LenHead(b) == if b6 == 0 then (b % 0x40, 1) else (b % 0x20, if b5 == 0 then 2 else 3)
  {
  }

  lemma OrHead(x: nat)
    ensures x < 0x80 ==> Or(x, 0x80) == x + 0x80
    ensures x < 0x40 ==> Or(x, 0xc0) == x + 0xc0
    ensures x < 0x20 ==> Or(x, 0xe0) == x + 0xe0
  {
    assert Pow2(7) == 0x80 && Pow2(6) == 0x40 && Pow2(5) == 0x20;
    assert Shl(1, 7) == 0x80 && Shl(3, 6) == 0xc0 && Shl(7, 5) == 0xe0;
    if x < 0x80 { OrDisjoint(x, 1, 7); }
    if x < 0x40 { OrDisjoint(x, 3, 6); }
    if x < 0x20 { OrDisjoint(x, 7, 5); }
  }

  lemma {:induction false} OrCommutes(x: nat, y: nat)
    ensures Or(x, y) == Or(y, x)
    decreases x + y
  {
    if x != 0 || y != 0 { OrCommutes(x / 2, y / 2); }
  }

  /** len is the head and the first k bytes of a length code put together. */
  predicate IsTail(all: Bytes, head: nat, k: nat, len: nat)
  {
    k <= |all| && len == head * Pow256(k) + FromBigEndian(all[..k])
  }

  lemma TailNext(all: Bytes, head: nat, k: nat, len: nat, b: byte)
    requires k < |all| && b == all[k] && IsTail(all, head, k, len)
    ensures IsTail(all, head, k + 1, Or(len * 0x100, b))
  {
    OrByte(len, b);
    assert all[..k + 1][..k] == all[..k];
    assert head * Pow256(k + 1) == head * Pow256(k) * 0x100;
  }

  lemma OrByte(len: nat, b: byte)
    ensures Or(len * 0x100, b) == len * 0x100 + b
  {
    assert Pow2(8) == 0x100;
    ShlIsMul(len, 8);
    OrDisjoint(b, len, 8);
    OrCommutes(len * 0x100, b);
  }

  lemma Associate(x: Bytes, y: Bytes, z: Bytes)
    ensures x + (y + z) == (x + y) + z
  {
  }

  lemma {:induction false} BufsCodeConcat(a: seq<Bytes>, b: seq<Bytes>, c: seq<Bytes>)
    requires EachShort(a) && EachShort(b) && EachShort(c) && c == a + b
    ensures BufsCode(c) == BufsCode(a) + BufsCode(b)
  {
    if a == [] {
      assert c == b;
    } else {
      BufsCodeConcat(a[1..], b, c[1..]);
      Associate(BufCode(a[0]), BufsCode(a[1..]), BufsCode(b));
    }
  }

  lemma BufsCodeSnoc(bs: seq<Bytes>, k: nat)
    requires k < |bs| && EachShort(bs)
    ensures BufsCode(bs[..k + 1]) == BufsCode(bs[..k]) + BufCode(bs[k])
  {
    BufsCodeConcat(bs[..k], [bs[k]], bs[..k + 1]);
    assert BufsCode([bs[k]]) == BufCode(bs[k]) + BufsCode([]);
  }

  lemma BufsCodePrefix(bs: seq<Bytes>, k: nat)
    requires k <= |bs| && EachShort(bs)
    ensures |BufsCode(bs[..k])| <= |BufsCode(bs)|
  {
    BufsCodeConcat(bs[..k], bs[k..], bs);
  }

  lemma ElementFits(head: Bytes, bs: seq<Bytes>, k: nat)
    requires k < |bs| && EachShort(bs)
    ensures head + BufsCode(bs[..k + 1]) == head + BufsCode(bs[..k]) + BufCode(bs[k])
    ensures |head + BufsCode(bs[..k]) + BufCode(bs[k])| <= |head + BufsCode(bs)|
  {
    BufsCodeSnoc(bs, k);
    BufsCodePrefix(bs, k + 1);
    Associate(head, BufsCode(bs[..k]), BufCode(bs[k]));
  }

  /** Some values before the rest of a message. */
  function Prepend<T>(xs: seq<T>, used: nat, rest: Parsed<seq<T>>): Parsed<seq<T>>
  {
    if rest.Bad? then Bad else Got(xs + rest.value, used + rest.used)
  }

  lemma PrependTwice<T>(xs: seq<T>, used: nat, x: T, n: nat, rest: Parsed<seq<T>>)
    ensures Prepend(xs, used, Prepend([x], n, rest)) == Prepend(xs + [x], used + n, rest)
  {
    if rest.Got? { assert xs + ([x] + rest.value) == (xs + [x]) + rest.value; }
  }

  /** The elements bs have been taken from all, and `here` is left. */
  ghost predicate Taken(all: Bytes, count: nat, bs: seq<Bytes>, used: nat, here: Bytes)
    requires |bs| <= count
  {
    ReadBufs(all, count) == Prepend(bs, used, ReadBufs(here, count - |bs|))
  }

  lemma NothingTaken(all: Bytes, count: nat)
    ensures Taken(all, count, [], 0, all)
  {
    var whole := ReadBufs(all, count);
    assert whole.Got? ==> [] + whole.value == whole.value;
  }

  lemma TakeOne(all: Bytes, count: nat, bs: seq<Bytes>, used: nat, here: Bytes)
    requires |bs| < count && Taken(all, count, bs, used, here)
    ensures ReadBuf(here).Bad? ==> ReadBufs(all, count) == Bad
    ensures ReadBuf(here).Got? ==>
              Taken(all, count, bs + [ReadBuf(here).value], used + ReadBuf(here).used, here[ReadBuf(here).used..])
  {
    var b := ReadBuf(here);
    ReadNext(here, count - |bs|);
    if b.Got? { PrependTwice(bs, used, b.value, b.used, ReadBufs(here[b.used..], count - |bs| - 1)); }
  }

  lemma ReadNext(here: Bytes, n: nat)
    requires n > 0
    ensures var b := ReadBuf(here);
            ReadBufs(here, n) == if b.Bad? then Bad else Prepend([b.value], b.used, ReadBufs(here[b.used..], n - 1))
  {
  }

  /** A value of the field's C++ type, within the write limits or not. */
  predicate Typed(f: Field)
  {
    match f
    case UInt(w, u) => WidthOk(w) && u < Pow256(w)
    case SInt(w, i) => WidthOk(w) && 0 <= 2 * i + Pow256(w) && 2 * i < Pow256(w)
    case _ => true
  }

  // ---------------------------------------------------------------- the object

  class Cursor {
    const write: bool
    const hasPointer: bool
    const mem: array<byte>
    var offset: int
    var err: int

    ghost predicate Valid()
      reads this
    {
      && 0 <= offset <= INT_MAX
      && (!write || hasPointer ==> offset <= mem.Length)
      && (!write ==> mem.Length <= INT_MAX)
    }

    /** What the write pass leaves to its caller: the bytes fit the pointer and the int offset. */
    ghost predicate Room(n: nat)
      reads this
    {
      write ==> offset + n <= INT_MAX && (hasPointer ==> offset + n <= mem.Length)
    }

    /** The bytes a reader has not used yet. */
    ghost function Rest(): Bytes
      requires Valid() && !write
      reads this, mem
    {
      mem[offset..]
    }

    /** The effect of writing e. */
    twostate predicate Wrote(e: Bytes)
      requires old(Valid()) && old(Room(|e|)) && write
      reads this, mem
    {
      && offset == old(offset) + |e| && err == old(err)
      && mem[..] == if hasPointer then Splice(old(mem[..]), old(offset), e) else old(mem[..])
    }

    /** Reading never changes the source, never goes back, and an earlier error is kept. */
    twostate predicate Quiet()
      reads this, mem
    {
      && mem[..] == old(mem[..]) && old(offset) <= offset
      && (old(err) != Errors.SUCCESS ==> err == old(err) && offset == old(offset))
    }

    /** The effect of reading a field of f's type into g. */
    twostate predicate DidRead(f: Field, g: Field)
      requires old(Valid()) && !write
      reads this, mem
    {
      && Quiet()
      && (old(err) == Errors.SUCCESS ==>
            match Parse(f, old(Rest()))
            case Got(v, n) => err == Errors.SUCCESS && g == v && offset == old(offset) + n
            case Bad => err == Errors.E_FORMAT)
    }

    /** The value read is the one that the bytes used denote; an error is one because no bytes denote any. */
    twostate predicate Understood(f: Field, g: Field)
      requires old(Valid()) && Valid() && !write
      reads this, mem
    {
      old(err) == Errors.SUCCESS ==>
        if err == Errors.SUCCESS
        then var n := offset - old(offset);
             n >= 0 && SameType(f, g) && PrefixDenotes(g, old(Rest()), n)
        else err == Errors.E_FORMAT && NoneDenoted(f, old(Rest()))
    }

    constructor Sizer()
      ensures write && !hasPointer && fresh(mem) && offset == 0 && err == Errors.SUCCESS && Valid()
    {
      write, hasPointer, offset, err := true, false, 0, Errors.SUCCESS;
      mem := new byte[0];
    }

    constructor Writer(out: array<byte>)
      ensures write && hasPointer && mem == out && offset == 0 && err == Errors.SUCCESS && Valid()
    {
      write, hasPointer, mem, offset, err := true, true, out, 0, Errors.SUCCESS;
    }

    constructor Reader(src: array<byte>)
      requires src.Length <= INT_MAX
      ensures !write && hasPointer && mem == src && offset == 0 && err == Errors.SUCCESS && Valid()
    {
      write, hasPointer, mem, offset, err := false, true, src, 0, Errors.SUCCESS;
    }

    method SetError()
      modifies this`err
      ensures err == if old(err) != Errors.SUCCESS then old(err) else Errors.E_FORMAT
    {
      if err != Errors.SUCCESS { return; }
      err := Errors.E_FORMAT;
    }

    predicate AtLeast(n: int)
      reads this
    {
      n >= 0 && 0 <= offset <= mem.Length && n <= mem.Length - offset
    }

    /** memmove of b to the current position, skipped when only sizing, and the advance. */
    method Put(b: Bytes)
      requires Valid() && write && Room(|b|)
      modifies this`offset, mem
      ensures Valid() && Wrote(b)
    {
      if hasPointer {
        var k := 0;
        while k < |b|
          invariant 0 <= k <= |b| && offset == old(offset)
          invariant mem[..] == Splice(old(mem[..]), offset, b[..k])
        {
          ghost var before := mem[..];
          mem[offset + k] := b[k];
          SpliceNext(old(mem[..]), offset, b, k, before, mem[..]);
          k := k + 1;
        }
        assert b[..|b|] == b;
      }
      offset := offset + |b|;
    }

    /** The next n bytes. */
    method Take(n: nat) returns (b: Bytes)
      requires Valid() && !write && AtLeast(n)
      modifies this`offset
      ensures Valid() && offset == old(offset) + n && b == old(Rest())[..n]
    {
      b := mem[offset..offset + n];
      offset := offset + n;
    }

    /** convert(uint8_t&) to convert(uint64_t&): w bytes, most significant first. */
    method ConvertUInt(v: nat, w: nat) returns (v': nat)
      requires Valid() && WidthOk(w) && v < Pow256(w) && Room(w)
      modifies this, mem
      ensures Valid() && v' < Pow256(w)
      ensures write ==> Wrote(BigEndian(v, w)) && IsUInt(BigEndian(v, w), v) && v' == v
      ensures !write ==> Quiet()
      ensures !write && old(err) != Errors.SUCCESS ==> v' == v
      ensures !write && old(err) == Errors.SUCCESS ==>
                match ReadUInt(old(Rest()), w)
                case Got(u, n) => err == Errors.SUCCESS && v' == u && offset == old(offset) + n
                case Bad => err == Errors.E_FORMAT && v' == v && offset == old(offset)
    {
      if write {
        Put(BigEndian(v, w));
        UIntIs(BigEndian(v, w), v);
        v' := v;
      } else {
        if err != Errors.SUCCESS || !AtLeast(w) {
          SetError();
          return v;
        }
        var b := Take(w);
        v' := FromBigEndian(b);
      }
    }

    /** Two writes in a row are one write of the concatenation. */
    method PutBoth(b1: Bytes, b2: Bytes)
      requires Valid() && write && Room(|b1| + |b2|)
      modifies this`offset, mem
      ensures Valid() && Wrote(b1 + b2)
    {
      Put(b1);
      Put(b2);
      if hasPointer { SpliceTwice(old(mem[..]), old(offset), b1, b2); }
    }

    /** A length code and the bytes after it. */
    method WriteCoded(len: nat, b: Bytes)
      requires Valid() && write && len <= MAX_CONVERT_LEN && Room(|LenCode(len)| + |b|)
      modifies this`offset, mem
      ensures Valid() && Wrote(LenCode(len) + b)
    {
      WriteLen(len);
      Put(b);
      if hasPointer { SpliceTwice(old(mem[..]), old(offset), LenCode(len), b); }
    }

    /** The write half of convert_len. */
    method WriteLen(len: nat)
      requires Valid() && write && len <= MAX_CONVERT_LEN && Room(|LenCode(len)|)
      modifies this`offset, mem
      ensures Valid() && Wrote(LenCode(len))
    {
      if len <= 0x7f {
        Put([len]);
      } else if len <= 0x3fff {
        WriteLen2(len);
      } else if len <= 0x1f_ffff {
        WriteLen3(len);
      } else {
        WriteLen4(len);
      }
    }

    method WriteLen2(len: nat)
      requires Valid() && write && 0x7f < len <= 0x3fff && Room(2)
      modifies this`offset, mem
      ensures Valid() && Wrote(LenCode(len))
    {
      OrHead(len / 0x100);
      var b0, b1 := Or(len / 0x100, 0x80), len % 0x100;
      assert LenCode(len) == [b0] + [b1];
      PutBoth([b0], [b1]);
    }

    method WriteLen3(len: nat)
      requires Valid() && write && 0x3fff < len <= 0x1f_ffff && Room(3)
      modifies this`offset, mem
      ensures Valid() && Wrote(LenCode(len))
    {
      OrHead(len / 0x1_0000);
      var b0, b1, b2 := Or(len / 0x1_0000, 0xc0), len / 0x100 % 0x100, len % 0x100;
      MiddleCode(len, b0);
      PutBoth([b0], [b1] + [b2]);
    }

    method WriteLen4(len: nat)
      requires Valid() && write && 0x1f_ffff < len <= MAX_CONVERT_LEN && Room(4)
      modifies this`offset, mem
      ensures Valid() && Wrote(LenCode(len))
    {
      OrHead(len / 0x100_0000);
      var b0, b1, b2, b3 := Or(len / 0x100_0000, 0xe0), len / 0x1_0000 % 0x100, len / 0x100 % 0x100, len % 0x100;
      var tail := [b1] + [b2] + [b3];
      LongCode(len, b0);
      PutBoth([b0], tail);
    }

    /** convert(uint8_t&) in read mode. */
    method ReadByte(v: byte) returns (v': byte)
      requires Valid() && !write
      modifies this
      ensures Valid() && Quiet()
      ensures old(err) == Errors.SUCCESS && |old(Rest())| > 0 ==>
                err == Errors.SUCCESS && v' == old(Rest())[0] && offset == old(offset) + 1
      ensures old(err) == Errors.SUCCESS && |old(Rest())| == 0 ==> err == Errors.E_FORMAT
    {
      if err != Errors.SUCCESS || !AtLeast(1) {
        SetError();
        return v;
      }
      v' := mem[offset];
      offset := offset + 1;
    }

    /** The rest of a length code: n more bytes below the bits already known. */
    method ReadLenTail(head: nat, n: nat) returns (len: nat)
      requires Valid() && !write && err == Errors.SUCCESS && n <= 3
      modifies this
      ensures Valid() && Quiet()
      ensures |old(Rest())| < n ==> err == Errors.E_FORMAT && len == 0
      ensures |old(Rest())| >= n ==>
                match LenValue(head, old(Rest())[..n])
                case Got(v, _) => err == Errors.SUCCESS && len == v && offset == old(offset) + n
                case Bad => err == Errors.E_FORMAT && len == 0
    {
      ghost var all := Rest();
      len := ReadTailBytes(head, n);
      if |all| >= n { assert all[..n] == all[..n][..n]; }
      if err != Errors.SUCCESS {
        len := 0;
      } else if len > MAX_CONVERT_LEN {
        SetError();
        len := 0;
      }
    }

    method ReadTailBytes(head: nat, n: nat) returns (len: nat)
      requires Valid() && !write && err == Errors.SUCCESS
      modifies this
      ensures Valid() && Quiet()
      ensures |old(Rest())| < n ==> err == Errors.E_FORMAT
      ensures |old(Rest())| >= n ==>
                err == Errors.SUCCESS && offset == old(offset) + n && IsTail(old(Rest()), head, n, len)
    {
      len := head;
      var k := 0;
      ghost var all := Rest();
      while k < n
        invariant 0 <= k <= n && Valid() && mem[..] == old(mem[..]) && old(offset) <= offset
        invariant k > |all| ==> err == Errors.E_FORMAT
        invariant k <= |all| ==> err == Errors.SUCCESS && offset == old(offset) + k && IsTail(all, head, k, len)
      {
        var b := ReadByte(0);
        if k < |all| { TailNext(all, head, k, len, b); }
        len := Or(len * 0x100, b);
        k := k + 1;
      }
    }

    /** The read half of convert_len. */
    method ReadLenCode() returns (len: nat)
      requires Valid() && !write
      modifies this
      ensures Valid() && Quiet() && len <= MAX_CONVERT_LEN
      ensures old(err) != Errors.SUCCESS ==> len == 0
      ensures old(err) == Errors.SUCCESS ==>
                match ReadLen(old(Rest()))
                case Got(v, n) => err == Errors.SUCCESS && len == v && offset == old(offset) + n
                case Bad => err == Errors.E_FORMAT && len == 0
    {
      ghost var all := Rest();
      var b := ReadByte(0);
      if err != Errors.SUCCESS {
        return 0;
      }
      MasksGiveHead(b);
      ReadLenByHead(all);
      assert Rest() == all[1..];
      if And(b, 0x80) == 0 {
        assert all[1..][..0] == [];
        return b;
      }
      var head, n := And(b, 0x1f), 3;
      if And(b, 0x40) == 0 {
        head, n := And(b, 0x3f), 1;
      } else if And(b, 0x20) == 0 {
        head, n := And(b, 0x1f), 2;
      }
      len := ReadLenTail(head, n);
    }

    /** buf_t::convert. */
    method ConvertBuf(b: Bytes) returns (b': Bytes)
      requires Valid() && (write ==> |b| <= MAX_CONVERT_LEN && Room(|BufCode(b)|))
      modifies this, mem
      ensures Valid()
      ensures write ==> Wrote(BufCode(b)) && b' == b
      ensures !write ==> Quiet()
      ensures !write && old(err) == Errors.SUCCESS ==>
                match ReadBuf(old(Rest()))
                case Got(v, n) => err == Errors.SUCCESS && b' == v && offset == old(offset) + n
                case Bad => err == Errors.E_FORMAT
    {
      if write {
        WriteCoded(|b|, b);
        b' := b;
      } else {
        b' := TakeBuf(b);
      }
    }

    /** The read half of buf_t::convert: the buffer b stays as it is on an error. */
    method TakeBuf(b: Bytes) returns (b': Bytes)
      requires Valid() && !write
      modifies this
      ensures Valid() && Quiet()
      ensures old(err) == Errors.SUCCESS ==>
                match ReadBuf(old(Rest()))
                case Got(v, n) => err == Errors.SUCCESS && b' == v && offset == old(offset) + n
                case Bad => err == Errors.E_FORMAT
    {
      ghost var all := Rest();
      var n := ReadLenCode();
      ghost var u := offset - old(offset);
      assert Rest() == all[u..];
      if err == Errors.SUCCESS { ReadBufParts(all, n, u); }
      if err != Errors.SUCCESS || !AtLeast(n) {
        SetError();
        return b;
      }
      b' := Take(n);
    }

    /** The read half of bits_t::convert: no error check before the bounds check, which is
        harmless because a failed length code reads as 0. */
    method TakePacked() returns (n: nat, b: Bytes)
      requires Valid() && !write
      modifies this
      ensures Valid() && Quiet() && |b| == (n + 7) / 8
      ensures old(err) == Errors.SUCCESS ==>
                match ReadPacked(old(Rest()))
                case Got(v, used) => err == Errors.SUCCESS && (n, b) == v && offset == old(offset) + used
                case Bad => err == Errors.E_FORMAT
    {
      ghost var all := Rest();
      n := ReadLenCode();
      var k := (n + 7) / 8;
      ghost var u := offset - old(offset);
      assert Rest() == all[u..];
      if err == Errors.SUCCESS { ReadPackedParts(all, n, u); }
      if !AtLeast(k) {
        SetError();
        return 0, [];
      }
      b := Take(k);
    }

    /** bits_t::convert, with the bits packed as `to_bin` leaves them. */
    method ConvertBits(bits: seq<bool>) returns (bits': seq<bool>)
      requires Valid() && (write ==> |bits| <= MAX_CONVERT_LEN && Room(|LenCode(|bits|)| + |Pack(bits)|))
      modifies this, mem
      ensures Valid()
      ensures write ==> Wrote(LenCode(|bits|) + Pack(bits)) && bits' == bits
      ensures !write ==> Quiet()
      ensures !write && old(err) == Errors.SUCCESS ==>
                match ReadBits(old(Rest()))
                case Got(v, n) => err == Errors.SUCCESS && bits' == v && offset == old(offset) + n
                case Bad => err == Errors.E_FORMAT
    {
      if write {
        WriteCoded(|bits|, Pack(bits));
        bits' := bits;
      } else {
        var n, b := TakePacked();
        bits' := Unpack(b, n);
      }
    }

    /** convert(std::string&). */
    method ConvertStr(s: Bytes) returns (s': Bytes)
      requires Valid() && (write ==> |s| <= SHRT_MAX && Room(2 + |s|))
      modifies this, mem
      ensures Valid()
      ensures write ==> Wrote(BigEndian(|s|, 2) + s) && s' == s
      ensures !write ==> Quiet()
      ensures !write && old(err) == Errors.SUCCESS ==>
                match ReadStr(old(Rest()))
                case Got(v, n) => err == Errors.SUCCESS && s' == v && offset == old(offset) + n
                case Bad => err == Errors.E_FORMAT
    {
      s' := s;
      if write {
        PutBoth(BigEndian(|s|, 2), s);
      } else {
        ghost var all := Rest();
        assert Pow256(2) == 0x1_0000 by { FromBigEndian2([0, 0]); }
        var u := ConvertUInt(|s| % 0x1_0000, 2);
        var n := ToSigned(u, 2);
        if n < 0 {
          SetError();
          return;
        }
        if err != Errors.SUCCESS || !AtLeast(n) {
          SetError();
          return;
        }
        assert Rest() == all[2..];
        s' := Take(n);
        assert s' == all[2..2 + n];
      }
    }

    /** From offset `at` on, the bytes e have been written over `before`, or only counted. */
    ghost predicate Emitted(before: Bytes, at: nat, e: Bytes)
      reads this, mem
    {
      && Valid() && write && offset == at + |e|
      && if hasPointer then at + |e| <= |before| && mem[..] == Splice(before, at, e) else mem[..] == before
    }

    /** The write half of convert(std::vector<bool>&): the count is cut to a short and only that
        many entries follow. */
    method WriteFlags(fs: seq<bool>)
      requires Valid() && write && Room(|Code(Flags(fs))|)
      modifies this, mem
      ensures Valid() && Wrote(Code(Flags(fs)))
    {
      var n := ShortCast(|fs|);
      var count := if n > 0 then n else 0;
      var head := BigEndian(|fs| % 0x1_0000, 2);
      assert Code(Flags(fs)) == head + FlagBytes(fs[..count]) by { assert n <= 0 ==> fs[..0] == []; }
      ghost var before, at := mem[..], offset;
      Put(head);
      PutFlags(fs[..count], before, at, head);
    }

    method PutFlags(fs: seq<bool>, ghost before: Bytes, ghost at: nat, ghost head: Bytes)
      requires Emitted(before, at, head) && Room(|fs|)
      modifies this`offset, mem
      ensures Emitted(before, at, head + FlagBytes(fs))
    {
      ghost var body := FlagBytes(fs);
      assert head + body[..0] == head;
      for k := 0 to |fs|
        invariant Emitted(before, at, head + body[..k]) && Room(|fs| - k)
      {
        assert head + body[..k] + [body[k]] == head + body[..k + 1];
        PutNext([if fs[k] then 1 else 0], before, at, head + body[..k]);
      }
      assert body[..|fs|] == body;
    }

    method PutNext(b: Bytes, ghost before: Bytes, ghost at: nat, ghost done: Bytes)
      requires Emitted(before, at, done) && Room(|b|)
      modifies this`offset, mem
      ensures Emitted(before, at, done + b)
    {
      Put(b);
      if hasPointer { SpliceTwice(before, at, done, b); }
    }

    /** The read half of convert(std::vector<bool>&). */
    method TakeFlags() returns (fs: seq<bool>)
      requires Valid() && !write
      modifies this, mem
      ensures Valid() && Quiet()
      ensures old(err) == Errors.SUCCESS ==>
                match ReadFlags(old(Rest()))
                case Got(v, n) => err == Errors.SUCCESS && fs == v && offset == old(offset) + n
                case Bad => err == Errors.E_FORMAT
    {
      ghost var all := Rest();
      fs := [];
      assert Pow256(2) == 0x1_0000 by { FromBigEndian2([0, 0]); }
      var u := ConvertUInt(0, 2);
      var n := ToSigned(u, 2);
      if n < 0 {
        SetError();
        return;
      }
      if err != Errors.SUCCESS { return; }
      while |fs| < n && err == Errors.SUCCESS
        invariant |fs| <= n && Valid() && mem[..] == old(mem[..]) && old(offset) <= offset
        invariant err == Errors.SUCCESS ==> offset == old(offset) + 2 + |fs| && |fs| + 2 <= |all|
        invariant err == Errors.SUCCESS ==> forall k :: 0 <= k < |fs| ==> fs[k] == (all[2 + k] != 0)
        invariant err != Errors.SUCCESS ==> err == Errors.E_FORMAT && |all| < 2 + n
        decreases n - |fs|, err == Errors.SUCCESS
      {
        assert Rest() == all[2 + |fs|..];
        var b := ReadByte(0);
        if err == Errors.SUCCESS { fs := fs + [b != 0]; }
      }
      if err == Errors.SUCCESS {
        assert fs == ReadFlags(all).value;
      }
    }

    /** One more element of a vector. */
    method WriteElement(b: Bytes, ghost m0: Bytes, ghost o0: nat, ghost done: Bytes)
      requires |b| <= MAX_CONVERT_LEN && Emitted(m0, o0, done) && Room(|BufCode(b)|)
      modifies this, mem
      ensures Emitted(m0, o0, done + BufCode(b)) && err == old(err)
    {
      var _ := ConvertBuf(b);
      if hasPointer { SpliceTwice(m0, o0, done, BufCode(b)); }
    }

    method WriteElements(bs: seq<Bytes>, ghost m0: Bytes, ghost o0: nat, ghost head: Bytes)
      requires Writable(Bufs(bs)) && Emitted(m0, o0, head) && Room(|BufsCode(bs)|)
      modifies this, mem
      ensures Emitted(m0, o0, head + BufsCode(bs)) && err == old(err)
    {
      ghost var done := head + BufsCode(bs[..0]);
      assert done == head;
      for k := 0 to |bs|
        invariant done == head + BufsCode(bs[..k]) && |done| <= |head + BufsCode(bs)|
        invariant Emitted(m0, o0, done) && err == old(err)
      {
        ElementFits(head, bs, k);
        WriteElement(bs[k], m0, o0, done);
        done := done + BufCode(bs[k]);
      }
      assert bs[..|bs|] == bs;
    }

    /** The write half of convert(std::vector<buf_t>&). */
    method WriteBufs(bs: seq<Bytes>)
      requires Valid() && write && Writable(Bufs(bs)) && Room(|Code(Bufs(bs))|)
      modifies this, mem
      ensures Valid() && Wrote(Code(Bufs(bs)))
    {
      ghost var m0, o0 := mem[..], offset;
      WriteLen(|bs|);
      WriteElements(bs, m0, o0, LenCode(|bs|));
    }

    /** The read half of convert(std::vector<buf_t>&): the count is bounded by the element limit
        and by the bytes that are left before anything is allocated. */
    method TakeBufs() returns (bs: seq<Bytes>)
      requires Valid() && !write
      modifies this, mem
      ensures Valid() && Quiet()
      ensures old(err) == Errors.SUCCESS ==>
                match ReadVector(old(Rest()))
                case Got(v, n) => err == Errors.SUCCESS && bs == v && offset == old(offset) + n
                case Bad => err == Errors.E_FORMAT
    {
      ghost var all := Rest();
      bs := [];
      var count := ReadLenCode();
      if err != Errors.SUCCESS { return; }
      ghost var u := offset - old(offset);
      assert Rest() == all[u..];
      if count > MAX_CONTAINER_ELEMENTS || !AtLeast(count) {
        SetError();
        return;
      }
      bs := TakeElements(count);
    }

    /** One more element, when bs have been taken and `here` is left. */
    method TakeElement(count: nat, bs: seq<Bytes>, ghost all: Bytes, ghost used: nat) returns (bs': seq<Bytes>)
      requires Valid() && !write && err == Errors.SUCCESS
      requires |bs| < count && Taken(all, count, bs, used, Rest())
      modifies this, mem
      ensures Valid() && mem[..] == old(mem[..]) && offset >= old(offset) && |bs'| == |bs| + 1
      ensures err == Errors.SUCCESS ==>
                Taken(all, count, bs', used + offset - old(offset), Rest())
      ensures err != Errors.SUCCESS ==> err == Errors.E_FORMAT && ReadBufs(all, count) == Bad
    {
      ghost var here, at := Rest(), offset;
      TakeOne(all, count, bs, used, here);
      var b := ConvertBuf([]);
      bs' := bs + [b];
      if err == Errors.SUCCESS {
        assert Rest() == here[offset - at..];
        assert offset - at == ReadBuf(here).used && b == ReadBuf(here).value;
      }
    }

    method TakeElements(count: nat) returns (bs: seq<Bytes>)
      requires Valid() && !write && err == Errors.SUCCESS
      modifies this, mem
      ensures Valid() && Quiet()
      ensures match ReadBufs(old(Rest()), count)
              case Got(v, n) => err == Errors.SUCCESS && bs == v && offset == old(offset) + n
              case Bad => err == Errors.E_FORMAT
    {
      ghost var all := Rest();
      bs := [];
      NothingTaken(all, count);
      while |bs| < count && err == Errors.SUCCESS
        invariant Valid() && mem[..] == old(mem[..]) && offset >= old(offset)
        invariant err != Errors.SUCCESS ==> err == Errors.E_FORMAT && ReadBufs(all, count) == Bad
        invariant |bs| <= count
        invariant err == Errors.SUCCESS ==> Taken(all, count, bs, offset - old(offset), Rest())
      {
        bs := TakeElement(count, bs, all, offset - old(offset));
      }
      if err == Errors.SUCCESS { assert bs + [] == bs; }
    }

    /** `convert` on a field: dispatch on its type. */
    method ConvertField(f: Field) returns (g: Field)
      requires Valid() && Typed(f) && (write ==> Writable(f) && Room(|Code(f)|))
      modifies this, mem
      ensures Valid() && Typed(g)
      ensures write ==> Wrote(Code(f)) && Written(f, Code(f)) && g == f
      ensures !write ==> DidRead(f, g) && Understood(f, g)
    {
      if write { CodeWritten(f); } else { ReadMeans(f, Rest()); }
      g := Dispatch(f);
    }

    method Dispatch(f: Field) returns (g: Field)
      requires Valid() && Typed(f) && (write ==> Writable(f) && Room(|Code(f)|))
      modifies this, mem
      ensures Valid() && Typed(g)
      ensures write ==> Wrote(Code(f)) && g == f
      ensures !write ==> DidRead(f, g)
    {
      g := f;
      match f
      case UInt(w, u) => var v := ConvertUInt(u, w); g := UInt(w, v);
      case SInt(w, i) => g := ConvertSInt(f);
      case Flag(b) => if !write && Rest() != [] { FromBigEndian1(Rest()[..1]); } g := ConvertFlag(f);
      case Str(s) => var v := ConvertStr(s); g := Str(v);
      case Buf(b) => var v := ConvertBuf(b); g := Buf(v);
      case BitVec(b) => var v := ConvertBits(b); g := BitVec(v);
      case Flags(fs) => if write { WriteFlags(fs); } else { var v := TakeFlags(); g := Flags(v); }
      case Bufs(bs) => if write { WriteBufs(bs); } else { var v := TakeBufs(); g := Bufs(v); }
    }

    /** convert(int8_t&) to convert(int64_t&), through the unsigned type of the same width. */
    method ConvertSInt(f: Field) returns (g: Field)
      requires f.SInt? && Valid() && Typed(f) && (write ==> Room(f.width))
      modifies this, mem
      ensures Valid() && Typed(g)
      ensures write ==> Wrote(Code(f)) && g == f
      ensures !write ==> DidRead(f, g)
    {
      var u := ConvertUInt(ToUnsigned(f.i, f.width), f.width);
      g := if write || err != Errors.SUCCESS then f else SInt(f.width, ToSigned(u, f.width));
    }

    /** convert(bool&): true is written as 1 and false as 0; any non-zero byte reads as true. */
    method ConvertFlag(f: Field) returns (g: Field)
      requires f.Flag? && Valid() && (write ==> Room(1))
      modifies this, mem
      ensures Valid() && g.Flag?
      ensures write ==> Wrote(if f.flag then [1] else [0]) && g == f
      ensures !write ==> Quiet()
      ensures !write && old(err) == Errors.SUCCESS && |old(Rest())| > 0 ==>
                err == Errors.SUCCESS && offset == old(offset) + 1 && g.flag == (old(Rest())[0] != 0)
      ensures !write && old(err) == Errors.SUCCESS && |old(Rest())| == 0 ==> err == Errors.E_FORMAT
    {
      var v := if write && f.flag then 1 else 0;
      UIntIs([v], v);
      if !write && Rest() != [] { FromBigEndian1(Rest()[..1]); }
      var u := ConvertUInt(v, 1);
      g := if write || err != Errors.SUCCESS then f else Flag(u != 0);
    }
  }

  // ---------------------------------------------------------------- whole messages

  lemma {:induction false} CodeAllConcat(a: seq<Field>, b: seq<Field>)
    requires AllWritable(a) && AllWritable(b) && AllWritable(a + b)
    ensures CodeAll(a + b) == CodeAll(a) + CodeAll(b)
  {
    if a == [] {
      assert a + b == b;
    } else {
      var t := a[1..] + b;
      assert (a + b)[0] == a[0] && (a + b)[1..] == t;
      assert AllWritable(t);
      CodeAllConcat(a[1..], b);
    }
  }

  lemma CodeAllSnoc(fs: seq<Field>, k: nat)
    requires k < |fs| && AllWritable(fs)
    ensures AllWritable(fs[..k]) && AllWritable(fs[..k + 1])
    ensures CodeAll(fs[..k + 1]) == CodeAll(fs[..k]) + Code(fs[k])
    ensures |CodeAll(fs[..k + 1])| <= |CodeAll(fs)|
  {
    assert fs[..k + 1] == fs[..k] + [fs[k]];
    CodeAllConcat(fs[..k], [fs[k]]);
    assert CodeAll([fs[k]]) == Code(fs[k]) + CodeAll([]);
    assert fs == fs[..k + 1] + fs[k + 1..];
    CodeAllConcat(fs[..k + 1], fs[k + 1..]);
  }

  method WriteField(c: Cursor, f: Field, ghost m0: Bytes, ghost done: Bytes)
    requires Writable(f) && c.Room(|Code(f)|) && c.Emitted(m0, 0, done)
    modifies c, c.mem
    ensures c.Emitted(m0, 0, done + Code(f)) && c.err == old(c.err)
  {
    var _ := c.ConvertField(f);
    if c.hasPointer { SpliceTwice(m0, 0, done, Code(f)); }
  }

  /** A pass over all fields of a message with a fresh sizing or writing cursor. */
  method WriteAll(c: Cursor, fs: seq<Field>)
    requires c.write && c.Valid() && c.offset == 0 && c.err == Errors.SUCCESS
    requires AllWritable(fs) && c.Room(|CodeAll(fs)|)
    modifies c, c.mem
    ensures c.Valid() && c.err == Errors.SUCCESS && c.offset == |CodeAll(fs)|
    ensures c.hasPointer ==> c.mem[..c.offset] == CodeAll(fs)
  {
    ghost var m0, done := c.mem[..], [];
    for k := 0 to |fs|
      invariant done == CodeAll(fs[..k]) && |done| <= |CodeAll(fs)|
      invariant c.Emitted(m0, 0, done) && c.err == Errors.SUCCESS
    {
      CodeAllSnoc(fs, k);
      WriteField(c, fs[k], m0, done);
      done := done + Code(fs[k]);
    }
    assert fs[..|fs|] == fs;
    if c.hasPointer { SplicePrefix(m0, done); }
  }

  lemma SplicePrefix(s: Bytes, e: Bytes)
    requires |e| <= |s|
    ensures Splice(s, 0, e)[..|e|] == e
  {
  }

  /** `ser`: the size pass and the write pass agree, so the unchecked writes stay inside the
      buffer that the size pass measured. */
  method Ser(fs: seq<Field>) returns (out: array<byte>)
    requires AllWritable(fs) && |CodeAll(fs)| <= INT_MAX
    ensures out[..] == CodeAll(fs) && AllWritten(fs, out[..])
  {
    CodeAllWritten(fs);
    var sizer := new Cursor.Sizer();
    WriteAll(sizer, fs);
    out := new byte[sizer.offset];
    var writer := new Cursor.Writer(out);
    WriteAll(writer, fs);
  }

  /** The fields gs have been read from all, and `here` is left. */
  ghost predicate FieldsTaken(all: Bytes, ts: seq<Field>, gs: seq<Field>, used: nat, here: Bytes)
    requires |gs| <= |ts|
  {
    ParseAll(ts, all) == Prepend(gs, used, ParseAll(ts[|gs|..], here))
  }

  lemma ParseNext(ts: seq<Field>, k: nat, here: Bytes)
    requires k < |ts|
    ensures var p := Parse(ts[k], here);
            ParseAll(ts[k..], here) ==
            if p.Bad? then Bad else Prepend([p.value], p.used, ParseAll(ts[k + 1..], here[p.used..]))
  {
    assert ts[k..][1..] == ts[k + 1..];
  }

  lemma TakeOneField(all: Bytes, ts: seq<Field>, gs: seq<Field>, used: nat, here: Bytes)
    requires |gs| < |ts| && FieldsTaken(all, ts, gs, used, here)
    ensures var p := Parse(ts[|gs|], here);
            if p.Bad? then ParseAll(ts, all) == Bad
            else FieldsTaken(all, ts, gs + [p.value], used + p.used, here[p.used..])
  {
    var p := Parse(ts[|gs|], here);
    ParseNext(ts, |gs|, here);
    if p.Got? { PrependTwice(gs, used, p.value, p.used, ParseAll(ts[|gs| + 1..], here[p.used..])); }
  }

  method ReadField(c: Cursor, ts: seq<Field>, gs: seq<Field>, ghost all: Bytes) returns (gs': seq<Field>)
    requires !c.write && c.Valid() && c.err == Errors.SUCCESS
    requires |gs| < |ts| && Typed(ts[|gs|]) && FieldsTaken(all, ts, gs, c.offset, c.Rest())
    modifies c, c.mem
    ensures c.Valid() && c.mem[..] == old(c.mem[..]) && |gs'| == |gs| + 1
    ensures c.err == Errors.SUCCESS ==> FieldsTaken(all, ts, gs', c.offset, c.Rest())
    ensures c.err != Errors.SUCCESS ==> c.err == Errors.E_FORMAT && ParseAll(ts, all) == Bad
  {
    ghost var here, used := c.Rest(), c.offset;
    ghost var p := Parse(ts[|gs|], here);
    TakeOneField(all, ts, gs, used, here);
    var g := c.ConvertField(ts[|gs|]);
    gs' := gs + [g];
    if c.err == Errors.SUCCESS {
      assert p == Got(g, c.offset - used);
      assert c.Rest() == here[p.used..];
    }
  }

  /** `deser`: on any bytes at all, the reads stay inside the source and the verdict is the one
      of the format; on success the fields are those the bytes denote. */
  method Deser(src: array<byte>, ts: seq<Field>) returns (rv: int, gs: seq<Field>)
    requires src.Length <= INT_MAX && forall k :: 0 <= k < |ts| ==> Typed(ts[k])
    modifies src
    ensures src[..] == old(src[..])
    ensures match Deserialize(ts, src[..])
            case Accepted(fs) => rv == Errors.SUCCESS && gs == fs
            case Malformed => rv == Errors.E_FORMAT
            case Trailing => rv == Errors.E_BADARG
    ensures rv == Errors.SUCCESS ==> SameTypes(ts, gs) && AllDenote(gs, src[..])
    ensures rv == Errors.E_FORMAT ==> NoneDenoteAll(ts, src[..])
    ensures rv == Errors.E_BADARG ==> PrefixOnly(ts, src[..])
  {
    VerdictMeans(ts, src[..]);
    rv, gs := ReadMessage(src, ts);
  }

  /** The pass over the fields of a message. */
  method ReadMessage(src: array<byte>, ts: seq<Field>) returns (rv: int, gs: seq<Field>)
    requires src.Length <= INT_MAX && forall k :: 0 <= k < |ts| ==> Typed(ts[k])
    modifies src
    ensures src[..] == old(src[..])
    ensures match Deserialize(ts, src[..])
            case Accepted(fs) => rv == Errors.SUCCESS && gs == fs
            case Malformed => rv == Errors.E_FORMAT
            case Trailing => rv == Errors.E_BADARG
  {
    var c := new Cursor.Reader(src);
    ghost var all := src[..];
    gs := [];
    assert ts[0..] == ts && c.Rest() == all;
    ghost var whole := ParseAll(ts, all);
    assert whole.Got? ==> [] + whole.value == whole.value;
    while |gs| < |ts| && c.err == Errors.SUCCESS
      invariant c.Valid() && src[..] == all && |gs| <= |ts|
      invariant c.err == Errors.SUCCESS ==> FieldsTaken(all, ts, gs, c.offset, c.Rest())
      invariant c.err != Errors.SUCCESS ==> c.err == Errors.E_FORMAT && ParseAll(ts, all) == Bad
    {
      gs := ReadField(c, ts, gs, all);
    }
    if c.err != Errors.SUCCESS { return c.err, gs; }
    assert gs + [] == gs;
    rv := if c.offset != src.Length then Errors.E_BADARG else Errors.SUCCESS;
  }
}
