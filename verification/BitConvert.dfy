/** `bits_t::convert` on the limb object: the packed form of the wire format and the bytes in memory
    are the same, whatever the unused bits of the limbs hold.
 */
module BitConvert {
  import opened Bits
  import opened BitVector
  import C = Converter
  import Errors
  import opened Sequences
  import W = Wire
  import opened WireFormat

  /** The wire format packs bits as to_bin does. */
  lemma PackIsPacked(v: seq<bool>)
    ensures IsPacked(v, W.Pack(v))
  {
    forall i | 0 <= i < 8 * |W.Pack(v)| ensures Bit(W.Pack(v)[i / 8], i % 8) == (i < |v| && v[i]) { PackBit(v, i); }
  }

  /** The bits determine the packed bytes. */
  lemma PackedUnique(v: seq<bool>, a: seq<nat>, b: seq<nat>)
    requires IsPacked(v, a) && IsPacked(v, b)
    ensures a == b
  {
    forall k | 0 <= k < |a| ensures a[k] == b[k] {
      forall i: nat ensures Bit(a[k], i) == Bit(b[k], i) { SameByteBit(v, a, b, k, i); }
      Extensionality(a[k], b[k]);
    }
  }

  lemma SameByteBit(v: seq<bool>, a: seq<nat>, b: seq<nat>, k: nat, i: nat)
    requires IsPacked(v, a) && IsPacked(v, b) && k < |a|
    ensures Bit(a[k], i) == Bit(b[k], i)
  {
    if i < 8 {
      var j := 8 * k + i;
      assert j / 8 == k && j % 8 == i;
      assert Bit(a[j / 8], j % 8) == (j < |v| && v[j]);
      assert Bit(b[j / 8], j % 8) == (j < |v| && v[j]);
    } else {
      Pow2Values();
      HighBitsZero(a[k], 8, i);
      HighBitsZero(b[k], 8, i);
    }
  }

  /** The object and the vector share no memory. */
  ghost predicate Apart(c: C.Cursor, v: BitVec)
    reads c, v
  {
    (v.data as object) != c.mem && (v as object) != c
  }

  /** The write half: the length code and the bytes in memory, the unused bits cleared first. */
  method WriteVec(c: C.Cursor, v: BitVec)
    requires c.Valid() && v.Valid() && Apart(c, v) && c.write && v.bits <= W.MAX_CONVERT_LEN
    requires c.Room(|W.LenCode(v.bits)| + |W.Pack(v.Value())|)
    modifies c`offset, c.mem, v.data
    ensures c.Valid() && v.Valid() && v.Value() == old(v.Value())
    ensures c.Wrote(W.LenCode(v.bits) + W.Pack(old(v.Value())))
    ensures Written(W.BitVec(old(v.Value())), W.LenCode(v.bits) + W.Pack(old(v.Value())))
  {
    BitsCodeWritten(v.Value());
    var bytes := v.ToBin();
    PackIsPacked(v.Value());
    PackedUnique(v.Value(), bytes, W.Pack(v.Value()));
    c.WriteCoded(v.bits, bytes);
  }

  /** alloc, and memmove of the bytes over whatever words were there. */
  method Fill(v: BitVec, b: W.Bytes, n: nat)
    requires v.Valid() && n <= W.MAX_CONVERT_LEN && |b| == (n + 7) / 8
    modifies v, v.data
    ensures v.Valid() && v.Value() == W.Unpack(b, n)
  {
    var _ := v.Alloc(n);
    v.LoadBytes(b);
    LoadedIsUnpacked(v.Value(), b);
  }

  /** What follows the length in the read half: alloc, which may leave stale words, and the bytes over them. */
  method ReadBody(c: C.Cursor, v: BitVec, n: nat)
    requires c.Valid() && v.Valid() && Apart(c, v) && !c.write && n <= W.MAX_CONVERT_LEN
    requires c.err != Errors.SUCCESS ==> n == 0
    modifies c, v, v.data
    ensures c.Valid() && v.Valid() && c.Quiet()
    ensures c.err == if (n + 7) / 8 <= |old(c.Rest())| then old(c.err) else Errors.E_FORMAT
    ensures (n + 7) / 8 <= |old(c.Rest())| ==>
              c.offset == old(c.offset) + (n + 7) / 8 && v.Value() == W.Unpack(old(c.Rest())[..(n + 7) / 8], n)
  {
    var size := (n + 7) / 8;
    if !c.AtLeast(size) {
      c.SetError();
      return;
    }
    var b := c.Take(size);
    Fill(v, b, n);
  }

  /** The read half. */
  method ReadVec(c: C.Cursor, v: BitVec)
    requires c.Valid() && v.Valid() && Apart(c, v) && !c.write
    modifies c, v, v.data
    ensures c.Valid() && v.Valid() && c.Quiet()
    ensures old(c.err) == Errors.SUCCESS ==>
              match W.ReadBits(old(c.Rest()))
              case Got(bits, n) => c.err == Errors.SUCCESS && v.Value() == bits && c.offset == old(c.offset) + n
              case Bad => c.err == Errors.E_FORMAT
    ensures old(c.err) == Errors.SUCCESS && c.err == Errors.SUCCESS ==>
              PrefixDenotes(W.BitVec(v.Value()), old(c.Rest()), c.offset - old(c.offset))
  {
    ghost var all := c.Rest();
    ReadMeans(W.BitVec([]), all);
    var n := c.ReadLenCode();
    ghost var u := c.offset - old(c.offset);
    assert c.Rest() == all[u..];
    if c.err == Errors.SUCCESS { W.ReadPackedParts(all, n, u); }
    ReadBody(c, v, n);
  }
}
