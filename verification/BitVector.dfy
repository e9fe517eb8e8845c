/** `bits_t`: a vector of bits packed into 64-bit limbs, whose last limb may hold arbitrary bits past
    the count. What callers see is `Value()`; every operation is stated on it.
 */
module BitVector {
  import opened Bits
  import opened CInt
  import opened Options
  import opened Sequences

  // ---------------------------------------------------------------- the number of limbs

  /** bits_to_limbs, (bits + 64 - 1) / 64 on ints from the left. None: an addition overflows, and the
      language leaves everything from there on undefined. */
  function BitsToLimbs(bits: nat): Option<nat>
    requires bits <= INT_MAX
  {
    if !IsInt(bits + 64) || !IsInt(bits + 64 - 1) then None else Some((bits + 64 - 1) / 64)
  }

  /** What the same instructions give on hardware that wraps around. */
  function WrappedLimbs(bits: nat): int { Quotient(Wrap(Wrap(bits + 64) - 1), 64) }

  /** The number of limbs that hold the bits. */
  function Limbs(bits: nat): (n: nat)
    ensures bits <= 64 * n < bits + 64
  {
    (bits + 63) / 64
  }

  /** The largest count with a defined number of limbs. */
  const MAX_BITS := INT_MAX - 64

  /** Of all counts an int can hold, exactly those up to MAX_BITS have a defined number of limbs, and
      it is the right one. With wrap-around one more count comes out right, and all others negative. */
  lemma LimbCountExact(bits: nat)
    requires bits <= INT_MAX
    ensures BitsToLimbs(bits).Some? <==> bits <= MAX_BITS
    ensures BitsToLimbs(bits) == Some(Limbs(bits)) <==> bits <= MAX_BITS
    ensures WrappedLimbs(bits) == Limbs(bits) <==> bits <= MAX_BITS + 1
    ensures WrappedLimbs(bits) < 0 <==> bits > MAX_BITS + 1
  {
    WrapOnce(bits + 64);
    WrapOnce(Wrap(bits + 64) - 1);
  }

  /** The first append to fail: both assertions of `append` hold, and the new count has no limbs. */
  lemma AppendOverflows(bits: nat)
    requires bits == MAX_BITS
    ensures bits >= 0 && bits < INT_MAX && BitsToLimbs(bits) == Some(Limbs(bits)) && BitsToLimbs(bits + 1) == None
  {
    LimbCountExact(bits);
    LimbCountExact(bits + 1);
  }

  /** The first concatenation that wraps to a negative array size although its assertion holds. */
  lemma ConcatOverflows(n1: nat, n2: nat)
    requires n1 == 1 && n2 == MAX_BITS + 1
    ensures n2 <= INT_MAX - n1 && BitsToLimbs(n1 + n2) == None && WrappedLimbs(n1 + n2) < 0
  {
    LimbCountExact(n1 + n2);
  }

  /** bytes_to_bits, bytes << 3. None: the result is not the number of bits. */
  function BytesToBits(bytes: nat): Option<nat>
  {
    if Wrap(8 * bytes) == 8 * bytes then Some(8 * bytes) else None
  }

  lemma BytesToBitsExact(bytes: nat)
    ensures BytesToBits(bytes).Some? <==> 8 * bytes <= INT_MAX
  {
  }

  // ---------------------------------------------------------------- single limbs

  /** Masking with all ones shifted right by u clears the top u bits of the word. */
  lemma TrimBits(x: nat, u: nat, w: nat, i: nat)
    requires u <= w
    ensures Bit(And(x, Shr(Pow2(w) - 1, u)), i) == (i < w - u && Bit(x, i))
  {
    AndBits(x, Shr(Pow2(w) - 1, u), i);
    ShrBits(Pow2(w) - 1, u, i);
    OnesBits(w, i + u);
  }

  /** ref_t::get on the limb that holds the bit. */
  predicate GetLimb(x: nat, offset: nat) { Shr(x, offset) % 2 == 1 }

  lemma GetLimbBits(x: nat, offset: nat)
    ensures GetLimb(x, offset) == Bit(x, offset)
  {
    ShrBits(x, offset, 0);
  }

  /** Storing byte k of a limb, in memory order (little-endian). */
  function StoreByte(x: nat, k: nat, b: nat): nat { Patch(x, b, 8 * k, 8, 64) }

  lemma MoveByteBits(x: nat, k: nat, y: nat, j: nat, i: nat)
    requires i < 64
    ensures Bit(StoreByte(x, k, ByteAt(y, j)), i) ==
            if 8 * k <= i < 8 * k + 8 then Bit(y, 8 * j + i - 8 * k) else Bit(x, i)
  {
    ByteBits(y, j, if 8 * k <= i < 8 * k + 8 then i - 8 * k else 0);
    PatchBits(x, ByteAt(y, j), 8 * k, 8, 64, i);
  }

  // ---------------------------------------------------------------- memory as bits

  /** Bit i of the limbs in memory. */
  predicate At(d: seq<nat>, i: nat)
    requires i < 64 * |d|
  {
    Bit(d[i / 64], i % 64)
  }

  /** One limb replaced, seen as bits. */
  lemma AtUpdate(d: seq<nat>, k: nat, x: nat, i: nat)
    requires k < |d| && i < 64 * |d|
    ensures At(d[k := x], i) == if i / 64 == k then Bit(x, i % 64) else At(d, i)
  {
  }

  /** The visible bits. */
  function Visible(d: seq<nat>, bits: nat): (v: seq<bool>)
    requires bits <= 64 * |d|
    ensures |v| == bits && forall i :: 0 <= i < bits ==> v[i] == At(d, i)
  {
    seq(bits, i requires 0 <= i < bits => At(d, i))
  }

  /** The sequence that resizing stands for: a prefix, or padding with false. */
  function Resized(v: seq<bool>, count: nat): (r: seq<bool>)
    ensures |r| == count && forall i :: 0 <= i < count ==> r[i] == (i < |v| && v[i])
  {
    seq(count, i requires 0 <= i < count => i < |v| && v[i])
  }

  function XorSeq(a: seq<bool>, b: seq<bool>): (r: seq<bool>)
    requires |a| == |b|
    ensures |r| == |a| && forall i :: 0 <= i < |a| ==> r[i] == (a[i] != b[i])
  {
    seq(|a|, i requires 0 <= i < |a| => a[i] != b[i])
  }

  // ---------------------------------------------------------------- memory moves

  /** One byte moved from byte j of x to byte k of d, seen as bits. */
  lemma ByteMoved(d: seq<nat>, k: nat, x: seq<nat>, j: nat, e: seq<nat>, i: nat)
    requires k < 8 * |d| && j < 8 * |x| && i < 64 * |d|
    requires e == d[k / 8 := StoreByte(d[k / 8], k % 8, ByteAt(x[j / 8], j % 8))]
    ensures At(e, i) == if 8 * k <= i < 8 * k + 8 then At(x, 8 * j + (i - 8 * k)) else At(d, i)
  {
    AtUpdate(d, k / 8, e[k / 8], i);
    ByteIndex(k, i);
    if i / 64 == k / 8 {
      MoveByteBits(d[k / 8], k % 8, x[j / 8], j % 8, i % 64);
      if 8 * k <= i < 8 * k + 8 { BytePlace(j, i - 8 * k); }
    }
  }

  /** Where byte k sits in its limb. */
  lemma ByteIndex(k: nat, i: nat)
    ensures (i / 64 == k / 8 && 8 * (k % 8) <= i % 64 < 8 * (k % 8) + 8) <==> 8 * k <= i < 8 * k + 8
    ensures i / 64 == k / 8 ==> i - 8 * k == i % 64 - 8 * (k % 8)
  {
    var a, b, c, d := i / 64, i % 64, k / 8, k % 8;
    assert i == 64 * a + b && k == 8 * c + d;
  }

  /** What memmove of n bytes leaves at bit i. */
  predicate Moved(d: seq<nat>, to: nat, x: seq<nat>, from: nat, n: nat, i: nat)
    requires i < 64 * |d| && from + n <= 8 * |x|
  {
    if 8 * to <= i < 8 * (to + n) then At(x, 8 * from + (i - 8 * to)) else At(d, i)
  }

  /** memmove of n bytes, between two arrays or within one when the source lies before the target. */
  method MoveBytes(dst: array<nat>, to: nat, src: array<nat>, from: nat, n: nat)
    requires to + n <= 8 * dst.Length && from + n <= 8 * src.Length
    requires dst != src || from + n <= to
    modifies dst
    ensures forall i :: 0 <= i < 64 * dst.Length ==>
              At(dst[..], i) == Moved(old(dst[..]), to, old(src[..]), from, n, i)
  {
    for j := 0 to n
      invariant dst != src ==> src[..] == old(src[..])
      invariant AreMoved(old(dst[..]), dst[..], to, old(src[..]), from, j)
    {
      ghost var d, x := dst[..], src[..];
      var k, f := to + j, from + j;
      dst[k / 8] := StoreByte(dst[k / 8], k % 8, ByteAt(src[f / 8], f % 8));
      MoveExtends(old(dst[..]), d, dst[..], to, old(src[..]), x, from, j);
    }
  }

  lemma MoveExtends(d0: seq<nat>, d: seq<nat>, e: seq<nat>, to: nat, x0: seq<nat>, x: seq<nat>, from: nat, j: nat)
    requires |d0| == |d| && |x0| == |x| && to + j < 8 * |d| && from + j < 8 * |x|
    requires e == d[(to + j) / 8 := StoreByte(d[(to + j) / 8], (to + j) % 8, ByteAt(x[(from + j) / 8], (from + j) % 8))]
    requires x == x0 || (x == d && x0 == d0 && from + j < to)
    requires AreMoved(d0, d, to, x0, from, j)
    ensures AreMoved(d0, e, to, x0, from, j + 1)
  {
    forall i | 0 <= i < 64 * |d| ensures At(e, i) == Moved(d0, to, x0, from, j + 1, i) {
      ByteMoved(d, to + j, x, from + j, e, i);
      BitExtends(d0, d, e, to, x0, x, from, j, i, 8 * (from + j) + (i - 8 * (to + j)));
    }
  }

  lemma BitExtends(d0: seq<nat>, d: seq<nat>, e: seq<nat>, to: nat, x0: seq<nat>, x: seq<nat>, from: nat, j: nat,
                   i: nat,
                   t: int)
    requires |d0| == |d| && |x0| == |x| && to + j < 8 * |d| && from + j < 8 * |x| && i < 64 * |d|
    requires |e| == |d| && t == 8 * (from + j) + (i - 8 * (to + j))
    requires At(e, i) == if 8 * (to + j) <= i < 8 * (to + j) + 8 then At(x, t) else At(d, i)
    requires x == x0 || (x == d && x0 == d0 && from + j < to)
    requires AreMoved(d0, d, to, x0, from, j)
    ensures At(e, i) == Moved(d0, to, x0, from, j + 1, i)
  {
    if 8 * (to + j) <= i < 8 * (to + j) + 8 {
      SourceUntouched(d0, d, to, x0, x, from, j, t);
    } else {
      assert At(d, i) == Moved(d0, to, x0, from, j, i);
    }
  }

  /** The byte moved next is still what it was. */
  lemma SourceUntouched(d0: seq<nat>, d: seq<nat>, to: nat, x0: seq<nat>, x: seq<nat>, from: nat, j: nat, t: nat)
    requires |d0| == |d| && |x0| == |x| && to + j < 8 * |d| && from + j < 8 * |x| && t < 8 * (from + j) + 8
    requires x == x0 || (x == d && x0 == d0 && from + j < to)
    requires AreMoved(d0, d, to, x0, from, j)
    ensures At(x, t) == At(x0, t)
  {
    if x != x0 { assert At(d, t) == Moved(d0, to, x0, from, j, t); }
  }

  /** The first n bytes have been moved, and nothing else has changed. */
  ghost predicate AreMoved(d0: seq<nat>, d: seq<nat>, to: nat, x0: seq<nat>, from: nat, n: nat)
    requires to + n <= 8 * |d0| && from + n <= 8 * |x0|
  {
    |d| == |d0| && forall i :: 0 <= i < 64 * |d| ==> At(d, i) == Moved(d0, to, x0, from, n, i)
  }

  // ---------------------------------------------------------------- the class

  class BitVec {
    var data: array<nat>
    var bits: nat

    ghost predicate Valid()
      reads this
    {
      bits <= MAX_BITS && data.Length == Limbs(bits)
    }

    /** What get() reports, bit by bit; the rest of the last limb is not part of it. */
    ghost function Value(): (v: seq<bool>)
      reads this, data
      requires Valid()
      ensures |v| == bits
    {
      Visible(data[..], bits)
    }

    /** bits_t(int). Past MAX_BITS the overflow comes after the count is stored and before the array. */
    constructor (count: nat)
      requires count <= INT_MAX
      ensures bits == count && fresh(data)
      ensures Valid() <==> count <= MAX_BITS
      ensures count <= MAX_BITS ==> Value() == Resized([], count)
    {
      var n := BitsToLimbs(count);
      data := new nat[if n.Some? then n.value else 0](_ => 0);
      bits := count;
      new;
      LimbCountExact(count);
      if n.Some? { ZeroMemory(data[..], bits); }
    }

    method Get(index: nat) returns (b: bool)
      requires Valid() && index < bits
      ensures b == Value()[index]
    {
      GetLimbBits(data[index / 64], index % 64);
      b := GetLimb(data[index / 64], index % 64);
    }

    method Set(index: nat, value: bool)
      requires Valid() && index < bits
      modifies data
      ensures Valid() && Value() == old(Value())[index := value]
    {
      ghost var d := data[..];
      data[index / 64] := SetLimb(data[index / 64], index % 64, value);
      SetVisible(d, bits, index, value, data[..]);
    }

    /** bzero_unused: changes only what nobody sees. */
    method ClearUnused()
      requires Valid()
      modifies data
      ensures Value() == old(Value())
      ensures forall i :: bits <= i < 64 * data.Length ==> !At(data[..], i)
    {
      var n := Limbs(bits);
      var unused := 64 * n - bits;
      if unused > 0 {
        ghost var d := data[..];
        var trimmed := And(data[n - 1], Shr(Pow2(64) - 1, unused));
        TrimmedWord(data[n - 1], unused, 64, trimmed);
        data[n - 1] := trimmed;
        ClearedTail(d, bits, data[..]);
      }
    }

    method Free()
      modifies this
      ensures Valid() && bits == 0 && fresh(data)
    {
      data := new nat[0];
      bits := 0;
    }

    /** resize: the prefix stays, and what growth exposes is false whatever the tail held. It is
        defined up to MAX_BITS; otherwise the state is the one in which the addition overflows. */
    method Resize(count: nat) returns (defined: bool)
      requires Valid() && count <= INT_MAX
      modifies this, data
      ensures defined <==> count <= MAX_BITS
      ensures Valid() && Value() == if defined then Resized(old(Value()), count) else old(Value())
      ensures data == old(data) || fresh(data)
    {
      if count == bits { return true; }
      if count > bits && bits > 0 { ClearUnused(); }
      var oldLimbs, newLimbs := BitsToLimbs(bits), BitsToLimbs(count);
      LimbCountExact(bits);
      LimbCountExact(count);
      if newLimbs.None? { return false; }
      ResizeTo(oldLimbs.value, newLimbs.value, count);
      defined := true;
    }

    /** resize once the numbers of limbs are known. */
    method ResizeTo(nOld: nat, nNew: nat, count: nat)
      requires Valid() && count <= MAX_BITS && nOld == data.Length && nNew == Limbs(count)
      requires count > bits ==> forall i :: bits <= i < 64 * data.Length ==> !At(data[..], i)
      modifies this, data
      ensures Valid() && bits == count && Value() == Resized(old(Value()), count)
      ensures data == old(data) || fresh(data)
    {
      ghost var d, before := data[..], bits;
      if nOld == nNew {
        bits := count;
        ResizedInPlace(d, before, data[..], count);
        if bits > 0 { ClearUnused(); }
        return;
      }
      if count == 0 {
        Free();
        return;
      }
      var oldData := data;
      bits := count;
      data := new nat[nNew](_ => 0);
      var n := if nOld < nNew then nOld else nNew;
      forall i | 0 <= i < n { data[i] := oldData[i]; }
      ResizedInPlace(d, before, data[..], count);
      ClearUnused();
    }

    /** alloc: within the same number of limbs the words stay, so stale bits may become visible;
        its callers overwrite them all. Defined up to MAX_BITS. */
    method Alloc(count: nat) returns (defined: bool)
      requires Valid() && count <= INT_MAX
      modifies this
      ensures Valid() && (defined <==> count <= MAX_BITS) && bits == if defined then count else old(bits)
      ensures if !defined || Limbs(count) == Limbs(old(bits))
              then data == old(data) && Value() == Visible(old(data[..]), bits) else fresh(data)
    {
      var oldLimbs, newLimbs := BitsToLimbs(bits), BitsToLimbs(count);
      LimbCountExact(bits);
      LimbCountExact(count);
      if newLimbs.None? { return false; }
      defined := true;
      if oldLimbs == newLimbs {
        bits := count;
        return;
      }
      Free();
      if count > 0 {
        bits := count;
        data := new nat[newLimbs.value];
      }
    }

    method CopyFrom(src: BitVec)
      requires Valid() && src.Valid() && (src != this ==> data != src.data)
      modifies this, data
      ensures Valid() && Value() == old(src.Value())
      ensures data == old(data) || fresh(data)
    {
      if src == this { return; }
      if src.bits == 0 {
        Free();
        return;
      }
      var _ := Alloc(src.bits);
      forall i | 0 <= i < data.Length { data[i] := src.data[i]; }
      assert data[..] == src.data[..];
    }

    /** append, whose assertion bits < INT_MAX every valid vector meets. */
    method Append(value: bool) returns (defined: bool)
      requires Valid()
      modifies this, data
      ensures defined <==> old(bits) < MAX_BITS
      ensures Valid() && Value() == if defined then old(Value()) + [value] else old(Value())
      ensures data == old(data) || fresh(data)
    {
      defined := Resize(bits + 1);
      if defined { Set(bits - 1, value); }
    }

    /** operator^=, on whole limbs, junk included; the operand may be the vector itself. */
    method XorAssign(src: BitVec)
      requires Valid() && src.Valid() && bits == src.bits
      modifies data
      ensures Value() == XorSeq(old(Value()), old(src.Value()))
    {
      ghost var d, x := data[..], src.data[..];
      forall i | 0 <= i < data.Length { data[i] := Xor(data[i], src.data[i]); }
      XorVisible(d, x, data[..], bits);
    }

    /** operator^: every limb of the uninitialised result is written. */
    method Xored(src: BitVec) returns (out: BitVec)
      requires Valid() && src.Valid() && bits == src.bits
      ensures fresh(out) && fresh(out.data) && out.Valid() && out.Value() == XorSeq(Value(), src.Value())
    {
      out := new BitVec(0);
      var _ := out.Alloc(bits);
      if out.data.Length == 0 { return; }
      forall i | 0 <= i < out.data.Length { out.data[i] := Xor(data[i], src.data[i]); }
      XorVisible(data[..], src.data[..], out.data[..], bits);
    }

    /** to_bin: the bytes in memory order, the unused bits of the last one cleared. */
    method ToBin() returns (bytes: seq<nat>)
      requires Valid()
      modifies data
      ensures Value() == old(Value()) && IsPacked(Value(), bytes)
    {
      ClearUnused();
      bytes := [];
      for j := 0 to (bits + 7) / 8
        invariant |bytes| == j && forall k :: 0 <= k < j ==> bytes[k] == ByteAt(data[k / 8], k % 8)
      {
        bytes := bytes + [ByteAt(data[j / 8], j % 8)];
      }
      PackedMemory(data[..], bits, bytes);
    }

    /** memmove of bytes over the front of the memory, whatever it held before. */
    method LoadBytes(bytes: seq<nat>)
      requires Valid() && |bytes| == (bits + 7) / 8 && forall k :: 0 <= k < |bytes| ==> bytes[k] < 256
      modifies data
      ensures forall i :: 0 <= i < bits ==> Value()[i] == Bit(bytes[i / 8], i % 8)
    {
      for j := 0 to |bytes|
        invariant BytesIn(data[..], bytes, j)
      {
        ghost var d := data[..];
        data[j / 8] := StoreByte(data[j / 8], j % 8, bytes[j]);
        StoredByte(d, j, bytes, data[..]);
      }
    }

    /** The loop (*this)[at + i] = src[i], also used on one and the same vector. */
    method SetRun(at: nat, src: BitVec, n: nat)
      requires Valid() && src.Valid() && at + n <= bits && n <= src.bits
      requires if src == this then n <= at else data != src.data
      modifies data
      ensures Value() == Splice(old(Value()), at, old(src.Value())[..n])
    {
      ghost var v, u := Value(), src.Value();
      for i := 0 to n
        invariant src != this ==> src.Value() == u
        invariant forall k :: 0 <= k < bits ==> Value()[k] == if at <= k < at + i then u[k - at] else v[k]
      {
        var b := src.Get(i);
        Set(at + i, b);
      }
      IsOverwritten(v, at, u[..n], Value());
    }

    /** operator+=, with the byte-wise path when the count is a multiple of 8. Under its assertion it
        is defined for totals up to MAX_BITS. */
    method AppendAll(src: BitVec) returns (defined: bool)
      requires Valid() && src.Valid() && src.bits <= INT_MAX - bits && (src != this ==> data != src.data)
      modifies this, data, src.data
      ensures defined <==> old(bits) + old(src.bits) <= MAX_BITS
      ensures Valid() && Value() == if defined then old(Value()) + old(src.Value()) else old(Value())
      ensures data == old(data) || fresh(data)
      ensures src != this ==> src.Value() == old(src.Value())
    {
      if src == this { defined := AppendSelf(); } else { defined := AppendOther(src); }
    }

    method AppendSelf() returns (defined: bool)
      requires Valid() && bits <= INT_MAX - bits
      modifies this, data
      ensures defined <==> 2 * old(bits) <= MAX_BITS
      ensures Valid() && Value() == if defined then old(Value()) + old(Value()) else old(Value())
      ensures data == old(data) || fresh(data)
    {
      var n := bits;
      ghost var v := Value();
      defined := Resize(2 * n);
      if !defined { return; }
      if n % 8 == 0 { RepeatBytes(n, v); } else { RepeatBits(n, v); }
    }

    method RepeatBytes(n: nat, ghost v: seq<bool>)
      requires Valid() && bits == 2 * n && n % 8 == 0 && |v| == n && Value() == Resized(v, bits)
      modifies data
      ensures Value() == v + v
    {
      ghost var d := data[..];
      assert n / 8 == (n + 7) / 8;
      MoveBytes(data, n / 8, data, 0, n / 8);
      MovedBehind(d, d, data[..], n, n);
      PrefixOfResized(d, v, 2 * n);
    }

    method RepeatBits(n: nat, ghost v: seq<bool>)
      requires Valid() && bits == 2 * n && |v| == n && Value() == Resized(v, bits)
      modifies data
      ensures Value() == v + v
    {
      ghost var r := Value();
      SetRun(n, this, n);
      assert r[..n] == v[..n];
      OverwrittenTail(v, v, Value());
    }

    /** The bytes of src, moved behind v at a byte boundary. */
    method AppendBytes(src: BitVec, ghost v: seq<bool>, n1: nat)
      requires Valid() && src.Valid() && data != src.data && n1 % 8 == 0
      requires n1 == |v| && bits == n1 + src.bits && Value() == Resized(v, bits)
      modifies data
      ensures Valid() && Value() == v + old(src.Value())
    {
      ghost var d := data[..];
      PrefixOfResized(d, v, bits);
      MoveBytes(data, n1 / 8, src.data, 0, (src.bits + 7) / 8);
      MovedBehind(d, src.data[..], data[..], n1, src.bits);
    }

    /** The bits of src behind v, one by one. */
    method AppendBits(src: BitVec, ghost v: seq<bool>, n1: nat)
      requires Valid() && src.Valid() && data != src.data
      requires n1 == |v| && bits == n1 + src.bits && Value() == Resized(v, bits)
      modifies data
      ensures Valid() && Value() == v + old(src.Value())
    {
      ghost var u := src.Value();
      SetRun(n1, src, src.bits);
      OverwrittenTail(v, u, Value());
    }

    /** += of another vector. */
    method AppendOther(src: BitVec) returns (defined: bool)
      requires Valid() && src.Valid() && src.bits <= INT_MAX - bits && data != src.data && src != this
      modifies this, data, src.data
      ensures defined <==> old(bits) + src.bits <= MAX_BITS
      ensures Valid() && Value() == if defined then old(Value()) + old(src.Value()) else old(Value())
      ensures data == old(data) || fresh(data)
      ensures src.Value() == old(src.Value())
    {
      var n1, n2 := bits, src.bits;
      ghost var v := Value();
      ClearUnused();
      src.ClearUnused();
      defined := Resize(n1 + n2);
      if !defined { return; }
      if n1 % 8 == 0 { AppendBytes(src, v, n1); } else { AppendBits(src, v, n1); }
    }

    /** operator+; the operands may be one vector, and only their unused bits change. Under its
        assertion it is defined for totals up to MAX_BITS. */
    method Concat(src: BitVec) returns (defined: bool, dst: BitVec)
      requires Valid() && src.Valid() && src.bits <= INT_MAX - bits && (src != this ==> data != src.data)
      modifies data, src.data
      ensures defined <==> bits + src.bits <= MAX_BITS
      ensures fresh(dst) && fresh(dst.data)
      ensures defined ==> dst.Valid() && dst.Value() == old(Value()) + old(src.Value())
      ensures Value() == old(Value()) && src.Value() == old(src.Value())
    {
      dst := new BitVec(bits + src.bits);
      LimbCountExact(dst.bits);
      defined := BitsToLimbs(dst.bits).Some?;
      if !defined { return; }
      ClearUnused();
      src.ClearUnused();
      Join(dst, this, src);
    }
  }

  /** from_bin, defined while eight times the size is at most MAX_BITS. */
  method FromBin(bytes: seq<nat>) returns (defined: bool, dst: BitVec)
    requires |bytes| <= INT_MAX && forall k :: 0 <= k < |bytes| ==> bytes[k] < 256
    ensures defined <==> 8 * |bytes| <= MAX_BITS
    ensures fresh(dst)
    ensures defined ==> dst.Valid() && dst.bits == 8 * |bytes| && IsPacked(dst.Value(), bytes)
  {
    var count := BytesToBits(|bytes|);
    BytesToBitsExact(|bytes|);
    dst := new BitVec(if count.Some? then count.value else 0);
    if count.Some? { LimbCountExact(count.value); }
    defined := count.Some? && BitsToLimbs(count.value).Some?;
    if defined { dst.LoadBytes(bytes); }
  }

  /** The bytes of a bit sequence: bit i is bit i % 8 of byte i / 8, and the padding is zero. */
  predicate IsPacked(v: seq<bool>, bytes: seq<nat>)
  {
    && |bytes| == (|v| + 7) / 8
    && (forall k :: 0 <= k < |bytes| ==> bytes[k] < 256)
    && (forall i :: 0 <= i < 8 * |bytes| ==> Bit(bytes[i / 8], i % 8) == (i < |v| && v[i]))
  }

  /** A bit sequence is determined by its bytes and its length; from_bin knows only the bytes, so
      reading back what to_bin gave pads to a multiple of 8. */
  lemma PackedRoundTrip(v: seq<bool>, bytes: seq<nat>, u: seq<bool>)
    requires IsPacked(v, bytes) && IsPacked(u, bytes)
    ensures |u| == 8 * |bytes| ==> u == Resized(v, |u|)
    ensures |u| == |v| ==> u == v
  {
    forall i | 0 <= i < |u| ensures u[i] == (i < |v| && v[i]) {
      assert Bit(bytes[i / 8], i % 8) == (i < |v| && v[i]);
    }
  }

  lemma StoreByteBits(x: nat, k: nat, b: nat, i: nat)
    requires b < 256 && i < 64
    ensures Bit(StoreByte(x, k, b), i) == if 8 * k <= i < 8 * k + 8 then Bit(b, i - 8 * k) else Bit(x, i)
  {
    Pow2Values();
    PatchBits(x, b, 8 * k, 8, 64, i);
  }

  lemma LoadedByte(d: seq<nat>, i: nat)
    requires i < 64 * |d|
    ensures Bit(ByteAt(d[i / 8 / 8], i / 8 % 8), i % 8) == At(d, i)
    ensures ByteAt(d[i / 8 / 8], i / 8 % 8) < 256
  {
    var k := i / 8;
    ByteBits(d[k / 8], k % 8, i % 8);
    BytePlace(k, i % 8);
    assert 8 * k + i % 8 == i;
    Pow2Values();
  }

  lemma PackedMemory(d: seq<nat>, bits: nat, bytes: seq<nat>)
    requires |d| == Limbs(bits) && |bytes| == (bits + 7) / 8
    requires forall k :: 0 <= k < |bytes| ==> bytes[k] == ByteAt(d[k / 8], k % 8)
    requires forall i :: bits <= i < 64 * |d| ==> !At(d, i)
    ensures IsPacked(Visible(d, bits), bytes)
  {
    forall k | 0 <= k < |bytes| ensures bytes[k] < 256 { LoadedByte(d, 8 * k); }
    forall i | 0 <= i < 8 * |bytes| ensures Bit(bytes[i / 8], i % 8) == (i < bits && At(d, i)) {
      LoadedByte(d, i);
    }
  }

  lemma StoredBit(d: seq<nat>, j: nat, b: nat, e: seq<nat>, i: nat)
    requires j < 8 * |d| && b < 256 && i < 64 * |d|
    requires e == d[j / 8 := StoreByte(d[j / 8], j % 8, b)]
    ensures At(e, i) == if 8 * j <= i < 8 * j + 8 then Bit(b, i - 8 * j) else At(d, i)
  {
    AtUpdate(d, j / 8, e[j / 8], i);
    ByteIndex(j, i);
    StoreByteBits(d[j / 8], j % 8, b, i % 64);
  }

  lemma StoredByte(d: seq<nat>, j: nat, bytes: seq<nat>, e: seq<nat>)
    requires j < |bytes| && |bytes| <= 8 * |d| && bytes[j] < 256
    requires e == d[j / 8 := StoreByte(d[j / 8], j % 8, bytes[j])]
    requires BytesIn(d, bytes, j)
    ensures BytesIn(e, bytes, j + 1)
  {
    forall i | 0 <= i < 8 * (j + 1) ensures At(e, i) == Bit(bytes[i / 8], i % 8) {
      StoredBit(d, j, bytes[j], e, i);
      ByteOf(j, i);
    }
  }

  lemma ByteOf(j: nat, i: nat)
    ensures 8 * j <= i < 8 * j + 8 <==> i / 8 == j
    ensures i / 8 == j ==> i % 8 == i - 8 * j
  {
  }

  /** The first n bytes are the bits of d, in order. */
  ghost predicate BytesIn(d: seq<nat>, bytes: seq<nat>, n: nat)
    requires n <= |bytes| && n <= 8 * |d|
  {
    forall i :: 0 <= i < 8 * n ==> At(d, i) == Bit(bytes[i / 8], i % 8)
  }

  /** memmove of all bytes of src, its unused bits cleared, to bit position at. */
  method CopyBehind(dst: BitVec, at: nat, src: BitVec)
    requires dst.Valid() && src.Valid() && dst.data != src.data && at % 8 == 0 && at + src.bits <= dst.bits
    modifies dst.data
    ensures dst.Value()[..at + src.bits] == old(dst.Value())[..at] + src.Value()
  {
    ghost var d := dst.data[..];
    MoveBytes(dst.data, at / 8, src.data, 0, (src.bits + 7) / 8);
    MovedBehind(d, src.data[..], dst.data[..], at, src.bits);
  }

  method Join(dst: BitVec, a: BitVec, b: BitVec)
    requires dst.Valid() && a.Valid() && b.Valid() && dst.bits == a.bits + b.bits
    requires dst.data != a.data && dst.data != b.data && dst != b
    modifies dst.data
    ensures dst.Value() == a.Value() + b.Value()
  {
    CopyBehind(dst, 0, a);
    ghost var v := dst.Value();
    if a.bits % 8 == 0 {
      CopyBehind(dst, a.bits, b);
    } else {
      dst.SetRun(a.bits, b, b.bits);
    }
    IsJoined(v, a.Value(), b.Value(), dst.Value(), a.bits % 8 == 0);
  }

  lemma IsJoined(v: seq<bool>, a: seq<bool>, b: seq<bool>, r: seq<bool>, aligned: bool)
    requires |v| == |a| + |b| == |r| && v[..|a|] == a
    requires if aligned then r[..|a| + |b|] == v[..|a|] + b else r == Splice(v, |a|, b[..|b|])
    ensures r == a + b
  {
    assert r[..|r|] == r && b[..|b|] == b;
    if !aligned { assert v[|a| + |b|..] == []; }
  }

  lemma IsOverwritten(v: seq<bool>, at: nat, u: seq<bool>, r: seq<bool>)
    requires at + |u| <= |v| == |r|
    requires forall k :: 0 <= k < |v| ==> r[k] == if at <= k < at + |u| then u[k - at] else v[k]
    ensures r == Splice(v, at, u)
  {
  }

  lemma OverwrittenTail(v: seq<bool>, u: seq<bool>, r: seq<bool>)
    requires r == Splice(Resized(v, |v| + |u|), |v|, u[..|u|])
    ensures r == v + u
  {
    assert u[..|u|] == u;
    assert Resized(v, |v| + |u|)[..|v|] == v;
  }

  lemma PrefixOfResized(d: seq<nat>, v: seq<bool>, count: nat)
    requires |v| <= count <= 64 * |d| && Visible(d, count) == Resized(v, count)
    ensures Visible(d, |v|) == v
  {
    forall i | 0 <= i < |v| ensures Visible(d, |v|)[i] == v[i] { assert Visible(d, count)[i] == v[i]; }
  }

  lemma XorVisible(d: seq<nat>, x: seq<nat>, e: seq<nat>, bits: nat)
    requires |d| == |x| == |e| && bits <= 64 * |d|
    requires forall k :: 0 <= k < |d| ==> e[k] == Xor(d[k], x[k])
    ensures Visible(e, bits) == XorSeq(Visible(d, bits), Visible(x, bits))
  {
    forall i | 0 <= i < bits ensures At(e, i) == (At(d, i) != At(x, i)) {
      XorBits(d[i / 64], x[i / 64], i % 64);
    }
  }

  /** Growth over cleared bits, or shrinking, in whatever limbs both memories have. */
  lemma ResizedInPlace(d: seq<nat>, before: nat, e: seq<nat>, count: nat)
    requires before <= 64 * |d| && count <= 64 * |e|
    requires forall k :: 0 <= k < |e| ==> e[k] == if k < |d| then d[k] else 0
    requires count > before ==> forall i :: before <= i < 64 * |d| ==> !At(d, i)
    ensures Visible(e, count) == Resized(Visible(d, before), count)
  {
    forall i | 0 <= i < count ensures At(e, i) == (i < before && At(d, i)) {
      assert e[i / 64] == if i / 64 < |d| then d[i / 64] else 0;
      if i >= 64 * |d| { ZeroBits(i % 64); } else { assert At(e, i) == At(d, i); }
    }
  }

  lemma MovedBehind(d: seq<nat>, x: seq<nat>, e: seq<nat>, n1: nat, n2: nat)
    requires |e| == |d| && n1 % 8 == 0 && n1 + n2 <= 64 * |d| && (n2 + 7) / 8 <= 8 * |x| && n2 <= 64 * |x|
    requires forall i :: 0 <= i < 64 * |d| ==> At(e, i) == Moved(d, n1 / 8, x, 0, (n2 + 7) / 8, i)
    ensures Visible(e, n1 + n2) == Visible(d, n1) + Visible(x, n2)
  {
    var v := Visible(d, n1) + Visible(x, n2);
    forall i | 0 <= i < n1 + n2 ensures Visible(e, n1 + n2)[i] == v[i] {
      assert At(e, i) == Moved(d, n1 / 8, x, 0, (n2 + 7) / 8, i);
    }
  }

  lemma ZeroMemory(d: seq<nat>, bits: nat)
    requires bits <= 64 * |d| && forall k :: 0 <= k < |d| ==> d[k] == 0
    ensures Visible(d, bits) == Resized([], bits)
  {
    forall i | 0 <= i < bits ensures !At(d, i) { ZeroBits(i % 64); }
  }

  lemma SetVisible(d: seq<nat>, bits: nat, index: nat, value: bool, e: seq<nat>)
    requires index < bits <= 64 * |d|
    requires e == d[index / 64 := SetLimb(d[index / 64], index % 64, value)]
    ensures Visible(e, bits) == Visible(d, bits)[index := value]
  {
    forall i | 0 <= i < bits ensures At(e, i) == if i == index then value else At(d, i) {
      SetOneBit(d, index, value, e, i);
    }
  }

  lemma SetOneBit(d: seq<nat>, index: nat, value: bool, e: seq<nat>, i: nat)
    requires index < 64 * |d| && i < 64 * |d|
    requires e == d[index / 64 := SetLimb(d[index / 64], index % 64, value)]
    ensures At(e, i) == if i == index then value else At(d, i)
  {
    AtUpdate(d, index / 64, e[index / 64], i);
    SetLimbBits(d[index / 64], index % 64, value, i % 64);
    SameIndex(i, index);
  }

  lemma LastLimb(i: nat, n: nat, bits: nat)
    requires i < 64 * n && n == Limbs(bits)
    ensures if i / 64 == n - 1 then i % 64 < bits - 64 * (n - 1) <==> i < bits else i < bits
  {
    assert i == 64 * (i / 64) + i % 64;
  }

  lemma SameIndex(i: nat, j: nat)
    ensures i / 64 == j / 64 && i % 64 == j % 64 <==> i == j
  {
    assert i == 64 * (i / 64) + i % 64 && j == 64 * (j / 64) + j % 64;
  }

  /** y is x with its bits from `keep` on cleared. */
  predicate Trimmed(x: nat, y: nat, keep: nat) { forall j :: 0 <= j < 64 ==> Bit(y, j) == (j < keep && Bit(x, j)) }

  lemma TrimmedWord(x: nat, u: nat, w: nat, y: nat)
    requires u <= w == 64 && y == And(x, Shr(Pow2(w) - 1, u))
    ensures Trimmed(x, y, w - u)
  {
    forall j | 0 <= j < 64 ensures Bit(y, j) == (j < w - u && Bit(x, j)) { TrimBits(x, u, w, j); }
  }

  lemma ClearedTail(d: seq<nat>, bits: nat, e: seq<nat>)
    requires 0 < |d| == Limbs(bits) && bits < 64 * |d| && |e| == |d| && e == d[|d| - 1 := e[|d| - 1]]
    requires Trimmed(d[|d| - 1], e[|d| - 1], bits - 64 * (|d| - 1))
    ensures Visible(e, bits) == Visible(d, bits)
    ensures forall i :: bits <= i < 64 * |d| ==> !At(e, i)
  {
    forall i | 0 <= i < 64 * |d| ensures At(e, i) == (i < bits && At(d, i)) {
      AtUpdate(d, |d| - 1, e[|d| - 1], i);
      LastLimb(i, |d|, bits);
    }
  }
}
