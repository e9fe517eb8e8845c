/** `buf_t`: up to 36 bytes inside the object, or a heap array the object owns, and views into either
    (`mem_t`).

    The heap is explicit: an array can only be deleted while it is live, and `Owned` says that the
    live arrays are exactly the ones of the long buffers, one each. Every operation keeps it.
 */
module Buffers {
  import opened CInt
  import opened Sequences
  import opened Wire

  const SHORT := 36

  class Heap {
    var blocks: map<nat, Bytes>
    var next: nat
    ghost var owner: map<nat, Buf>

    ghost constructor ()
      ensures Sound() && blocks == map[]
    {
      blocks, next, owner := map[], 1, map[];
    }

    ghost predicate Sound()
      reads this
    {
      owner.Keys == blocks.Keys && forall p :: p in blocks ==> p < next
    }

    /** new byte_t[n]: an array that was not live, with some contents. */
    method New(n: nat, ghost b: Buf) returns (p: nat)
      requires Sound()
      modifies this
      ensures Sound() && p !in old(blocks) && owner == old(owner)[p := b]
      ensures p in blocks && |blocks[p]| == n && blocks == old(blocks)[p := blocks[p]]
    {
      p := next;
      blocks, next := blocks[p := seq(n, _ => 0)], next + 1;
      owner := owner[p := b];
    }

    /** memmove into a live array. */
    method Store(p: nat, at: nat, b: Bytes)
      requires Sound() && p in blocks && at + |b| <= |blocks[p]|
      modifies this`blocks
      ensures Sound() && blocks == old(blocks)[p := Splice(old(blocks[p]), at, b)]
    {
      blocks := blocks[p := Splice(blocks[p], at, b)];
    }

    /** A new array with as many of the old bytes as fit; the old one is deleted. */
    method Renew(q: nat, n: nat, ghost b: Buf) returns (p: nat)
      requires Sound() && q in blocks
      modifies this
      ensures Sound() && p !in old(blocks) && owner == old(owner)[p := b] - {q}
      ensures p in blocks && |blocks[p]| == n && PrefixKept(old(blocks[q]), blocks[p])
      ensures blocks == old(blocks)[p := blocks[p]] - {q}
    {
      p := New(n, b);
      var k := if |blocks[q]| < n then |blocks[q]| else n;
      Store(p, 0, blocks[q][..k]);
      Delete(q);
    }

    /** delete[]: only for a live array. */
    method Delete(p: nat)
      requires Sound() && p in blocks
      modifies this
      ensures Sound() && blocks == old(blocks) - {p} && owner == old(owner) - {p}
    {
      blocks := blocks - {p};
      owner := owner - {p};
    }
  }

  /** The shorter of two byte strings is a prefix of the other. */
  predicate PrefixKept(a: Bytes, b: Bytes) { if |a| <= |b| then b[..|a|] == a else a[..|b|] == b }

  /** A place bytes can be viewed at: inside a buffer object, in a heap array, or elsewhere. */
  datatype Place = Inline(b: Buf) | Array(p: nat) | Elsewhere(cells: Bytes)

  datatype View = View(place: Place, off: nat, size: nat)

  /** The buffer object a view points into, if it does. */
  function Holder(v: View): set<Buf>
  {
    match v.place
    case Inline(b) => {b}
    case Array(_) => {}
    case Elsewhere(_) => {}
  }

  /** The view points into memory that exists. */
  ghost predicate Dereferenceable(h: Heap, v: View)
    reads h, Holder(v)
  {
    match v.place
    case Inline(b) => b.s <= SHORT && v.off + v.size <= |b.m|
    case Array(p) => p in h.blocks && v.off + v.size <= |h.blocks[p]|
    case Elsewhere(c) => v.off + v.size <= |c|
  }

  /** The bytes a view shows now. */
  function Shown(h: Heap, v: View): (s: Bytes)
    requires Dereferenceable(h, v)
    reads h, Holder(v)
    ensures |s| == v.size
  {
    match v.place
    case Inline(b) => b.m[v.off..v.off + v.size]
    case Array(p) => h.blocks[p][v.off..v.off + v.size]
    case Elsewhere(c) => c[v.off..v.off + v.size]
  }

  /** Every buffer has its storage, and every live heap array exactly one owner among the buffers. */
  ghost predicate Owned(h: Heap, all: set<Buf>)
    reads h, all
  {
    && h.Sound()
    && (forall b :: b in all ==> BufOk(h, b))
    && (forall p :: p in h.blocks ==> h.owner[p] in all && h.owner[p].s > SHORT && h.owner[p].ptr == p)
  }

  ghost predicate BufOk(h: Heap, b: Buf)
    requires h.Sound()
    reads h, b
  {
    && |b.m| == SHORT && b.s <= INT_MAX
    && (b.s > SHORT ==> b.ptr in h.blocks && |h.blocks[b.ptr]| == b.s && h.owner[b.ptr] == b)
  }

  /** All buffers but one show the same bytes as before. */
  twostate predicate OthersSame(h: Heap, all: set<Buf>, me: Buf)
    requires old(Owned(h, all)) && Owned(h, all)
    reads h, all
  {
    forall b :: b in all && b != me ==> b.Value(h) == old(b.Value(h))
  }

  class Buf {
    var m: Bytes
    var ptr: nat
    var s: nat

    /** The bytes of the buffer. */
    function Value(h: Heap): Bytes
      requires |m| == SHORT && (s > SHORT ==> ptr in h.blocks)
      reads this, h
    {
      if s <= SHORT then m[..s] else h.blocks[ptr]
    }

    constructor ()
      ensures s == 0 && |m| == SHORT
    {
      m, ptr, s := seq(SHORT, _ => 0), 0, 0;
    }

    /** data(). */
    function Data(): Place
      reads this
    {
      if s <= SHORT then Inline(this) else Array(ptr)
    }

    method Free(h: Heap, ghost all: set<Buf>)
      requires Owned(h, all) && this in all
      modifies this, h
      ensures Owned(h, all) && s == 0 && OthersSame(h, all, this)
      ensures h.blocks == if old(s) > SHORT then old(h.blocks) - {old(ptr)} else old(h.blocks)
    {
      if s > SHORT { h.Delete(ptr); }
      s := 0;
    }

    /** A new heap array for a buffer that owns none. */
    method NewArray(h: Heap, ghost all: set<Buf>, n: nat)
      requires Owned(h, all) && this in all && s <= SHORT && SHORT < n <= INT_MAX
      modifies this`ptr, this`s, h
      ensures Owned(h, all) && s == n && OthersSame(h, all, this)
    {
      var p := h.New(n, this);
      ptr, s := p, n;
      forall b | b in all && b != this ensures BufOk(h, b) && b.Value(h) == old(b.Value(h)) {
        assert old(BufOk(h, b));
      }
    }

    // ------------------------------------------------------------ resize

    method ShortToShort(h: Heap, ghost all: set<Buf>, n: nat)
      requires Owned(h, all) && this in all && s <= SHORT && n <= SHORT
      modifies this
      ensures Owned(h, all) && s == n && OthersSame(h, all, this)
      ensures PrefixKept(old(Value(h)), Value(h))
    {
      s := n;
    }

    method ShortToLong(h: Heap, ghost all: set<Buf>, n: nat)
      requires Owned(h, all) && this in all && s <= SHORT && SHORT < n <= INT_MAX
      modifies this, h
      ensures Owned(h, all) && s == n && OthersSame(h, all, this)
      ensures PrefixKept(old(Value(h)), Value(h))
    {
      var b := m[..s];
      NewArray(h, all, n);
      Write(h, all, 0, b);
    }

    method LongToShort(h: Heap, ghost all: set<Buf>, n: nat)
      requires Owned(h, all) && this in all && s > SHORT && n <= SHORT
      modifies this, h
      ensures Owned(h, all) && s == n && OthersSame(h, all, this)
      ensures PrefixKept(old(Value(h)), Value(h))
    {
      m := Splice(m, 0, h.blocks[ptr][..n]);
      h.Delete(ptr);
      s := n;
    }

    method LongToLong(h: Heap, ghost all: set<Buf>, n: nat)
      requires Owned(h, all) && this in all && s > SHORT && SHORT < n <= INT_MAX
      modifies this, h
      ensures Owned(h, all) && s == n && OthersSame(h, all, this)
      ensures PrefixKept(old(Value(h)), Value(h))
    {
      assert BufOk(h, this);
      var p := h.Renew(ptr, n, this);
      ptr, s := p, n;
      forall b | b in all && b != this ensures BufOk(h, b) && b.Value(h) == old(b.Value(h)) {
        assert old(BufOk(h, b));
      }
    }

    method Resize(h: Heap, ghost all: set<Buf>, n: nat)
      requires Owned(h, all) && this in all && n <= INT_MAX
      modifies this, h
      ensures Owned(h, all) && s == n && OthersSame(h, all, this)
      ensures PrefixKept(old(Value(h)), Value(h))
    {
      if s == n { return; }
      if s <= SHORT {
        if n <= SHORT { ShortToShort(h, all, n); } else { ShortToLong(h, all, n); }
      } else if n <= SHORT {
        LongToShort(h, all, n);
      } else {
        LongToLong(h, all, n);
      }
    }

    /** alloc: the old contents are dropped and the new ones are unspecified. */
    method Alloc(h: Heap, ghost all: set<Buf>, n: nat)
      requires Owned(h, all) && this in all && n <= INT_MAX
      modifies this, h
      ensures Owned(h, all) && s == n && OthersSame(h, all, this)
    {
      if s == n { return; }
      Free(h, all);
      if n <= SHORT {
        s := n;
      } else {
        NewArray(h, all, n);
      }
    }

    // ------------------------------------------------------------ assignment

    /** assign_short and assign_long from a view, on a buffer that owns nothing. */
    method Load(h: Heap, ghost all: set<Buf>, v: View)
      requires Owned(h, all) && this in all && s == 0 && v.size <= INT_MAX
      requires Dereferenceable(h, v) && v.place != Inline(this)
      modifies this, h
      ensures Owned(h, all) && Value(h) == old(Shown(h, v)) && OthersSame(h, all, this)
    {
      var b := Shown(h, v);
      MakeRoom(h, all, v.size);
      Write(h, all, 0, b);
    }

    /** Room for n bytes in an empty buffer. */
    method MakeRoom(h: Heap, ghost all: set<Buf>, n: nat)
      requires Owned(h, all) && this in all && s == 0 && n <= INT_MAX
      modifies this, h
      ensures Owned(h, all) && s == n && OthersSame(h, all, this)
    {
      if n <= SHORT {
        assert BufOk(h, this);
        s := n;
        forall b | b in all && b != this ensures BufOk(h, b) && b.Value(h) == old(b.Value(h)) {
          assert old(BufOk(h, b));
        }
      } else {
        NewArray(h, all, n);
      }
    }

    /** buf_t(mem_t). */
    constructor FromView(h: Heap, ghost all: set<Buf>, v: View)
      requires Owned(h, all) && Dereferenceable(h, v) && v.size <= INT_MAX
      modifies h
      ensures this !in all && Owned(h, all + {this}) && Value(h) == old(Shown(h, v))
      ensures forall b :: b in all ==> b.s == old(b.s) && b.m == old(b.m) && b.Value(h) == old(b.Value(h))
    {
      m, ptr, s := seq(SHORT, _ => 0), 0, 0;
      new;
      Load(h, all + {this}, v);
    }

    /** operator=(const buf_t&). */
    method CopyAssign(h: Heap, ghost all: set<Buf>, src: Buf)
      requires Owned(h, all) && this in all && src in all
      modifies this, h
      ensures Owned(h, all) && Value(h) == old(src.Value(h)) && OthersSame(h, all, this)
    {
      if this == src { return; }
      Free(h, all);
      Load(h, all, View(src.Data(), 0, src.s));
    }

    /** operator=(buf_t&&): a heap array changes its owner, and the source becomes empty. */
    method MoveAssign(h: Heap, ghost all: set<Buf>, src: Buf)
      requires Owned(h, all) && this in all && src in all
      modifies this, h, src
      ensures Owned(h, all) && Value(h) == old(src.Value(h))
      ensures forall b :: b in all && b != this && b != src ==> b.Value(h) == old(b.Value(h))
      ensures src != this ==> src.s == if old(src.s) > SHORT then 0 else old(src.s)
    {
      if src == this { return; }
      Free(h, all);
      if src.s <= SHORT {
        CopyShort(h, all, src);
      } else {
        Adopt(h, all, src);
      }
    }

    /** The inline bytes of a short source. */
    method CopyShort(h: Heap, ghost all: set<Buf>, src: Buf)
      requires Owned(h, all) && this in all && src in all && src != this && s == 0 && src.s <= SHORT
      modifies this`m, this`s
      ensures Owned(h, all) && Value(h) == old(src.Value(h))
      ensures forall b :: b in all && b != this ==> b.Value(h) == old(b.Value(h))
    {
      assert BufOk(h, src);
      m, s := src.m, src.s;
      forall b | b in all && b != this ensures BufOk(h, b) && b.Value(h) == old(b.Value(h)) {
        assert old(BufOk(h, b));
      }
    }

    method Adopt(h: Heap, ghost all: set<Buf>, src: Buf)
      requires Owned(h, all) && this in all && src in all && src != this && s == 0 && src.s > SHORT
      modifies this`ptr, this`s, h`owner, src`s
      ensures Owned(h, all) && Value(h) == old(src.Value(h)) && src.s == 0
      ensures forall b :: b in all && b != this && b != src ==> b.Value(h) == old(b.Value(h))
    {
      assert BufOk(h, src);
      h.owner := h.owner[src.ptr := this];
      ptr, s := src.ptr, src.s;
      src.s := 0;
      forall b | b in all && b != this && b != src ensures BufOk(h, b) && b.Value(h) == old(b.Value(h)) {
        assert old(BufOk(h, b));
      }
    }

    /** The destructor of a temporary. */
    method Destroy(h: Heap, ghost all: set<Buf>)
      requires this !in all && Owned(h, all + {this})
      modifies this, h
      ensures Owned(h, all) && forall b :: b in all ==> b.Value(h) == old(b.Value(h))
    {
      Free(h, all + {this});
    }

    /** operator=(mem_t): right also when the view shows part of this very buffer. */
    method AssignView(h: Heap, ghost all: set<Buf>, v: View)
      requires Owned(h, all) && this in all && Dereferenceable(h, v) && v.size <= INT_MAX
      modifies this, h
      ensures Owned(h, all) && Value(h) == old(Shown(h, v)) && OthersSame(h, all, this)
    {
      if s == v.size && v.place == Data() && v.off == 0 { return; }
      var tmp := new Buf.FromView(h, all, v);
      MoveAssign(h, all + {tmp}, tmp);
      tmp.Destroy(h, all);
    }

    /** memmove into this buffer. */
    method Write(h: Heap, ghost all: set<Buf>, at: nat, b: Bytes)
      requires Owned(h, all) && this in all && at + |b| <= s
      modifies this`m, h`blocks
      ensures Owned(h, all) && s == old(s) && Value(h) == Splice(old(Value(h)), at, b) && OthersSame(h, all, this)
    {
      if s <= SHORT { m := Splice(m, at, b); } else { h.Store(ptr, at, b); }
    }

    /** operator+=(mem_t): right also when the view shows part of this very buffer. */
    method AppendView(h: Heap, ghost all: set<Buf>, v: View)
      requires Owned(h, all) && this in all && Dereferenceable(h, v) && s + v.size <= INT_MAX
      modifies this, h
      ensures Owned(h, all) && Value(h) == old(Value(h)) + old(Shown(h, v)) && OthersSame(h, all, this)
    {
      var tmp := new Buf.FromView(h, all, v);
      var k := s;
      ghost var before, tail := Value(h), tmp.Value(h);
      Resize(h, all + {tmp}, k + tmp.s);
      ghost var grown := Value(h);
      Write(h, all + {tmp}, k, tmp.Value(h));
      SplicedTail(before, grown, tail);
      tmp.Destroy(h, all);
    }
  }

  lemma SplicedTail(a: Bytes, b: Bytes, tail: Bytes)
    requires PrefixKept(a, b) && |b| == |a| + |tail|
    ensures Splice(b, |a|, tail) == a + tail
  {
  }
}
