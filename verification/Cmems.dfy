/** Flattened lists of buffers at the C boundary (`alloc_cmems_from_bufs`, `view_cmems`, and the
    `receive_all` of the callback transport): one array of sizes and one of bytes, both allocated.
 */
module Cmems {
  import opened CInt
  import opened Wire
  import opened Counting
  import Errors

  /** The C heap: what the live blocks hold, seen as ints and as bytes (one block may be seen both
      ways), and how often a block was freed that was no longer live.
   */
  class CHeap {
    var ints: map<nat, seq<int>>
    var bytes: map<nat, Bytes>
    var next: nat
    var freedAgain: nat

    constructor (ints: map<nat, seq<int>>, bytes: map<nat, Bytes>, next: nat)
      requires forall p :: p in ints || p in bytes ==> 0 < p < next
      requires next > 0
      ensures Valid() && this.ints == ints && this.bytes == bytes && freedAgain == 0
    {
      this.ints, this.bytes, this.next, freedAgain := ints, bytes, next, 0;
    }

    ghost predicate Valid()
      reads this
    {
      && (forall p :: p in ints ==> 0 < p < next)
      && (forall p :: p in bytes ==> 0 < p < next)
      && next > 0
    }

    ghost predicate Live(p: nat)
      reads this
    {
      p in ints || p in bytes
    }

    /** cbmpc_malloc, which answers null when it is not granted. */
    method MallocInts(n: nat, granted: bool) returns (p: nat)
      requires Valid()
      modifies this`ints, this`next
      ensures Valid() && (p == 0 <==> !granted)
      ensures p == 0 ==> ints == old(ints)
      ensures p != 0 ==> !old(Live(p)) && p in ints && |ints[p]| == n && ints == old(ints)[p := ints[p]]
    {
      if !granted { return 0; }
      p := next;
      ints, next := ints[p := seq(n, _ => 0)], next + 1;
    }

    method MallocBytes(n: nat, granted: bool) returns (p: nat)
      requires Valid()
      modifies this`bytes, this`next
      ensures Valid() && (p == 0 <==> !granted)
      ensures p == 0 ==> bytes == old(bytes)
      ensures p != 0 ==> !old(Live(p)) && p in bytes && |bytes[p]| == n && bytes == old(bytes)[p := bytes[p]]
    {
      if !granted { return 0; }
      p := next;
      bytes, next := bytes[p := seq(n, _ => 0)], next + 1;
    }

    /** transport_free and cbmpc_free: nothing for null. */
    method Free(p: nat)
      requires Valid()
      modifies this`ints, this`bytes, this`freedAgain
      ensures Valid() && ints == old(ints) - {p} && bytes == old(bytes) - {p}
      ensures freedAgain == old(freedAgain) + if p == 0 || old(Live(p)) then 0 else 1
    {
      if p == 0 {
        assert ints == ints - {p} && bytes == bytes - {p};
        return;
      }
      if p !in ints && p !in bytes { freedAgain := freedAgain + 1; }
      ints, bytes := ints - {p}, bytes - {p};
    }
  }

  datatype Cmems = Cmems(count: int, data: nat, sizes: nat)

  const NO_CMEMS := Cmems(0, 0, 0)

  // ---------------------------------------------------------------- lists and their flattening

  function Sizes(bufs: seq<Bytes>): (s: seq<int>)
    ensures |s| == |bufs| && forall i :: 0 <= i < |s| ==> s[i] == |bufs[i]|
  {
    seq(|bufs|, i requires 0 <= i < |bufs| => |bufs[i]|)
  }

  function Flat(bufs: seq<Bytes>): (b: Bytes)
    ensures |b| == SumInt(Sizes(bufs))
  {
    if bufs == [] then [] else
      assert Sizes(bufs)[..|bufs| - 1] == Sizes(bufs[..|bufs| - 1]);
      Flat(bufs[..|bufs| - 1]) + bufs[|bufs| - 1]
  }

  predicate Natural(sizes: seq<int>) { forall i :: 0 <= i < |sizes| ==> sizes[i] >= 0 }

  lemma {:induction false} SumPrefix(sizes: seq<int>, i: nat)
    requires Natural(sizes) && i <= |sizes|
    ensures 0 <= SumInt(sizes[..i]) <= SumInt(sizes)
    decreases |sizes|
  {
    if i < |sizes| {
      SumPrefix(sizes[..|sizes| - 1], i);
      assert sizes[..|sizes| - 1][..i] == sizes[..i];
    } else {
      assert sizes[..i] == sizes;
      if sizes != [] {
        var front := sizes[..|sizes| - 1];
        SumPrefix(front, |front|);
        assert front[..|front|] == front;
      }
    }
  }

  /** The data cut at the running sums of the sizes. */
  function Split(sizes: seq<int>, data: Bytes): (bufs: seq<Bytes>)
    requires Natural(sizes) && SumInt(sizes) <= |data|
    ensures |bufs| == |sizes|
  {
    if sizes == [] then [] else
      var k := |sizes| - 1;
      SumPrefix(sizes, k);
      Split(sizes[..k], data) + [data[SumInt(sizes[..k])..SumInt(sizes)]]
  }

  lemma {:induction false} SplitMore(sizes: seq<int>, data: Bytes, tail: Bytes)
    requires Natural(sizes) && SumInt(sizes) <= |data|
    ensures Split(sizes, data + tail) == Split(sizes, data)
    decreases |sizes|
  {
    if sizes != [] {
      var k := |sizes| - 1;
      SumPrefix(sizes, k);
      SplitMore(sizes[..k], data, tail);
      var a, b := SumInt(sizes[..k]), SumInt(sizes);
      assert (data + tail)[a..b] == data[a..b];
    }
  }

  /** Splitting a flattened list gives the list back. */
  lemma {:induction false} SplitFlat(bufs: seq<Bytes>)
    ensures Natural(Sizes(bufs)) && Split(Sizes(bufs), Flat(bufs)) == bufs
    decreases |bufs|
  {
    if bufs == [] {
      assert Sizes(bufs) == [];
    } else {
      var k := |bufs| - 1;
      var front, last := bufs[..k], bufs[k];
      SplitFlat(front);
      assert bufs == front + [last];
      SplitFlatSnoc(front, last);
    }
  }

  lemma SplitFlatSnoc(front: seq<Bytes>, last: Bytes)
    requires Split(Sizes(front), Flat(front)) == front
    ensures Split(Sizes(front + [last]), Flat(front + [last])) == front + [last]
  {
    var all, k := front + [last], |front|;
    assert all[..k] == front && Sizes(all)[..k] == Sizes(front);
    var f := Flat(front);
    assert Flat(all) == f + last;
    SplitMore(Sizes(front), f, last);
    assert (f + last)[|f|..|f| + |last|] == last;
  }

  /** The outcome of adding sizes up: the total, or what stopped it. */
  datatype Verdict = Total(sum: nat) | Negative | TooBig

  /** The sizes before position i are fine and the one at i is what v says. */
  predicate StoppedAt(sizes: seq<int>, i: nat, v: Verdict)
  {
    && i < |sizes| && Natural(sizes[..i]) && SumInt(sizes[..i]) <= INT_MAX
    && (v.Negative? <==> sizes[i] < 0) && (v.TooBig? <==> sizes[i] > INT_MAX - SumInt(sizes[..i]))
  }

  /** The running total of the checks: it stops at the first negative size or overflow. */
  method CheckTotal(sizes: seq<int>) returns (v: Verdict, ghost at: nat)
    ensures v.Total? <==> Natural(sizes) && SumInt(sizes) <= INT_MAX
    ensures if v.Total? then v.sum == SumInt(sizes) else StoppedAt(sizes, at, v)
  {
    var total: nat := 0;
    at := 0;
    for i := 0 to |sizes|
      invariant Natural(sizes[..i]) && total == SumInt(sizes[..i]) <= INT_MAX
    {
      assert sizes[..i + 1][..i] == sizes[..i];
      assert sizes[i] == sizes[..i + 1][i];
      if sizes[i] < 0 { return Negative, i; }
      if sizes[i] > INT_MAX - total {
        if Natural(sizes) { SumPrefix(sizes, i + 1); }
        return TooBig, i;
      }
      total := total + sizes[i];
    }
    assert sizes[..|sizes|] == sizes;
    v := Total(total);
  }

  // ---------------------------------------------------------------- alloc_cmems_from_bufs and view_cmems

  /** The arrays hold the flattening of bufs; an empty array is null. */
  ghost predicate Holds(h: CHeap, c: Cmems, bufs: seq<Bytes>)
    reads h
  {
    && c.count == |bufs|
    && (if bufs == [] then c.sizes == 0 else c.sizes != 0 && c.sizes in h.ints && h.ints[c.sizes] == Sizes(bufs))
    && (if Flat(bufs) == [] then c.data == 0 else c.data != 0 && c.data in h.bytes && h.bytes[c.data] == Flat(bufs))
  }

  predicate Fits(bufs: seq<Bytes>, grants: nat -> bool)
  {
    |bufs| <= INT_MAX && |Flat(bufs)| <= INT_MAX && grants(0) && (Flat(bufs) != [] ==> grants(1))
  }

  /** On success the result holds the list; otherwise nothing stays allocated. Arrays that were live
      before are untouched either way. `grants(k)` says whether the k-th allocation succeeds. */
  method AllocCmems(h: CHeap, bufs: seq<Bytes>, hasOut: bool, grants: nat -> bool) returns (rv: int, out: Cmems)
    requires h.Valid()
    modifies h
    ensures h.Valid() && h.freedAgain == old(h.freedAgain)
    ensures rv == Errors.SUCCESS <==> hasOut && (bufs == [] || Fits(bufs, grants))
    ensures rv == Errors.SUCCESS ==> Holds(h, out, bufs)
    ensures rv != Errors.SUCCESS ==> out == NO_CMEMS && h.ints == old(h.ints) && h.bytes == old(h.bytes)
    ensures h.ints - {out.sizes} == old(h.ints) && h.bytes - {out.data} == old(h.bytes)
  {
    NullNotLive(h);
    out := NO_CMEMS;
    if !hasOut { return Errors.E_BADARG, out; }
    if bufs == [] { return Errors.SUCCESS, out; }
    if |bufs| > INT_MAX { return Errors.E_RANGE, out; }
    var v, at := CheckTotal(Sizes(bufs));
    if v.Negative? { return Errors.E_FORMAT, out; }
    if v.TooBig? { return Errors.E_RANGE, out; }
    var sizes := h.MallocInts(|bufs|, grants(0));
    if sizes == 0 { return Errors.E_INSUFFICIENT, out; }
    var data := 0;
    if v.sum > 0 {
      data := h.MallocBytes(v.sum, grants(1));
      if data == 0 {
        h.Free(sizes);
        return Errors.E_INSUFFICIENT, out;
      }
    }
    NullNotLive(h);
    Fill(h, sizes, data, bufs);
    out := Cmems(|bufs|, data, sizes);
    rv := Errors.SUCCESS;
  }

  lemma NullNotLive(h: CHeap)
    requires h.Valid()
    ensures h.ints - {0} == h.ints && h.bytes - {0} == h.bytes
  {
  }

  /** The first i buffers have been copied. */
  predicate Filled(bufs: seq<Bytes>, i: nat, offset: nat, s: seq<int>, d: Bytes)
    requires i <= |bufs|
  {
    && |s| == |bufs| && |d| == |Flat(bufs)| && offset == |Flat(bufs[..i])| <= |d|
    && s[..i] == Sizes(bufs[..i]) && d[..offset] == Flat(bufs[..i])
  }

  /** The copy loop, on the contents of the two arrays. */
  method CopyAll(bufs: seq<Bytes>, s0: seq<int>, d0: Bytes) returns (s: seq<int>, d: Bytes)
    requires |s0| == |bufs| && |d0| == |Flat(bufs)|
    ensures s == Sizes(bufs) && d == Flat(bufs)
  {
    var offset: nat := 0;
    s, d := s0, d0;
    for i := 0 to |bufs|
      invariant Filled(bufs, i, offset, s, d)
    {
      var sz := |bufs[i]|;
      FlatNext(bufs, i);
      CopyNext(bufs, i, offset, s, d);
      s := s[i := sz];
      if sz != 0 {
        d := d[..offset] + bufs[i] + d[offset + sz..];
        offset := offset + sz;
      }
    }
    assert bufs[..|bufs|] == bufs && s[..|bufs|] == s && d[..|d|] == d;
  }

  lemma CopyNext(bufs: seq<Bytes>, i: nat, offset: nat, s: seq<int>, d: Bytes)
    requires i < |bufs| && Filled(bufs, i, offset, s, d) && offset + |bufs[i]| <= |d|
    ensures Filled(bufs, i + 1, offset + |bufs[i]|, s[i := |bufs[i]|], d[..offset] + bufs[i] + d[offset + |bufs[i]|..])
    ensures bufs[i] == [] ==> d[..offset] + bufs[i] + d[offset + |bufs[i]|..] == d
  {
    var e := d[..offset] + bufs[i] + d[offset + |bufs[i]|..];
    assert e[..offset + |bufs[i]|] == d[..offset] + bufs[i];
    FlatNext(bufs, i);
    assert s[i := |bufs[i]|][..i + 1] == s[..i] + [|bufs[i]|];
  }

  method Fill(h: CHeap, sizes: nat, data: nat, bufs: seq<Bytes>)
    requires h.Valid() && sizes in h.ints && |h.ints[sizes]| == |bufs|
    requires if Flat(bufs) == [] then data == 0 else data in h.bytes && |h.bytes[data]| == |Flat(bufs)|
    modifies h`ints, h`bytes
    ensures h.Valid() && h.ints == old(h.ints)[sizes := Sizes(bufs)]
    ensures h.bytes == if data == 0 then old(h.bytes) else old(h.bytes)[data := Flat(bufs)]
  {
    var s, d := CopyAll(bufs, h.ints[sizes], if data == 0 then [] else h.bytes[data]);
    h.ints := h.ints[sizes := s];
    if data != 0 { h.bytes := h.bytes[data := d]; }
  }

  lemma FlatNext(bufs: seq<Bytes>, i: nat)
    requires i < |bufs|
    ensures Flat(bufs[..i + 1]) == Flat(bufs[..i]) + bufs[i]
    ensures |Flat(bufs[..i + 1])| <= |Flat(bufs)|
    ensures Sizes(bufs[..i + 1]) == Sizes(bufs[..i]) + [|bufs[i]|]
  {
    assert bufs[..i + 1][..i] == bufs[..i];
    assert Sizes(bufs)[..i + 1] == Sizes(bufs[..i + 1]);
    SumPrefix(Sizes(bufs), i + 1);
  }

  /** What a caller of the C interface promises: the arrays are live where the sizes say. */
  ghost predicate Promised(h: CHeap, c: Cmems)
    reads h
  {
    && (c.count > 0 && c.sizes != 0 ==> c.sizes in h.ints && |h.ints[c.sizes]| == c.count)
    && (c.count > 0 && c.sizes != 0 && c.data != 0 && Viewable(h, c) ==>
          c.data in h.bytes && SumInt(h.ints[c.sizes]) <= |h.bytes[c.data]|)
  }

  /** A list that can be viewed. */
  ghost predicate Viewable(h: CHeap, c: Cmems)
    reads h
  {
    c.count >= 0 && (c.count > 0 ==>
      && c.sizes != 0 && c.sizes in h.ints && Natural(h.ints[c.sizes]) && SumInt(h.ints[c.sizes]) <= INT_MAX
      && (SumInt(h.ints[c.sizes]) > 0 ==> c.data != 0))
  }

  /** The list a viewable pair of arrays denotes. */
  ghost function Listed(h: CHeap, c: Cmems): seq<Bytes>
    requires Promised(h, c) && Viewable(h, c)
    reads h
  {
    if c.count == 0 then [] else Split(h.ints[c.sizes], if c.data == 0 then [] else h.bytes[c.data])
  }

  /** mem_t: a pointer into the data array, or null for an empty piece. */
  datatype Slice = Slice(data: nat, offset: nat, size: nat)

  ghost predicate InBounds(h: CHeap, v: Slice)
    reads h
  {
    v.size > 0 ==> v.data in h.bytes && v.offset + v.size <= |h.bytes[v.data]|
  }

  function Shown(h: CHeap, v: Slice): Bytes
    requires InBounds(h, v)
    reads h
  {
    if v.size == 0 then [] else h.bytes[v.data][v.offset..v.offset + v.size]
  }

  /** The views, in order, show the list. */
  ghost predicate Shows(h: CHeap, vs: seq<Slice>, bufs: seq<Bytes>)
    reads h
  {
    |vs| == |bufs| && forall i :: 0 <= i < |vs| ==> InBounds(h, vs[i]) && Shown(h, vs[i]) == bufs[i]
  }

  method ViewCmems(h: CHeap, c: Cmems) returns (rv: int, vs: seq<Slice>)
    requires h.Valid() && Promised(h, c)
    ensures rv == Errors.SUCCESS <==> Viewable(h, c)
    ensures if rv == Errors.SUCCESS then Shows(h, vs, Listed(h, c)) else vs == []
    ensures rv == Errors.E_RANGE <==>
              c.count > 0 && c.sizes != 0 && exists i: nat :: StoppedAt(h.ints[c.sizes], i, TooBig)
  {
    vs := [];
    if c.count < 0 { return Errors.E_BADARG, vs; }
    if c.count == 0 { return Errors.SUCCESS, vs; }
    if c.sizes == 0 { return Errors.E_BADARG, vs; }
    var sizes := h.ints[c.sizes];
    var v, at := CheckTotal(sizes);
    OneStop(sizes, v, at);
    if v.Negative? { return Errors.E_BADARG, vs; }
    if v.TooBig? { return Errors.E_RANGE, vs; }
    if v.sum > 0 && c.data == 0 { return Errors.E_BADARG, vs; }
    vs := Cut(h, sizes, c.data, if c.data == 0 then [] else h.bytes[c.data]);
    rv := Errors.SUCCESS;
  }

  /** A total that goes past position i without overflow did not stop there. */
  lemma GoesOn(sizes: seq<int>, i: nat, j: nat)
    requires i < j <= |sizes| && Natural(sizes[..j]) && SumInt(sizes[..j]) <= INT_MAX
    ensures 0 <= sizes[i] <= INT_MAX - SumInt(sizes[..i])
  {
    var s := sizes[..j];
    assert s[i] == sizes[i];
    SumPrefix(s, i + 1);
    assert s[..i + 1] == sizes[..i + 1] && sizes[..i + 1][..i] == sizes[..i];
  }

  /** The additions overflow exactly when the verdict says so. */
  lemma OneStop(sizes: seq<int>, v: Verdict, at: nat)
    requires v.Total? <==> Natural(sizes) && SumInt(sizes) <= INT_MAX
    requires !v.Total? ==> StoppedAt(sizes, at, v)
    ensures v.TooBig? <==> exists i: nat :: StoppedAt(sizes, i, TooBig)
  {
    forall i: nat | StoppedAt(sizes, i, TooBig) ensures v.TooBig? {
      assert sizes[..|sizes|] == sizes;
      if v.Total? {
        GoesOn(sizes, i, |sizes|);
      } else if at < i {
        GoesOn(sizes, at, i);
      } else if i < at {
        GoesOn(sizes, i, at);
      }
    }
  }

  /** The second loop: one view for each size at the running offset. */
  method Cut(h: CHeap, sizes: seq<int>, data: nat, ghost d: Bytes) returns (vs: seq<Slice>)
    requires Natural(sizes) && SumInt(sizes) <= |d| && (SumInt(sizes) > 0 ==> data in h.bytes && h.bytes[data] == d)
    ensures Shows(h, vs, Split(sizes, d))
  {
    vs := [];
    var offset: nat := 0;
    SumPrefix(sizes, 0);
    for i := 0 to |sizes|
      invariant |vs| == i && offset == SumInt(sizes[..i]) <= SumInt(sizes)
      invariant Natural(sizes[..i]) && Shows(h, vs, Split(sizes[..i], d))
    {
      SplitNext(sizes, i, d);
      var sz := sizes[i];
      if sz == 0 {
        vs := vs + [Slice(0, 0, 0)];
      } else {
        vs := vs + [Slice(data, offset, sz)];
        offset := offset + sz;
      }
    }
    assert sizes[..|sizes|] == sizes;
  }

  lemma SplitNext(sizes: seq<int>, i: nat, d: Bytes)
    requires i < |sizes| && Natural(sizes) && SumInt(sizes) <= |d|
    ensures var a := SumInt(sizes[..i]);
            && 0 <= a && SumInt(sizes[..i + 1]) == a + sizes[i] <= SumInt(sizes) && Natural(sizes[..i + 1])
            && Split(sizes[..i + 1], d) == Split(sizes[..i], d) + [d[a..a + sizes[i]]]
  {
    var s, t, v := sizes[..i + 1], sizes[..i], sizes[i];
    assert s == t + [v];
    SumPrefix(sizes, i);
    SumPrefix(sizes, i + 1);
    SumSnoc(t, v);
    SplitSnoc(s, t, v, SumInt(t), d);
  }

  lemma SplitSnoc(s: seq<int>, t: seq<int>, v: int, a: int, d: Bytes)
    requires s == t + [v] && Natural(s) && Natural(t) && v >= 0
    requires a == SumInt(t) && SumInt(s) == a + v && 0 <= a && a + v <= |d|
    ensures Split(s, d) == Split(t, d) + [d[a..a + v]]
  {
    assert s[..|s| - 1] == t;
  }

  /** Viewing what was allocated for a list shows the list. */
  method FlattenAndView(h: CHeap, bufs: seq<Bytes>, c: Cmems) returns (rv: int, vs: seq<Slice>)
    requires h.Valid() && Holds(h, c, bufs) && |Flat(bufs)| <= INT_MAX
    ensures rv == Errors.SUCCESS && Shows(h, vs, bufs)
  {
    SplitFlat(bufs);
    if bufs == [] { assert Sizes(bufs) == []; }
    rv, vs := ViewCmems(h, c);
  }

  // ---------------------------------------------------------------- receive_all of the callback transport

  /** What a callback that succeeded must have left for the adapter to accept it. */
  ghost predicate Deliverable(h: CHeap, c: Cmems, senders: nat)
    reads h
  {
    c.count == senders && Viewable(h, c)
  }

  /** Null, or a block the callback allocated. */
  ghost predicate Given(h: CHeap, p: nat)
    reads h
  {
    p == 0 || h.Live(p)
  }

  /** c_transport_adapter_t::receive_all after the callback returned cbRv and c, whose two pointers
      may be one: on every path both are dead afterwards, and a block is freed twice exactly when
      the callback succeeded and answered the same block as data and as sizes.
   */
  method ReceiveAll(h: CHeap, senders: nat, cbRv: int, c: Cmems, msgs: seq<Bytes>) returns (rv: int, msgs': seq<Bytes>)
    requires h.Valid() && senders <= INT_MAX && Given(h, c.data) && Given(h, c.sizes)
    requires cbRv == Errors.SUCCESS && c.count == senders ==> Promised(h, c)
    modifies h
    ensures h.Valid() && h.ints == old(h.ints) - {c.data, c.sizes} && h.bytes == old(h.bytes) - {c.data, c.sizes}
    ensures h.freedAgain == old(h.freedAgain) + if cbRv == Errors.SUCCESS && c.data == c.sizes != 0 then 1 else 0
    ensures cbRv != Errors.SUCCESS ==> rv == cbRv
    ensures rv == Errors.SUCCESS <==> cbRv == Errors.SUCCESS && old(Deliverable(h, c, senders))
    ensures msgs' == if rv == Errors.SUCCESS then old(Listed(h, c)) else msgs
  {
    msgs' := msgs;
    if cbRv != Errors.SUCCESS {
      FreeOnce(h, c);
      return cbRv, msgs';
    }
    if c.count < 0 || c.count != senders {
      FreeBoth(h, c);
      return Errors.E_FORMAT, msgs';
    }
    if c.count > 0 && c.sizes == 0 {
      FreeData(h, c);
      return Errors.E_FORMAT, msgs';
    }
    ghost var list := if Viewable(h, c) then Listed(h, c) else [];
    var sizes := if c.count == 0 then [] else h.ints[c.sizes];
    var v, at := CheckTotal(sizes);
    if !v.Total? {
      FreeBoth(h, c);
      return if v.Negative? then Errors.E_FORMAT else Errors.E_RANGE, msgs';
    }
    if v.sum > 0 && c.data == 0 {
      FreeSizes(h, c);
      return Errors.E_FORMAT, msgs';
    }
    msgs' := CopyOut(h, sizes, c.data, if c.data == 0 || c.count == 0 then [] else h.bytes[c.data]);
    FreeBoth(h, c);
    rv := Errors.SUCCESS;
  }

  /** Both pointers are dead, and `again` frees were of dead blocks. */
  twostate predicate Released(h: CHeap, c: Cmems, again: nat)
    reads h
  {
    && h.ints == old(h.ints) - {c.data, c.sizes} && h.bytes == old(h.bytes) - {c.data, c.sizes}
    && h.freedAgain == old(h.freedAgain) + again && h.next == old(h.next)
  }

  /** Both frees of the paths after the callback succeeded. */
  method FreeBoth(h: CHeap, c: Cmems)
    requires h.Valid() && Given(h, c.data) && Given(h, c.sizes)
    modifies h
    ensures h.Valid() && Released(h, c, if c.data == c.sizes != 0 then 1 else 0)
  {
    h.Free(c.data);
    h.Free(c.sizes);
  }

  /** The frees of the path on which the callback failed. */
  method FreeOnce(h: CHeap, c: Cmems)
    requires h.Valid() && Given(h, c.data) && Given(h, c.sizes)
    modifies h
    ensures h.Valid() && Released(h, c, 0)
  {
    NullNotLive(h);
    h.Free(c.data);
    if c.sizes != 0 && c.sizes != c.data { h.Free(c.sizes); }
  }

  /** The path without sizes frees the data only. */
  method FreeData(h: CHeap, c: Cmems)
    requires h.Valid() && Given(h, c.data) && c.sizes == 0
    modifies h
    ensures h.Valid() && Released(h, c, 0)
  {
    NullNotLive(h);
    h.Free(c.data);
  }

  /** The path without data frees the sizes only. */
  method FreeSizes(h: CHeap, c: Cmems)
    requires h.Valid() && Given(h, c.sizes) && c.data == 0
    modifies h
    ensures h.Valid() && Released(h, c, 0)
  {
    NullNotLive(h);
    h.Free(c.sizes);
  }

  /** One block answered as data and as sizes, for no sender at all: delivered, and freed twice. */
  method SharedFreedTwice() returns (h: CHeap, rv: int, msgs: seq<Bytes>)
    ensures fresh(h) && rv == Errors.SUCCESS && msgs == [] && h.freedAgain == 1
  {
    h := new CHeap(map[1 := []], map[1 := []], 2);
    rv, msgs := ReceiveAll(h, 0, Errors.SUCCESS, Cmems(0, 1, 1), []);
  }

  /** The loop that copies each piece into a buffer of its own. */
  method CopyOut(h: CHeap, sizes: seq<int>, data: nat, ghost d: Bytes) returns (msgs: seq<Bytes>)
    requires Natural(sizes) && SumInt(sizes) <= |d| && (SumInt(sizes) > 0 ==> data in h.bytes && h.bytes[data] == d)
    ensures msgs == Split(sizes, d)
  {
    msgs := [];
    var offset: nat := 0;
    SumPrefix(sizes, 0);
    for i := 0 to |sizes|
      invariant offset == SumInt(sizes[..i]) <= SumInt(sizes)
      invariant Natural(sizes[..i]) && msgs == Split(sizes[..i], d)
    {
      SplitNext(sizes, i, d);
      var sz := sizes[i];
      if sz == 0 {
        assert d[offset..offset] == [];
        msgs := msgs + [[]];
      } else {
        msgs := msgs + [h.bytes[data][offset..offset + sz]];
        offset := offset + sz;
      }
    }
    assert sizes[..|sizes|] == sizes;
  }
}
