/** What shares do not tell: a set of parties that does not satisfy the structure sees shares that are
    equally likely whatever the secret is. Sharing is linear in the secret and the draws; a set that
    does not satisfy the structure can be given zeros for any secret, so that adding those draws
    replaces the secret and changes nothing the set sees.
 */
module Hiding {
  import opened AccessTree
  import opened Arithmetic
  import opened Counting
  import opened Field
  import opened Polynomials
  import opened ShareTrees
  import L = Lagrange
  import T = TreeBuilder

  // ---------------------------------------------------------------- one gate

  /** share_and: whatever the secret, all shares but one can be any values of the field. */
  lemma AndAnyValues(n: Node, order: seq<nat>, a: int, q: nat, pid: Hash, j: nat, vals: seq<int>)
    returns (own: seq<int>)
    requires q > 0 && n.kind == And && Within(order, |n.kids|)
    requires j < |n.kids| == |vals| && Reduced(vals, q)
    ensures |own| == Own(n) && Reduced(own, q)
    ensures forall m :: 0 <= m < |n.kids| && m != j ==> KidValue(n, order, a, q, pid, own, m) == vals[m]
  {
    own := vals[1..];
    if j > 0 {
      var v := (a - vals[0] - (SumInt(own) - own[j - 1])) % q;
      CongMod(a - vals[0] - (SumInt(own) - own[j - 1]), q);
      SumUpdate(own, j - 1, v);
      var others := SumInt(own) - own[j - 1];
      own := own[j - 1 := v];
      CongSub(a - others, a - others, v, a - vals[0] - others, q);
      RemainderUnique(vals[0], 0, vals[0], q);
    }
  }

  /** share_threshold: whatever the secret, fewer shares than the threshold can be any values of the field. */
  lemma ThresholdAnyValues(n: Node, order: seq<nat>, a: int, q: nat, pid: Hash, at: seq<nat>, vals: seq<int>)
    returns (own: seq<int>)
    requires Prime(q) && n.kind == Threshold && Within(order, |n.kids|)
    requires |at| == |vals| < n.k && Reduced(vals, q) && forall i :: 0 <= i < |at| ==> at[i] < |n.kids|
    requires var pts := PidsAt(n, order, pid, at);
             L.Distinct(pts, q) && forall i :: 0 <= i < |pts| ==> pts[i] % q != 0
    ensures |own| == Own(n) && Reduced(own, q)
    ensures forall i :: 0 <= i < |at| ==> KidValue(n, order, a, q, pid, own, at[i]) == vals[i]
  {
    var pts := PidsAt(n, order, pid, at);
    own := AnyValues(a, pts, vals, n.k, q);
    forall i | 0 <= i < |at| ensures KidValue(n, order, a, q, pid, own, at[i]) == vals[i] {
      assert pts[i] == pid.of(n.kids[order[at[i]]].name) && own != [];
      RemainderUnique(vals[i], 0, vals[i], q);
    }
  }

  function PidsAt(n: Node, order: seq<nat>, pid: Hash, at: seq<nat>): (s: seq<int>)
    requires Within(order, |n.kids|) && forall i :: 0 <= i < |at| ==> at[i] < |n.kids|
    ensures |s| == |at|
  {
    seq(|at|, i requires 0 <= i < |at| => pid.of(n.kids[order[at[i]]].name))
  }

  /** A child whose identifier is 0 modulo q gets the secret itself: the condition on the identifiers is needed. */
  lemma ZeroPidReveals(n: Node, order: seq<nat>, a: int, q: nat, pid: Hash, own: seq<int>, m: nat)
    requires q > 0 && n.kind == Threshold && |own| == Own(n) && Within(order, |n.kids|) && m < |n.kids|
    requires pid.of(n.kids[order[m]].name) % q == 0
    ensures Cong(KidValue(n, order, a, q, pid, own, m), a, q)
  {
    var x := pid.of(n.kids[order[m]].name);
    PolyValueCong(a, own, x, q);
    var e := L.Eval(([a] + own)[1..], x);
    AddMultiple(a, (x / q) * e, q);
    assert x * e == (x / q) * e * q by { assert x == (x / q) * q; }
  }

  // ---------------------------------------------------------------- sharing is linear

  predicate Adds(r: Shares, s: Shares, z: Shares, q: nat)
    requires q > 0
  {
    r.Keys == s.Keys == z.Keys && forall x :: x in r ==> Cong(r[x], s[x] + z[x], q)
  }

  predicate AddsAll(r: seq<int>, s: seq<int>, z: seq<int>, q: nat)
    requires q > 0
  {
    |r| == |s| == |z| && forall i :: 0 <= i < |r| ==> Cong(r[i], s[i] + z[i], q)
  }

  ghost predicate AddsDraws(r: Source, s: Source, z: Source, q: nat)
    requires q > 0
  {
    forall i :: Cong(r.draw(i), s.draw(i) + z.draw(i), q)
  }

  lemma {:induction false} SumLinear(r: seq<int>, s: seq<int>, z: seq<int>, q: nat)
    requires q > 0 && AddsAll(r, s, z, q)
    ensures Cong(SumInt(r), SumInt(s) + SumInt(z), q)
    decreases |r|
  {
    if r != [] {
      var k := |r| - 1;
      SumLinear(r[..k], s[..k], z[..k], q);
      CongAdd(SumInt(r[..k]), SumInt(s[..k]) + SumInt(z[..k]), r[k], s[k] + z[k], q);
    }
  }

  lemma {:induction false} EvalLinear(r: seq<int>, s: seq<int>, z: seq<int>, x: int, q: nat)
    requires q > 0 && AddsAll(r, s, z, q)
    ensures Cong(L.Eval(r, x), L.Eval(s, x) + L.Eval(z, x), q)
  {
    if r != [] {
      EvalLinear(r[1..], s[1..], z[1..], x, q);
      var e, f, g := L.Eval(r[1..], x), L.Eval(s[1..], x), L.Eval(z[1..], x);
      CongMul(x, x, e, f + g, q);
      CongAdd(r[0], s[0] + z[0], x * e, x * (f + g), q);
      assert x * (f + g) == x * f + x * g;
    }
  }

  lemma PolyValueLinear(e: int, a: int, b: int, r: seq<int>, s: seq<int>, z: seq<int>, x: int, q: nat)
    requires q > 0 && Cong(e, a + b, q) && AddsAll(r, s, z, q)
    ensures Cong(PolyValue(e, r, x, q), PolyValue(a, s, x, q) + PolyValue(b, z, x, q), q)
  {
    PolyValueCong(e, r, x, q);
    PolyValueCong(a, s, x, q);
    PolyValueCong(b, z, x, q);
    EvalLinear([e] + r, [a] + s, [b] + z, x, q);
    CongAdd(PolyValue(a, s, x, q), L.Eval([a] + s, x), PolyValue(b, z, x, q), L.Eval([b] + z, x), q);
  }

  /** The share that makes the sum right. */
  lemma RestLinear(e: int, a: int, b: int, r: int, s: int, z: int, q: nat)
    requires q > 0 && Cong(e, a + b, q) && Cong(r, s + z, q)
    ensures Cong((e - r) % q, (a - s) % q + (b - z) % q, q)
  {
    CongSub(e, a + b, r, s + z, q);
    CongMod(e - r, q);
    CongMod(a - s, q);
    CongMod(b - z, q);
    CongAdd((a - s) % q, a - s, (b - z) % q, b - z, q);
    assert (a + b) - (s + z) == (a - s) + (b - z);
  }

  lemma KidValueLinear(n: Node, order: seq<nat>, e: int, a: int, b: int, q: nat, pid: Hash, r: seq<int>, s: seq<int>,
                       z: seq<int>, m: nat)
    requires q > 0 && |r| == Own(n) && Within(order, |n.kids|) && m < |n.kids|
    requires Cong(e, a + b, q) && AddsAll(r, s, z, q)
    ensures Cong(KidValue(n, order, e, q, pid, r, m),
                 KidValue(n, order, a, q, pid, s, m) + KidValue(n, order, b, q, pid, z, m), q)
  {
    if n.kind == And && m == 0 {
      SumLinear(r, s, z, q);
      RestLinear(e, a, b, SumInt(r), SumInt(s), SumInt(z), q);
    } else if n.kind == Threshold {
      PolyValueLinear(e, a, b, r, s, z, pid.of(n.kids[order[m]].name), q);
    }
  }

  /** Sharing the sum with the sums of the draws gives the sums of the shares. */
  lemma {:induction false} SharesLinear(n: Node, e: int, a: int, b: int, q: nat, pid: Hash, r: Source, s: Source,
                                        z: Source, c: nat, u: Shares, v: Shares, w: Shares)
    requires q > 0 && Cong(e, a + b, q) && AddsDraws(r, s, z, q) && Adds(u, v, w, q)
    ensures Adds(SharesOf(n, e, q, pid, r, c, u), SharesOf(n, a, q, pid, s, c, v), SharesOf(n, b, q, pid, z, c, w), q)
    decreases n, |n.kids| + 1
  {
    if n.kind != Leaf {
      KidsLinear(n, Order(n), e, a, b, q, pid, Draws(r, c, Own(n)), Draws(s, c, Own(n)), Draws(z, c, Own(n)), r, s, z,
                 c, u, v, w, |n.kids|);
    }
  }

  lemma {:induction false} KidsLinear(n: Node, order: seq<nat>, e: int, a: int, b: int, q: nat, pid: Hash,
                                      x: seq<int>, y: seq<int>, o: seq<int>, r: Source, s: Source, z: Source, c: nat,
                                      u: Shares, v: Shares, w: Shares, m: nat)
    requires q > 0 && Within(order, |n.kids|) && m <= |n.kids| && |x| == Own(n) && AddsAll(x, y, o, q)
    requires Cong(e, a + b, q) && AddsDraws(r, s, z, q) && Adds(u, v, w, q)
    ensures Adds(SharesUpTo(n, order, e, q, pid, x, r, c, u, m), SharesUpTo(n, order, a, q, pid, y, s, c, v, m),
                 SharesUpTo(n, order, b, q, pid, o, z, c, w, m), q)
    decreases n, m
  {
    if m > 0 {
      KidsLinear(n, order, e, a, b, q, pid, x, y, o, r, s, z, c, u, v, w, m - 1);
      KidValueLinear(n, order, e, a, b, q, pid, x, y, o, m - 1);
      SharesLinear(n.kids[order[m - 1]], KidValue(n, order, e, q, pid, x, m - 1),
                   KidValue(n, order, a, q, pid, y, m - 1), KidValue(n, order, b, q, pid, o, m - 1), q, pid, r, s, z,
                   c + DrawsBefore(n, order, m - 1), SharesUpTo(n, order, e, q, pid, x, r, c, u, m - 1),
                   SharesUpTo(n, order, a, q, pid, y, s, c, v, m - 1),
                   SharesUpTo(n, order, b, q, pid, o, z, c, w, m - 1));
    }
  }

  // ---------------------------------------------------------------- only the node's own draws count

  ghost predicate Agree(y: Source, z: Source, c: nat, k: nat) { forall i :: c <= i < k ==> y.draw(i) == z.draw(i) }

  lemma {:induction false} SharesLocal(n: Node, a: int, q: nat, pid: Hash, y: Source, z: Source, c: nat,
                                       shares: Shares)
    requires q > 0 && Agree(y, z, c, c + DrawsUsed(n))
    ensures SharesOf(n, a, q, pid, y, c, shares) == SharesOf(n, a, q, pid, z, c, shares)
    decreases n, |n.kids| + 1
  {
    if n.kind != Leaf {
      DrawsGrow(n, Order(n), 0, |n.kids|);
      assert Draws(y, c, Own(n)) == Draws(z, c, Own(n));
      KidsLocal(n, Order(n), a, q, pid, Draws(y, c, Own(n)), y, z, c, shares, |n.kids|);
    }
  }

  lemma {:induction false} DrawsGrow(n: Node, order: seq<nat>, i: nat, m: nat)
    requires Within(order, |n.kids|) && i <= m <= |n.kids|
    ensures Own(n) <= DrawsBefore(n, order, i) <= DrawsBefore(n, order, m)
    decreases m + i
  {
    if i < m { DrawsGrow(n, order, i, m - 1); } else if i > 0 { DrawsGrow(n, order, i - 1, m - 1); }
  }

  lemma {:induction false} KidsLocal(n: Node, order: seq<nat>, a: int, q: nat, pid: Hash, own: seq<int>, y: Source,
                                     z: Source, c: nat, shares: Shares, m: nat)
    requires q > 0 && |own| == Own(n) && Within(order, |n.kids|) && m <= |n.kids|
    requires Agree(y, z, c, c + DrawsBefore(n, order, m))
    ensures SharesUpTo(n, order, a, q, pid, own, y, c, shares, m) ==
            SharesUpTo(n, order, a, q, pid, own, z, c, shares, m)
    decreases n, m
  {
    if m > 0 {
      KidsLocal(n, order, a, q, pid, own, y, z, c, shares, m - 1);
      SharesLocal(n.kids[order[m - 1]], KidValue(n, order, a, q, pid, own, m - 1), q, pid, y, z,
                  c + DrawsBefore(n, order, m - 1), SharesUpTo(n, order, a, q, pid, own, y, c, shares, m - 1));
    }
  }

  // ---------------------------------------------------------------- zeros for a set that does not satisfy

  /** The parties in p see zeros. */
  predicate Masks(z: Shares, p: set<string>, q: nat)
    requires q > 0
  {
    forall x :: x in z && x in p ==> Cong(z[x], 0, q)
  }

  /** Identifiers below threshold nodes are not 0 modulo q. */
  predicate PidsUnits(n: Node, q: nat, pid: Hash)
    requires q > 0
    decreases n
  {
    forall i :: 0 <= i < |n.kids| ==>
      (n.kind == Threshold ==> pid.of(n.kids[i].name) % q != 0) && PidsUnits(n.kids[i], q, pid)
  }

  /** The children that are satisfied get zeros. */
  predicate MasksKids(n: Node, order: seq<nat>, p: set<string>, delta: int, q: nat, pid: Hash, own: seq<int>)
    requires q > 0 && |own| == Own(n) && Within(order, |n.kids|)
  {
    forall m :: 0 <= m < |n.kids| && NodeHolds(n.kids[order[m]], p) ==>
      Cong(KidValue(n, order, delta, q, pid, own, m), 0, q)
  }

  lemma {:induction false} ZeroSum(n: nat)
    ensures SumInt(Zeros(n)) == 0
  {
    if n > 0 {
      assert Zeros(n)[..n - 1] == Zeros(n - 1);
      ZeroSum(n - 1);
    }
  }

  lemma ZeroCong(x: int, q: nat)
    requires q > 0
    ensures Cong(x, 0, q) ==> x % q == 0
    ensures 0 % q == 0
  {
    RemainderUnique(0, 0, 0, q);
  }

  /** An AND node: one child that is not satisfied takes the whole value. */
  lemma MaskAnd(n: Node, order: seq<nat>, p: set<string>, delta: int, q: nat, pid: Hash) returns (own: seq<int>)
    requires q > 0 && n.kind == And && n.kids != [] && IsOrder(order, |n.kids|)
    requires NodeHolds(n, p) ==> Cong(delta, 0, q)
    ensures |own| == Own(n) && Reduced(own, q) && MasksKids(n, order, p, delta, q, pid, own)
  {
    var k := |n.kids| - 1;
    own := Zeros(k);
    ZeroSum(k);
    ZeroCong(delta, q);
    if !NodeHolds(n, p) {
      var j := Unsatisfied(n, p);
      var m := PlaceOf(order, |n.kids|, j);
      if m > 0 {
        SumUpdate(own, m - 1, delta % q);
        own := own[m - 1 := delta % q];
        CongMod(delta, q);
        CongSub(delta, delta, delta % q, delta, q);
      }
    }
  }

  lemma Unsatisfied(n: Node, p: set<string>) returns (j: nat)
    requires n.kind == And && !NodeHolds(n, p)
    ensures j < |n.kids| && !NodeHolds(n.kids[j], p)
  {
    var holds := KidHolds(n, p);
    CountAll(holds);
    j :| j < |n.kids| && !holds[j];
  }

  /** The entries of s where b is true. */
  function Chosen(s: seq<int>, b: seq<bool>): (r: seq<int>)
    requires |s| == |b|
    ensures |r| == Count(b)
  {
    if s == [] then [] else if b[0] then [s[0]] + Chosen(s[1..], b[1..]) else Chosen(s[1..], b[1..])
  }

  lemma {:induction false} ChosenHas(s: seq<int>, b: seq<bool>, i: nat)
    requires |s| == |b| && i < |s| && b[i]
    ensures s[i] in Chosen(s, b)
  {
    if i > 0 {
      ChosenHas(s[1..], b[1..], i - 1);
      assert s[i] == s[1..][i - 1];
    } else {
      assert Chosen(s, b)[0] == s[0];
    }
  }

  lemma {:induction false} ChosenFrom(s: seq<int>, b: seq<bool>, j: nat)
    requires |s| == |b| && j < Count(b)
    ensures Chosen(s, b)[j] in s
  {
    var t := Chosen(s[1..], b[1..]);
    if !b[0] {
      ChosenFrom(s[1..], b[1..], j);
    } else if j > 0 {
      ChosenFrom(s[1..], b[1..], j - 1);
      assert Chosen(s, b)[j] == t[j - 1];
    }
  }

  /** A threshold node: a polynomial with value delta at 0 and zeros for fewer children than the threshold. */
  lemma MaskThreshold(n: Node, order: seq<nat>, p: set<string>, delta: int, q: nat, pid: Hash)
    returns (own: seq<int>)
    requires Prime(q) && n.kind == Threshold && 1 <= n.k && IsOrder(order, |n.kids|) && PidsUnits(n, q, pid)
    requires NodeHolds(n, p) ==> Cong(delta, 0, q)
    ensures |own| == Own(n) && Reduced(own, q) && MasksKids(n, order, p, delta, q, pid, own)
  {
    var pids, holds := Pids(n.kids, pid), KidHolds(n, p);
    var b := Zeros(n.k);
    if !NodeHolds(n, p) {
      var pts := Chosen(pids, holds);
      forall i | 0 <= i < |pts| ensures (0 - pts[i]) % q != 0 {
        ChosenFrom(pids, holds, i);
        L.NegNonzero(pts[i], q);
      }
      b := Adjust(b, pts, 0, delta, q);
    }
    assert L.Eval(b, 0) == b[0];
    own := FreeCoefficients(b, delta, q);
    forall m | 0 <= m < |n.kids| && NodeHolds(n.kids[order[m]], p)
      ensures Cong(KidValue(n, order, delta, q, pid, own, m), 0, q)
    {
      var x := pid.of(n.kids[order[m]].name);
      PolyValueCong(delta, own, x, q);
      EvalCong([delta] + own, b, x, q);
      ZerosEval(n.k, x);
      if !NodeHolds(n, p) { ChosenHas(pids, holds, order[m]); }
    }
  }

  lemma MaskGate(n: Node, isRoot: bool, order: seq<nat>, p: set<string>, delta: int, q: nat, pid: Hash)
    returns (own: seq<int>)
    requires Prime(q) && n.kind != Leaf && T.NodeRulesInternal(n, isRoot) && PidsUnits(n, q, pid)
    requires IsOrder(order, |n.kids|) && (NodeHolds(n, p) ==> Cong(delta, 0, q))
    ensures |own| == Own(n) && Reduced(own, q) && MasksKids(n, order, p, delta, q, pid, own)
  {
    if n.kind == And {
      own := MaskAnd(n, order, p, delta, q, pid);
    } else if n.kind == Threshold {
      own := MaskThreshold(n, order, p, delta, q, pid);
    } else {
      own := [];
      CountNone(KidHolds(n, p));
      forall m | 0 <= m < |n.kids| && NodeHolds(n.kids[order[m]], p) ensures NodeHolds(n, p) {
        assert KidHolds(n, p)[order[m]];
      }
    }
  }

  /** For a set that does not satisfy n there are draws that share any delta with zeros for the set. */
  lemma {:induction false} Mask(n: Node, isRoot: bool, p: set<string>, delta: int, q: nat, pid: Hash, c: nat,
                                shares: Shares)
    returns (z: Source)
    requires Prime(q) && T.NodeShape(n, isRoot) && PidsUnits(n, q, pid) && Masks(shares, p, q)
    requires NodeHolds(n, p) ==> Cong(delta, 0, q)
    ensures DrawsFrom(z, q) && Masks(SharesOf(n, delta, q, pid, z, c, shares), p, q)
    decreases n, |n.kids| + 1
  {
    if n.kind == Leaf { return Source(_ => 0); }
    OrderListsAll(n.kids, |n.kids|);
    var order := Order(n);
    var own := MaskGate(n, isRoot, order, p, delta, q, pid);
    z := MaskBelow(n, order, p, delta, q, pid, own, c, shares, |n.kids|);
    assert Draws(z, c, Own(n)) == own;
  }

  lemma {:induction false} MaskBelow(n: Node, order: seq<nat>, p: set<string>, delta: int, q: nat, pid: Hash,
                                     own: seq<int>, c: nat, shares: Shares, m: nat)
    returns (z: Source)
    requires Prime(q) && T.NodeShapeAll(n.kids) && PidsUnits(n, q, pid) && Masks(shares, p, q)
    requires |own| == Own(n) && Reduced(own, q) && Within(order, |n.kids|) && m <= |n.kids|
    requires MasksKids(n, order, p, delta, q, pid, own)
    ensures DrawsFrom(z, q) && forall i :: 0 <= i < Own(n) ==> z.draw(c + i) == own[i]
    ensures Masks(SharesUpTo(n, order, delta, q, pid, own, z, c, shares, m), p, q)
    decreases n, m
  {
    if m == 0 {
      z := Written(own, c, q);
      return;
    }
    var y := MaskBelow(n, order, p, delta, q, pid, own, c, shares, m - 1);
    var kid, v, l := n.kids[order[m - 1]], KidValue(n, order, delta, q, pid, own, m - 1),
                     c + DrawsBefore(n, order, m - 1);
    var before := SharesUpTo(n, order, delta, q, pid, own, y, c, shares, m - 1);
    var more := Mask(kid, false, p, v, q, pid, l, before);
    z := MaskNext(n, order, p, delta, q, pid, own, c, shares, m - 1, y, more);
  }

  lemma MaskNext(n: Node, order: seq<nat>, p: set<string>, delta: int, q: nat, pid: Hash, own: seq<int>, c: nat,
                 shares: Shares, m: nat, y: Source, more: Source)
    returns (z: Source)
    requires q > 0 && |own| == Own(n) && Within(order, |n.kids|) && m < |n.kids|
    requires DrawsFrom(y, q) && DrawsFrom(more, q) && forall i :: 0 <= i < Own(n) ==> y.draw(c + i) == own[i]
    requires var before := SharesUpTo(n, order, delta, q, pid, own, y, c, shares, m);
             Masks(SharesOf(n.kids[order[m]], KidValue(n, order, delta, q, pid, own, m), q, pid, more,
                            c + DrawsBefore(n, order, m), before), p, q)
    ensures DrawsFrom(z, q) && forall i :: 0 <= i < Own(n) ==> z.draw(c + i) == own[i]
    ensures Masks(SharesUpTo(n, order, delta, q, pid, own, z, c, shares, m + 1), p, q)
  {
    z := Spliced(y, more, c + DrawsBefore(n, order, m), q);
    DrawsGrow(n, order, 0, m);
    SplicedShares(n, order, delta, q, pid, own, y, more, z, c, shares, m);
  }

  /** Draws spliced at a child's place leave the earlier children as they are. */
  lemma SplicedShares(n: Node, order: seq<nat>, a: int, q: nat, pid: Hash, own: seq<int>, y: Source, more: Source,
                      z: Source, c: nat, shares: Shares, m: nat)
    requires q > 0 && |own| == Own(n) && Within(order, |n.kids|) && m < |n.kids|
    requires var l := c + DrawsBefore(n, order, m);
             forall i: nat :: z.draw(i) == if i < l then y.draw(i) else more.draw(i)
    ensures SharesUpTo(n, order, a, q, pid, own, z, c, shares, m + 1) ==
            SharesOf(n.kids[order[m]], KidValue(n, order, a, q, pid, own, m), q, pid, more,
                     c + DrawsBefore(n, order, m), SharesUpTo(n, order, a, q, pid, own, y, c, shares, m))
  {
    KidsLocal(n, order, a, q, pid, own, y, z, c, shares, m);
    SharesLocal(n.kids[order[m]], KidValue(n, order, a, q, pid, own, m), q, pid, more, z,
                c + DrawsBefore(n, order, m), SharesUpTo(n, order, a, q, pid, own, y, c, shares, m));
  }

  lemma Written(own: seq<int>, c: nat, q: nat) returns (z: Source)
    requires q > 0 && Reduced(own, q)
    ensures DrawsFrom(z, q) && forall i :: 0 <= i < |own| ==> z.draw(c + i) == own[i]
  {
    z := Source((i: nat) => if c <= i < c + |own| && own[i - c] >= 0 then own[i - c] else 0);
    forall i: nat ensures z.draw(i) < q {}
  }

  /** y before place l, more from there on. */
  lemma Spliced(y: Source, more: Source, l: nat, q: nat) returns (z: Source)
    requires DrawsFrom(y, q) && DrawsFrom(more, q)
    ensures DrawsFrom(z, q)
    ensures forall i: nat :: z.draw(i) == if i < l then y.draw(i) else more.draw(i)
  {
    z := Source((i: nat) => if i < l then y.draw(i) else more.draw(i));
  }

  // ---------------------------------------------------------------- the same view for every secret

  /** The draws, followed by zeros. */
  function Tape(d: seq<nat>): Source { Source((i: nat) => if i < |d| then d[i] else 0) }

  /** The shares that the parties in p hold. */
  function View(root: Node, a: int, q: nat, pid: Hash, d: seq<nat>, p: set<string>): Shares
    requires q > 0
  {
    var shares := SharesOf(root, a, q, pid, Tape(d), 0, map[]);
    map x | x in shares && x in p :: shares[x]
  }

  /** All ways to draw k values from the field. */
  function Tapes(k: nat, q: nat): set<seq<nat>>
  {
    if k == 0 then {[]} else set d, v: nat | d in Tapes(k - 1, q) && v < q :: d + [v]
  }

  lemma {:induction false} TapesAreAll(k: nat, q: nat, d: seq<nat>)
    ensures d in Tapes(k, q) <==> |d| == k && Reduced(d, q)
  {
    if k > 0 && |d| > 0 {
      var front, v := d[..|d| - 1], d[|d| - 1];
      TapesAreAll(k - 1, q, front);
      assert d == front + [v];
      if d in Tapes(k, q) {
        var e, u: nat :| e in Tapes(k - 1, q) && u < q && d == e + [u];
        assert e == front;
      }
    }
  }

  /** d moved by s. */
  function Moved(d: seq<nat>, s: seq<nat>, q: nat): (r: seq<nat>)
    requires q > 0 && |d| == |s|
    ensures |r| == |d| && Reduced(r, q)
  {
    seq(|d|, i requires 0 <= i < |d| => (d[i] + s[i]) % q)
  }

  lemma MovedDiffers(d: seq<nat>, e: seq<nat>, s: seq<nat>, q: nat)
    requires q > 0 && |d| == |e| == |s| && Reduced(d, q) && Reduced(e, q) && Moved(d, s, q) == Moved(e, s, q)
    ensures d == e
  {
    forall i | 0 <= i < |d| ensures d[i] == e[i] {
      assert Moved(d, s, q)[i] == Moved(e, s, q)[i];
      CongSub(d[i] + s[i], e[i] + s[i], s[i], s[i], q);
      RemainderUnique(d[i], 0, d[i], q);
      RemainderUnique(e[i], 0, e[i], q);
    }
  }

  /** The tapes that give p the view v when the secret is a. */
  function TapesGiving(root: Node, a: int, q: nat, pid: Hash, p: set<string>, v: Shares): set<seq<nat>>
    requires q > 0
  {
    set d | d in Tapes(DrawsUsed(root), q) && View(root, a, q, pid, d, p) == v
  }

  /** Two secrets: one move of the draws turns every sharing of a into a sharing of b that looks the same to p. */
  lemma SameView(root: Node, a: int, b: int, q: nat, pid: Hash, p: set<string>) returns (s: seq<nat>)
    requires Prime(q) && T.NodeShape(root, true) && PidsUnits(root, q, pid)
    requires !NodeHolds(root, p) && 0 <= a < q && 0 <= b < q
    ensures |s| == DrawsUsed(root)
    ensures forall d :: d in Tapes(|s|, q) ==>
              |d| == |s| && View(root, b, q, pid, Moved(d, s, q), p) == View(root, a, q, pid, d, p)
  {
    var k := DrawsUsed(root);
    var z := Mask(root, true, p, b - a, q, pid, 0, map[]);
    s := seq(k, i requires 0 <= i < k => z.draw(i));
    forall d | d in Tapes(k, q)
      ensures |d| == |s| && View(root, b, q, pid, Moved(d, s, q), p) == View(root, a, q, pid, d, p)
    {
      TapesAreAll(k, q, d);
      MovedView(root, a, b, q, pid, p, z, s, d);
    }
  }

  lemma MovedView(root: Node, a: int, b: int, q: nat, pid: Hash, p: set<string>, z: Source, s: seq<nat>, d: seq<nat>)
    requires q > 0 && 0 <= a < q && 0 <= b < q && DrawsFrom(z, q) && Reduced(d, q)
    requires |s| == |d| == DrawsUsed(root) && forall i :: 0 <= i < |s| ==> s[i] == z.draw(i)
    requires Masks(SharesOf(root, b - a, q, pid, z, 0, map[]), p, q)
    ensures View(root, b, q, pid, Moved(d, s, q), p) == View(root, a, q, pid, d, p)
  {
    var r, t := Tape(Moved(d, s, q)), Tape(s);
    SharesLocal(root, b - a, q, pid, z, t, 0, map[]);
    forall i: nat ensures Cong(r.draw(i), Tape(d).draw(i) + t.draw(i), q) {
      if i < |d| { CongMod(d[i] + s[i], q); }
    }
    SharesLinear(root, b, a, b - a, q, pid, r, Tape(d), t, 0, map[], map[], map[]);
    SharesInField(root, b, q, pid, r, 0, map[]);
    SharesInField(root, a, q, pid, Tape(d), 0, map[]);
    SameForParties(SharesOf(root, b, q, pid, r, 0, map[]), SharesOf(root, a, q, pid, Tape(d), 0, map[]),
                   SharesOf(root, b - a, q, pid, t, 0, map[]), p, q);
  }

  /** Adding zeros changes nothing. */
  lemma SameForParties(r: Shares, s: Shares, z: Shares, p: set<string>, q: nat)
    requires q > 0 && Adds(r, s, z, q) && Masks(z, p, q) && InField(r, q) && InField(s, q)
    ensures (map x | x in r && x in p :: r[x]) == (map x | x in s && x in p :: s[x])
  {
    forall x | x in r && x in p ensures r[x] == s[x] {
      CongAdd(s[x], s[x], z[x], 0, q);
      RemainderUnique(r[x], 0, r[x], q);
      RemainderUnique(s[x], 0, s[x], q);
    }
  }

  lemma {:induction false} MovedFits(x: set<seq<nat>>, y: set<seq<nat>>, s: seq<nat>, q: nat)
    requires q > 0 && forall d :: d in x ==> |d| == |s| && Reduced(d, q) && Moved(d, s, q) in y
    ensures |x| <= |y|
    decreases x
  {
    if x != {} {
      var e :| e in x;
      var x', y' := x - {e}, y - {Moved(e, s, q)};
      forall d | d in x' ensures Moved(d, s, q) in y' {
        if Moved(d, s, q) == Moved(e, s, q) { MovedDiffers(d, e, s, q); }
      }
      MovedFits(x', y', s, q);
    }
  }

  lemma NotMoreTapes(root: Node, a: int, b: int, q: nat, pid: Hash, p: set<string>, v: Shares)
    requires Prime(q) && T.NodeShape(root, true) && PidsUnits(root, q, pid)
    requires !NodeHolds(root, p) && 0 <= a < q && 0 <= b < q
    ensures |TapesGiving(root, a, q, pid, p, v)| <= |TapesGiving(root, b, q, pid, p, v)|
  {
    var s := SameView(root, a, b, q, pid, p);
    var x, y := TapesGiving(root, a, q, pid, p, v), TapesGiving(root, b, q, pid, p, v);
    forall d | d in x ensures |d| == |s| && Reduced(d, q) && Moved(d, s, q) in y {
      TapesAreAll(|s|, q, d);
      TapesAreAll(|s|, q, Moved(d, s, q));
    }
    MovedFits(x, y, s, q);
  }

  /** Perfect secrecy: what a set of parties that does not satisfy the structure sees comes from equally
      many draws for every secret, so it is equally likely whatever the secret is. */
  lemma PerfectSecrecy(root: Node, a: int, b: int, q: nat, pid: Hash, p: set<string>, v: Shares)
    requires Prime(q) && T.NodeShape(root, true) && PidsUnits(root, q, pid)
    requires !NodeHolds(root, p) && 0 <= a < q && 0 <= b < q
    ensures |TapesGiving(root, a, q, pid, p, v)| == |TapesGiving(root, b, q, pid, p, v)|
  {
    NotMoreTapes(root, a, b, q, pid, p, v);
    NotMoreTapes(root, b, a, q, pid, p, v);
  }

  // ---------------------------------------------------------------- and a set that satisfies the structure

  /** The same names with the same shares, modulo q. */
  predicate SameSeen(x: Shares, y: Shares, p: set<string>, q: nat)
    requires q > 0
  {
    forall k :: k in p && k in x && k in y ==> Cong(x[k], y[k], q)
  }

  lemma {:induction false} ChosenAt(s: seq<int>, b: seq<bool>, j: nat) returns (i: nat)
    requires |s| == |b| && j < Count(b)
    ensures i < |s| && b[i] && Chosen(s, b)[j] == s[i]
  {
    if !b[0] {
      i := ChosenAt(s[1..], b[1..], j);
      i := i + 1;
    } else if j > 0 {
      i := ChosenAt(s[1..], b[1..], j - 1);
      i := i + 1;
    } else {
      i := 0;
    }
  }

  lemma {:induction false} ChosenDistinct(s: seq<int>, b: seq<bool>, q: nat)
    requires q > 0 && |s| == |b| && L.Distinct(s, q)
    ensures L.Distinct(Chosen(s, b), q)
  {
    if s != [] {
      var rest := Chosen(s[1..], b[1..]);
      assert L.Distinct(s[1..], q) by {
        forall i, j | 0 <= i < j < |s[1..]| ensures (s[1..][i] - s[1..][j]) % q != 0 {
          assert s[1..][i] == s[i + 1] && s[1..][j] == s[j + 1];
        }
      }
      ChosenDistinct(s[1..], b[1..], q);
      if b[0] {
        forall i, j | 0 <= i < j < |[s[0]] + rest| ensures (([s[0]] + rest)[i] - ([s[0]] + rest)[j]) % q != 0 {
          if i == 0 {
            var k := ChosenAt(s[1..], b[1..], j - 1);
            assert s[1..][k] == s[k + 1];
          }
        }
      }
    }
  }

  /** Two polynomials with at most as many coefficients as points that agree there agree at 0. */
  lemma SameAtZero(b: seq<int>, c: seq<int>, pts: seq<int>, q: nat)
    requires Prime(q) && 1 <= |b| == |c| <= |pts| && L.Distinct(pts, q)
    requires forall j :: 0 <= j < |pts| ==> Cong(L.Eval(b, pts[j]), L.Eval(c, pts[j]), q)
    ensures Cong(b[0], c[0], q)
  {
    L.Interpolates(0, pts, b, q);
    L.Interpolates(0, pts, c, q);
    var u, v := L.Values(b, pts), L.Values(c, pts);
    assert forall j :: 0 <= j < |pts| ==> Cong(u[j], v[j], q);
    L.DotCong(u, v, L.Bases(0, pts, pts, q), q);
    assert L.Eval(b, 0) == b[0] && L.Eval(c, 0) == c[0];
  }

  lemma {:induction false} SameSum(r: seq<int>, s: seq<int>, q: nat)
    requires q > 0 && CongAll(r, s, q)
    ensures Cong(SumInt(r), SumInt(s), q)
    decreases |r|
  {
    if r != [] {
      var k := |r| - 1;
      SameSum(r[..k], s[..k], q);
      CongAdd(SumInt(r[..k]), SumInt(s[..k]), r[k], s[k], q);
    }
  }

  /** The values of the children that are satisfied determine the value of a satisfied gate. */
  lemma GateDetermined(n: Node, w: ShareTree, u: ShareTree, p: set<string>, q: nat, pid: Hash)
    requires Prime(q) && PidsDistinct(n, q, pid) && NodeHolds(n, p) && n.kind != Leaf
    requires |w.kids| == |u.kids| == |n.kids| && GateShares(n, w, q, pid) && GateShares(n, u, q, pid)
    requires forall i :: 0 <= i < |n.kids| && NodeHolds(n.kids[i], p) ==> Cong(w.kids[i].v, u.kids[i].v, q)
    ensures Cong(w.v, u.v, q)
  {
    var holds := KidHolds(n, p);
    if n.kind == Or {
      CountNone(holds);
      var i :| 0 <= i < |n.kids| && holds[i];
    } else if n.kind == And {
      CountAll(holds);
      forall i | 0 <= i < |n.kids| ensures Cong(w.kids[i].v, u.kids[i].v, q) { assert holds[i]; }
      AndDetermined(n, w, u, q, pid);
    } else {
      ThresholdDetermined(n, w, u, holds, q, pid);
    }
  }

  lemma AndDetermined(n: Node, w: ShareTree, u: ShareTree, q: nat, pid: Hash)
    requires q > 0 && n.kind == And && |w.kids| == |u.kids| == |n.kids|
    requires GateShares(n, w, q, pid) && GateShares(n, u, q, pid)
    requires forall i :: 0 <= i < |n.kids| ==> Cong(w.kids[i].v, u.kids[i].v, q)
    ensures Cong(w.v, u.v, q)
  {
    SameSum(Vs(w.kids), Vs(u.kids), q);
  }

  lemma ThresholdDetermined(n: Node, w: ShareTree, u: ShareTree, holds: seq<bool>, q: nat, pid: Hash)
    requires Prime(q) && n.kind == Threshold && L.Distinct(Pids(n.kids, pid), q)
    requires |w.kids| == |u.kids| == |n.kids| == |holds| && Count(holds) >= n.k
    requires GateShares(n, w, q, pid) && GateShares(n, u, q, pid)
    requires forall i :: 0 <= i < |n.kids| && holds[i] ==> Cong(w.kids[i].v, u.kids[i].v, q)
    ensures Cong(w.v, u.v, q)
  {
    var pids := Pids(n.kids, pid);
    var pts := Chosen(pids, holds);
    ChosenDistinct(pids, holds, q);
    forall j | 0 <= j < |pts| ensures Cong(L.Eval(w.coeffs, pts[j]), L.Eval(u.coeffs, pts[j]), q) {
      var i := ChosenAt(pids, holds, j);
      assert holds[i] && pts[j] == pid.of(n.kids[i].name);
    }
    SameAtZero(w.coeffs, u.coeffs, pts, q);
  }

  /** What a satisfying set sees determines the value shared. */
  lemma {:induction false} Determined(n: Node, w: ShareTree, u: ShareTree, x: Shares, y: Shares, p: set<string>,
                                      q: nat, pid: Hash)
    requires Prime(q) && PidsDistinct(n, q, pid) && NodeHolds(n, p)
    requires Shared(n, w, x, q, pid) && Shared(n, u, y, q, pid) && SameSeen(x, y, p, q)
    ensures Cong(w.v, u.v, q)
    decreases n
  {
    if n.kind != Leaf {
      forall i | 0 <= i < |n.kids| && NodeHolds(n.kids[i], p) ensures Cong(w.kids[i].v, u.kids[i].v, q) {
        Determined(n.kids[i], w.kids[i], u.kids[i], x, y, p, q, pid);
      }
      GateDetermined(n, w, u, p, q, pid);
    }
  }

  /** A set of parties that satisfies the structure sees the secret: no view goes with two of them. */
  lemma SatisfiedSeeSecret(root: Node, a: int, b: int, q: nat, pid: Hash, d: seq<nat>, e: seq<nat>, p: set<string>)
    requires Prime(q) && T.NodeShape(root, true) && T.NamesDistinct(root) && PidsDistinct(root, q, pid)
    requires NodeHolds(root, p) && 0 <= a < q && 0 <= b < q
    requires View(root, a, q, pid, d, p) == View(root, b, q, pid, e, p)
    ensures a == b
  {
    var x, y := SharesOf(root, a, q, pid, Tape(d), 0, map[]), SharesOf(root, b, q, pid, Tape(e), 0, map[]);
    DistinctLeavesApart(root);
    var w := SharesConsistent(root, a, true, q, pid, Tape(d), 0, map[]);
    var u := SharesConsistent(root, b, true, q, pid, Tape(e), 0, map[]);
    forall k | k in p && k in x && k in y ensures x[k] == y[k] {
      assert View(root, a, q, pid, d, p)[k] == View(root, b, q, pid, e, p)[k];
    }
    Determined(root, w, u, x, y, p, q, pid);
    RemainderUnique(a, 0, a, q);
    RemainderUnique(b, 0, b, q);
  }
}
