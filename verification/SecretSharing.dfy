/** Secret sharing over an access structure (`share_and`, `share_threshold`, `share_recursive`,
    `reconstruct_recursive`): any random draws, any subset of the shares.
 */
module SecretSharing {
  import opened AccessTree
  import opened Counting
  import opened Arithmetic
  import opened Field
  import L = Lagrange
  import opened Polynomials
  import opened ShareTrees
  import T = TreeBuilder
  import Errors

  // ---------------------------------------------------------------- sharing at one node

  /** share_and: n - 1 values drawn from the field, and the difference. */
  method ShareAnd(q: nat, x: int, n: nat, rnd: Source, c: nat) returns (shares: seq<int>, c': nat)
    requires q > 0 && n > 0 && DrawsFrom(rnd, q)
    ensures |shares| == n && c' == c + n - 1
    ensures forall i :: 1 <= i < n ==> shares[i] == rnd.draw(c + i - 1)
    ensures Cong(SumInt(shares), x, q)
    ensures forall i :: 0 <= i < n ==> 0 <= shares[i] < q
  {
    var rest, sum := [], 0;
    for i := 1 to n
      invariant |rest| == i - 1 && Cong(sum, SumInt(rest), q) && Reduced(rest, q)
      invariant forall j :: 0 <= j < i - 1 ==> rest[j] == rnd.draw(c + j)
    {
      var v := rnd.draw(c + i - 1);
      AddOne(rest, v, sum, q);
      rest, sum := rest + [v], (sum + v) % q;
    }
    shares, c' := [(x - sum) % q] + rest, c + n - 1;
    FirstShare(rest, sum, x, q);
  }

  /** The first share makes the sum right. */
  lemma FirstShare(rest: seq<int>, sum: int, x: int, q: nat)
    requires q > 0 && Cong(sum, SumInt(rest), q)
    ensures Cong(SumInt([(x - sum) % q] + rest), x, q)
  {
    var s := (x - sum) % q;
    SumCons(s, rest);
    CongMod(x - sum, q);
    CongAdd(s, x - sum, SumInt(rest), sum, q);
    SumOfParts(s, SumInt(rest), x, sum, q);
  }

  lemma SumOfParts(s: int, r: int, x: int, sum: int, q: nat)
    requires q > 0 && Cong(s + r, (x - sum) + sum, q)
    ensures Cong(s + r, x, q)
  {
  }

  lemma AddOne(rest: seq<int>, v: int, sum: int, q: nat)
    requires q > 0 && Cong(sum, SumInt(rest), q)
    ensures Cong((sum + v) % q, SumInt(rest + [v]), q)
  {
    assert (rest + [v])[..|rest|] == rest;
    CongAdd(sum, SumInt(rest), v, v, q);
    CongMod(sum + v, q);
  }

  /** share_threshold: the polynomial with constant term a and the draws as its other coefficients,
      evaluated at the pids. */
  method ShareThreshold(q: nat, a: int, t: nat, pids: seq<nat>, rnd: Source, c: nat)
    returns (shares: seq<int>, b: seq<int>, c': nat)
    requires q > 0 && 0 < t <= |pids| && DrawsFrom(rnd, q)
    requires forall i :: 0 <= i < |pids| ==> pids[i] != 0
    ensures |shares| == |pids| && |b| == t && b[0] == a && c' == c + t - 1
    ensures forall i :: 1 <= i < t ==> b[i] == rnd.draw(c + i - 1)
    ensures forall i :: 0 <= i < |pids| ==> Cong(shares[i], L.Eval(b, pids[i]), q)
    ensures forall i :: 0 <= i < |pids| ==> if t == 1 then shares[i] == a else 0 <= shares[i] < q
  {
    b := [a];
    for i := 1 to t
      invariant |b| == i && b[0] == a && forall j :: 1 <= j < i ==> b[j] == rnd.draw(c + j - 1)
    {
      b := b + [rnd.draw(c + i - 1)];
    }
    c' := c + t - 1;
    shares := [];
    for i := 0 to |pids|
      invariant |shares| == i
      invariant forall j :: 0 <= j < i ==> Cong(shares[j], L.Eval(b, pids[j]), q)
      invariant forall j :: 0 <= j < i ==> if t == 1 then shares[j] == a else 0 <= shares[j] < q
    {
      var s := L.Horner(q, b, pids[i]);
      shares := shares + [s];
    }
  }

  // ---------------------------------------------------------------- the order children are visited in

  method FindPlace(kids: seq<Node>, order: seq<nat>, x: nat) returns (p: nat)
    requires x < |kids| && (forall i :: 0 <= i < |order| ==> order[i] < |kids|)
    ensures p == Place(kids, order, x, 0)
  {
    p := 0;
    while p < |order| && !Less(kids[x].name, kids[order[p]].name)
      invariant p <= |order| && Place(kids, order, x, 0) == Place(kids, order, x, p)
    {
      p := p + 1;
    }
  }

  /** get_sorted_children, as the order of the indices. */
  method SortKids(kids: seq<Node>) returns (order: seq<nat>)
    ensures IsOrder(order, |kids|) && SortedByName(kids, order) && order == OrderOf(kids, |kids|)
  {
    order := [];
    for k := 0 to |kids|
      invariant order == OrderOf(kids, k)
    {
      var p := FindPlace(kids, order, k);
      order := order[..p] + [k] + order[p..];
    }
    OrderListsAll(kids, |kids|);
    OrderSorted(kids, |kids|);
  }

  // ---------------------------------------------------------------- sharing over the tree

  /** The values of the children are those of the function. */
  predicate Values(n: Node, order: seq<nat>, a: int, q: nat, pid: Hash, own: seq<int>, vals: seq<int>)
    requires q > 0
  {
    && |own| == Own(n) && Within(order, |n.kids|) && |vals| == |n.kids|
    && forall m :: 0 <= m < |vals| ==> vals[m] == KidValue(n, order, a, q, pid, own, m)
  }

  lemma AndGivesValues(n: Node, order: seq<nat>, a: int, q: nat, pid: Hash, own: seq<int>, vals: seq<int>)
    requires q > 0 && n.kind == And && n.kids != [] && |own| == Own(n) && Within(order, |n.kids|)
    requires |vals| == |n.kids| && vals[1..] == own && 0 <= vals[0] < q && Cong(SumInt(vals), a, q)
    ensures Values(n, order, a, q, pid, own, vals)
  {
    assert vals == [vals[0]] + own;
    SumCons(vals[0], own);
    CongSub(SumInt(vals), a, SumInt(own), SumInt(own), q);
    RemainderUnique(vals[0], 0, vals[0], q);
  }

  lemma ThresholdGivesValues(n: Node, order: seq<nat>, a: int, q: nat, pid: Hash, own: seq<int>,
                             vals: seq<int>, coeffs: seq<int>)
    requires q > 0 && n.kind == Threshold && n.k >= 1 && |own| == Own(n) && Within(order, |n.kids|)
    requires |vals| == |n.kids| && coeffs == [a] + own
    requires forall m :: 0 <= m < |vals| ==> Cong(vals[m], L.Eval(coeffs, pid.of(n.kids[order[m]].name)), q)
    requires forall m :: 0 <= m < |vals| ==> if n.k == 1 then vals[m] == a else 0 <= vals[m] < q
    ensures Values(n, order, a, q, pid, own, vals)
  {
    forall m | 0 <= m < |vals| ensures vals[m] == KidValue(n, order, a, q, pid, own, m) {
      if n.k != 1 { RemainderUnique(vals[m], 0, vals[m], q); }
    }
  }

  /** The values for the children of an inner node. */
  method ChildValues(n: Node, a: int, order: seq<nat>, q: nat, pid: Hash, rnd: Source, c: nat)
    returns (vals: seq<int>, c': nat)
    requires q > 0 && n.kind != Leaf && T.NodeRulesInternal(n, n.name == "") && PidsNonzero(n, pid)
    requires Within(order, |n.kids|) && DrawsFrom(rnd, q)
    ensures Values(n, order, a, q, pid, Draws(rnd, c, Own(n)), vals) && c' == c + Own(n)
  {
    c' := c;
    match n.kind
    case Or => vals := seq(|n.kids|, _ => a);
    case And =>
      vals, c' := ShareAnd(q, a, |n.kids|, rnd, c);
      AndGivesValues(n, order, a, q, pid, Draws(rnd, c, Own(n)), vals);
    case Threshold =>
      var pids := seq(|n.kids|, i requires 0 <= i < |n.kids| => pid.of(n.kids[order[i]].name));
      var coeffs;
      vals, coeffs, c' := ShareThreshold(q, a, n.k, pids, rnd, c);
      assert coeffs == [a] + Draws(rnd, c, Own(n));
      ThresholdGivesValues(n, order, a, q, pid, Draws(rnd, c, Own(n)), vals, coeffs);
    case Leaf => assert false; vals := [];
    case Unknown => assert false; vals := [];
  }

  /** share_recursive: the shares of the function, from the draws at place c and after; they are
      consistent at every gate, and no other share changes. */
  method ShareRecursive(n: Node, a: int, isRoot: bool, q: nat, pid: Hash, rnd: Source, c: nat,
                        shares: Shares)
    returns (shares': Shares, c': nat, ghost w: ShareTree)
    requires q > 0 && T.NodeShape(n, isRoot) && T.NamesDistinct(n) && PidsNonzero(n, pid) && DrawsFrom(rnd, q)
    ensures w.v == a && Shared(n, w, shares', q, pid)
    ensures shares'.Keys == shares.Keys + LeafNames(n)
    ensures forall x :: x in shares && x !in LeafNames(n) ==> shares'[x] == shares[x]
    ensures 0 <= a < q && InField(shares, q) ==> InField(shares', q)
    ensures shares' == SharesOf(n, a, q, pid, rnd, c, shares) && c' == c + DrawsUsed(n)
  {
    shares', c' := ShareNode(n, a, isRoot, q, pid, rnd, c, shares);
    DistinctLeavesApart(n);
    w := SharesConsistent(n, a, isRoot, q, pid, rnd, c, shares);
    SharesWrites(n, a, q, pid, rnd, c, shares);
    if 0 <= a < q && InField(shares, q) { SharesInField(n, a, q, pid, rnd, c, shares); }
  }

  /** The recursion. */
  method ShareNode(n: Node, a: int, isRoot: bool, q: nat, pid: Hash, rnd: Source, c: nat, shares: Shares)
    returns (shares': Shares, c': nat)
    requires q > 0 && T.NodeShape(n, isRoot) && PidsNonzero(n, pid) && DrawsFrom(rnd, q)
    ensures shares' == SharesOf(n, a, q, pid, rnd, c, shares) && c' == c + DrawsUsed(n)
    decreases n, 1
  {
    shares', c' := shares, c;
    if n.kind == Leaf { return shares[n.name := a], c; }
    var order := SortKids(n.kids);
    var vals;
    vals, c' := ChildValues(n, a, order, q, pid, rnd, c);
    shares', c' := ShareChildren(n, order, a, vals, q, pid, Draws(rnd, c, Own(n)), rnd, c, shares);
  }

  /** One child after another, in the given order. */
  method ShareChildren(n: Node, order: seq<nat>, ghost a: int, vals: seq<int>, q: nat, pid: Hash,
                       ghost own: seq<int>, rnd: Source, c: nat, shares: Shares)
    returns (shares': Shares, c': nat)
    requires q > 0 && Values(n, order, a, q, pid, own, vals) && DrawsFrom(rnd, q)
    requires forall i :: 0 <= i < |n.kids| ==> T.NodeShape(n.kids[i], false) && PidsNonzero(n.kids[i], pid)
    ensures shares' == SharesUpTo(n, order, a, q, pid, own, rnd, c, shares, |n.kids|)
    ensures c' == c + DrawsBefore(n, order, |n.kids|)
    decreases n, 0
  {
    shares', c' := shares, c + Own(n);
    for i := 0 to |n.kids|
      invariant c' == c + DrawsBefore(n, order, i)
      invariant shares' == SharesUpTo(n, order, a, q, pid, own, rnd, c, shares, i)
    {
      shares', c' := ShareNode(n.kids[order[i]], vals[i], false, q, pid, rnd, c', shares');
    }
  }

  // ---------------------------------------------------------------- reconstruction

  /** The given shares are some of those of a sharing w of n. */
  ghost predicate Genuine(n: Node, w: ShareTree, given: Shares, full: Shares, q: nat, pid: Hash)
    requires q > 0
  {
    && Prime(q) && PidsDistinct(n, q, pid) && Shared(n, w, full, q, pid)
    && forall x :: x in given && x in full ==> given[x] == full[x]
  }

  /** reconstruct_recursive: succeeds exactly when the holders of the given shares satisfy n, and
      then returns the shared value modulo q, whichever genuine shares were given. */
  method Reconstruct(n: Node, isRoot: bool, given: Shares, q: nat, pid: Hash, ghost w: ShareTree,
                     ghost full: Shares)
    returns (rv: int, x: int)
    requires q > 0 && T.NodeShape(n, isRoot)
    ensures rv in {Errors.SUCCESS, Errors.E_INSUFFICIENT}
    ensures rv == Errors.SUCCESS <==> NodeHolds(n, given.Keys)
    ensures rv == Errors.SUCCESS && Genuine(n, w, given, full, q, pid) ==> Cong(x, w.v, q)
    ensures rv == Errors.SUCCESS && InField(given, q) ==> 0 <= x < q
    decreases n, 1
  {
    x := 0;
    if n.kind == Leaf {
      if n.name !in given { return Errors.E_INSUFFICIENT, x; }
      return Errors.SUCCESS, given[n.name];
    }
    assert NodeHolds(n, given.Keys) == Gate(n.kind, n.k, KidHolds(n, given.Keys));
    match n.kind
    case Or => rv, x := ReconstructOr(n, given, q, pid, w, full);
    case And => rv, x := ReconstructAnd(n, given, q, pid, w, full);
    case Threshold => rv, x := ReconstructThreshold(n, given, q, pid, w, full);
    case Leaf => assert false;
    case Unknown => assert false;
  }

  /** The first child that can be reconstructed. */
  method ReconstructOr(n: Node, given: Shares, q: nat, pid: Hash, ghost w: ShareTree, ghost full: Shares)
    returns (rv: int, x: int)
    requires q > 0 && n.kind == Or && forall i :: 0 <= i < |n.kids| ==> T.NodeShape(n.kids[i], false)
    ensures rv in {Errors.SUCCESS, Errors.E_INSUFFICIENT}
    ensures rv == Errors.SUCCESS <==> Count(KidHolds(n, given.Keys)) > 0
    ensures rv == Errors.SUCCESS && Genuine(n, w, given, full, q, pid) ==> Cong(x, w.v, q)
    ensures rv == Errors.SUCCESS && InField(given, q) ==> 0 <= x < q
    decreases n, 0
  {
    ghost var holds := KidHolds(n, given.Keys);
    x := 0;
    CountNone(holds);
    for i := 0 to |n.kids|
      invariant forall j :: 0 <= j < i ==> !holds[j]
    {
      ghost var wi := if |w.kids| == |n.kids| then w.kids[i] else w;
      rv, x := Reconstruct(n.kids[i], false, given, q, pid, wi, full);
      if rv == Errors.SUCCESS {
        assert holds[i];
        return;
      }
    }
    rv := Errors.E_INSUFFICIENT;
  }

  /** The part of w that belongs to child i. */
  ghost function KidTree(n: Node, w: ShareTree, i: nat): ShareTree
    requires i < |n.kids|
  {
    if |w.kids| == |n.kids| then w.kids[i] else w
  }

  /** x is the sum of the values of the first i children, if the shares are genuine. */
  ghost predicate SummedSoFar(n: Node, w: ShareTree, given: Shares, full: Shares, q: nat, pid: Hash, x: int,
                              i: nat)
    requires q > 0 && n.kind != Leaf
  {
    Genuine(n, w, given, full, q, pid) ==> i <= |w.kids| == |n.kids| && Cong(x, SumInt(Vs(w.kids)[..i]), q)
  }

  lemma SumNext(n: Node, w: ShareTree, given: Shares, full: Shares, q: nat, pid: Hash, x: int, i: nat,
                share: int)
    requires q > 0 && n.kind == And && i < |n.kids| && SummedSoFar(n, w, given, full, q, pid, x, i)
    requires Genuine(n.kids[i], KidTree(n, w, i), given, full, q, pid) ==> Cong(share, KidTree(n, w, i).v, q)
    ensures SummedSoFar(n, w, given, full, q, pid, (x + share) % q, i + 1)
  {
    if Genuine(n, w, given, full, q, pid) { SumGrows(x, share, Vs(w.kids), i, q); }
  }

  lemma SummedAll(n: Node, w: ShareTree, given: Shares, full: Shares, q: nat, pid: Hash, x: int)
    requires q > 0 && n.kind == And && SummedSoFar(n, w, given, full, q, pid, x, |n.kids|)
    requires Genuine(n, w, given, full, q, pid)
    ensures Cong(x, w.v, q)
  {
    assert Vs(w.kids)[..|n.kids|] == Vs(w.kids);
  }

  /** What has been collected below the threshold node is right, if the shares are genuine. */
  ghost predicate CollectedSoFar(n: Node, w: ShareTree, given: Shares, full: Shares, q: nat, pid: Hash,
                                 pids: seq<int>, shares: seq<int>, at: seq<nat>, i: nat)
    requires q > 0 && |pids| == |shares| == |at| && i <= |n.kids|
  {
    Genuine(n, w, given, full, q, pid) ==> Collected(n, w, pids, shares, at, i, q, pid)
  }

  /** The sum over all children. */
  method ReconstructAnd(n: Node, given: Shares, q: nat, pid: Hash, ghost w: ShareTree, ghost full: Shares)
    returns (rv: int, x: int)
    requires q > 0 && n.kind == And && forall i :: 0 <= i < |n.kids| ==> T.NodeShape(n.kids[i], false)
    ensures rv in {Errors.SUCCESS, Errors.E_INSUFFICIENT}
    ensures rv == Errors.SUCCESS <==> Count(KidHolds(n, given.Keys)) == |n.kids|
    ensures rv == Errors.SUCCESS && Genuine(n, w, given, full, q, pid) ==> Cong(x, w.v, q)
    ensures rv == Errors.SUCCESS && InField(given, q) ==> 0 <= x < q
    decreases n, 0
  {
    ghost var holds := KidHolds(n, given.Keys);
    x := 0;
    CountAll(holds);
    for i := 0 to |n.kids|
      invariant 0 <= x < q && (forall j :: 0 <= j < i ==> holds[j])
      invariant SummedSoFar(n, w, given, full, q, pid, x, i)
    {
      var share;
      rv, share := Reconstruct(n.kids[i], false, given, q, pid, KidTree(n, w, i), full);
      if rv != Errors.SUCCESS {
        assert !holds[i];
        return;
      }
      SumNext(n, w, given, full, q, pid, x, i, share);
      x := (x + share) % q;
    }
    if Genuine(n, w, given, full, q, pid) { SummedAll(n, w, given, full, q, pid, x); }
    rv := Errors.SUCCESS;
  }

  lemma SumGrows(x: int, share: int, vs: seq<int>, i: nat, q: nat)
    requires q > 0 && i < |vs| && Cong(x, SumInt(vs[..i]), q) && Cong(share, vs[i], q)
    ensures Cong((x + share) % q, SumInt(vs[..i + 1]), q)
  {
    assert vs[..i + 1][..i] == vs[..i];
    CongAdd(x, SumInt(vs[..i]), share, vs[i], q);
    CongMod(x + share, q);
  }

  /** The shares collected at a threshold node: their pids are those of children further and
      further right, and their values those of the node's polynomial. */
  ghost predicate Collected(n: Node, w: ShareTree, pids: seq<int>, shares: seq<int>, at: seq<nat>, bound: nat, q: nat,
                            pid: Hash)
    requires q > 0 && |pids| == |shares| == |at| && bound <= |n.kids|
  {
    && (forall j :: 0 <= j < |at| ==> at[j] < bound && pids[j] == pid.of(n.kids[at[j]].name))
    && (forall i, j :: 0 <= i < j < |at| ==> at[i] < at[j])
    && (forall j :: 0 <= j < |at| ==> Cong(shares[j], L.Eval(w.coeffs, pids[j]), q))
  }

  lemma CollectedDistinct(n: Node, w: ShareTree, pids: seq<int>, shares: seq<int>, at: seq<nat>, bound: nat, q: nat,
                          pid: Hash)
    requires q > 0 && |pids| == |shares| == |at| && bound <= |n.kids|
    requires Collected(n, w, pids, shares, at, bound, q, pid) && L.Distinct(Pids(n.kids, pid), q)
    ensures L.Distinct(pids, q)
  {
    var all := Pids(n.kids, pid);
    forall i, j | 0 <= i < j < |pids| ensures (pids[i] - pids[j]) % q != 0 {
      assert all[at[i]] == pids[i] && all[at[j]] == pids[j];
    }
  }

  lemma CollectOne(n: Node, w: ShareTree, pids: seq<int>, shares: seq<int>, at: seq<nat>, i: nat, share: int, q: nat,
                   pid: Hash)
    requires q > 0 && |pids| == |shares| == |at| && i < |n.kids|
    requires Collected(n, w, pids, shares, at, i, q, pid)
    requires Cong(share, L.Eval(w.coeffs, pid.of(n.kids[i].name)), q)
    ensures Collected(n, w, pids + [pid.of(n.kids[i].name)], shares + [share], at + [i], i + 1, q, pid)
  {
  }

  /** A child's genuine value is its polynomial value. */
  lemma ChildValue(n: Node, w: ShareTree, given: Shares, full: Shares, q: nat, pid: Hash, i: nat, share: int)
    requires q > 0 && n.kind == Threshold && i < |n.kids| && Genuine(n, w, given, full, q, pid)
    ensures |w.kids| == |n.kids| && Genuine(n.kids[i], w.kids[i], given, full, q, pid)
    ensures Cong(share, w.kids[i].v, q) ==> Cong(share, L.Eval(w.coeffs, pid.of(n.kids[i].name)), q)
  {
  }

  lemma CollectedMore(n: Node, w: ShareTree, given: Shares, full: Shares, q: nat, pid: Hash,
                      pids: seq<int>, shares: seq<int>, at: seq<nat>, i: nat)
    requires q > 0 && |pids| == |shares| == |at| && i < |n.kids|
    requires CollectedSoFar(n, w, given, full, q, pid, pids, shares, at, i)
    ensures CollectedSoFar(n, w, given, full, q, pid, pids, shares, at, i + 1)
  {
  }

  lemma CollectChild(n: Node, w: ShareTree, given: Shares, full: Shares, pids: seq<int>, shares: seq<int>, at: seq<nat>,
                     i: nat, share: int, q: nat, pid: Hash)
    requires q > 0 && n.kind == Threshold && |pids| == |shares| == |at| && i < |n.kids|
    requires CollectedSoFar(n, w, given, full, q, pid, pids, shares, at, i)
    requires Genuine(n.kids[i], KidTree(n, w, i), given, full, q, pid) ==> Cong(share, KidTree(n, w, i).v, q)
    ensures CollectedSoFar(n, w, given, full, q, pid, pids + [pid.of(n.kids[i].name)], shares + [share], at + [i],
                           i + 1)
  {
    if Genuine(n, w, given, full, q, pid) {
      ChildValue(n, w, given, full, q, pid, i, share);
      CollectOne(n, w, pids, shares, at, i, share, q, pid);
    }
  }

  /** The first n.k children that can be reconstructed, interpolated at 0. */
  method ReconstructThreshold(n: Node, given: Shares, q: nat, pid: Hash, ghost w: ShareTree,
                              ghost full: Shares)
    returns (rv: int, x: int)
    requires q > 0 && n.kind == Threshold && 1 <= n.k && forall i :: 0 <= i < |n.kids| ==> T.NodeShape(n.kids[i], false)
    ensures rv in {Errors.SUCCESS, Errors.E_INSUFFICIENT}
    ensures rv == Errors.SUCCESS <==> Count(KidHolds(n, given.Keys)) >= n.k
    ensures rv == Errors.SUCCESS && Genuine(n, w, given, full, q, pid) ==> Cong(x, w.v, q)
    ensures rv == Errors.SUCCESS ==> 0 <= x < q
    decreases n, 0
  {
    var pids: seq<int>, shares: seq<int>;
    ghost var at;
    pids, shares, at := CollectShares(n, given, q, pid, w, full);
    if |pids| < n.k { return Errors.E_INSUFFICIENT, 0; }
    rv := Errors.SUCCESS;
    x := L.Interpolate(0, shares, pids, q, w.coeffs);
    if Genuine(n, w, given, full, q, pid) {
      CollectedDistinct(n, w, pids, shares, at, |n.kids|, q, pid);
      assert L.Eval(w.coeffs, 0) == w.coeffs[0];
      CongMod(w.coeffs[0], q);
    }
  }

  method CollectShares(n: Node, given: Shares, q: nat, pid: Hash, ghost w: ShareTree, ghost full: Shares)
    returns (pids: seq<int>, shares: seq<int>, ghost at: seq<nat>)
    requires q > 0 && n.kind == Threshold && 1 <= n.k && forall i :: 0 <= i < |n.kids| ==> T.NodeShape(n.kids[i], false)
    ensures |pids| == |shares| == |at| <= n.k
    ensures |pids| == n.k <==> Count(KidHolds(n, given.Keys)) >= n.k
    ensures Genuine(n, w, given, full, q, pid) ==> Collected(n, w, pids, shares, at, |n.kids|, q, pid)
    decreases n, 0, 0
  {
    ghost var holds := KidHolds(n, given.Keys);
    pids, shares, at := [], [], [];
    assert holds[..0] == [];
    for i := 0 to |n.kids|
      invariant |pids| == |shares| == |at| == Count(holds[..i]) < n.k
      invariant CollectedSoFar(n, w, given, full, q, pid, pids, shares, at, i)
    {
      T.CountSnoc(holds, i);
      var rv, share := Reconstruct(n.kids[i], false, given, q, pid, KidTree(n, w, i), full);
      CollectedMore(n, w, given, full, q, pid, pids, shares, at, i);
      if rv == Errors.SUCCESS {
        CollectChild(n, w, given, full, pids, shares, at, i, share, q, pid);
        pids, shares, at := pids + [pid.of(n.kids[i].name)], shares + [share], at + [i];
        if |pids| == n.k {
          T.CountPrefix(holds, i + 1);
          return;
        }
      }
    }
    assert holds[..|n.kids|] == holds;
  }

  // ---------------------------------------------------------------- the law

  /** Only the leaves count. */
  lemma {:induction false} NodeHoldsLocal(n: Node, p: set<string>, s: set<string>)
    requires forall x :: x in LeafNames(n) ==> (x in p <==> x in s)
    ensures NodeHolds(n, p) == NodeHolds(n, s)
    decreases n
  {
    if n.kind != Leaf {
      forall i | 0 <= i < |n.kids| ensures KidHolds(n, p)[i] == KidHolds(n, s)[i] {
        LeafNamesAllHas(n.kids, i);
        NodeHoldsLocal(n.kids[i], p, s);
      }
      assert KidHolds(n, p) == KidHolds(n, s);
    }
  }

  /** Sharing a secret over a validated tree and reconstructing from the shares of any set of
      parties: it succeeds exactly for the sets that satisfy the structure, and gives back the
      secret, for every choice of the random values. */
  method ShareThenReconstruct(root: Node, secret: int, parties: set<string>, q: nat, pid: Hash,
                              rnd: Source)
    returns (rv: int, x: int)
    requires T.NodeShape(root, true) && T.NamesDistinct(root)
    requires Prime(q) && PidsDistinct(root, q, pid) && PidsNonzero(root, pid) && DrawsFrom(rnd, q)
    ensures rv == Errors.SUCCESS <==> NodeHolds(root, parties)
    ensures rv == Errors.SUCCESS ==> Cong(x, secret, q)
    ensures rv == Errors.SUCCESS && 0 <= secret < q ==> x == secret
  {
    var shares, c;
    ghost var w;
    shares, c, w := ShareRecursive(root, secret, true, q, pid, rnd, 0, map[]);
    var given := map p | p in shares && p in parties :: shares[p];
    assert given.Keys == parties * LeafNames(root);
    NodeHoldsLocal(root, given.Keys, parties);
    rv, x := Reconstruct(root, true, given, q, pid, w, shares);
    if rv == Errors.SUCCESS && 0 <= secret < q {
      RemainderUnique(x, 0, x, q);
      RemainderUnique(secret, 0, secret, q);
    }
  }
}
