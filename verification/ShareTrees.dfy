/** Sharing a value over an access structure as a function of the random draws: which share every
    leaf gets, and that the shares are consistent at every gate.
 */
module ShareTrees {
  import opened AccessTree
  import opened Counting
  import opened Arithmetic
  import opened Field
  import opened Polynomials
  import L = Lagrange
  import T = TreeBuilder

  type Shares = map<string, int>

  /** pid_from_name. */
  datatype Hash = Hash(of: string -> nat)

  /** The random values in the order they are drawn. */
  datatype Source = Source(draw: nat -> nat)

  /** They are drawn from the field. */
  ghost predicate DrawsFrom(rnd: Source, q: nat) { forall i :: rnd.draw(i) < q }

  // ---------------------------------------------------------------- the order children are visited in

  /** Strict lexicographic order. */
  predicate Less(a: string, b: string)
  {
    b != [] && (a == [] || a[0] < b[0] || (a[0] == b[0] && Less(a[1..], b[1..])))
  }

  /** The names agree up to some place, and there a ends or has the smaller character. */
  lemma {:induction false} LessIsLexicographic(a: string, b: string)
    ensures Less(a, b) <==> exists i :: FirstDifference(a, b, i)
  {
    if a != [] && b != [] && a[0] == b[0] {
      LessIsLexicographic(a[1..], b[1..]);
      if Less(a, b) {
        var i :| FirstDifference(a[1..], b[1..], i);
        assert FirstDifference(a, b, i + 1);
      } else if i :| FirstDifference(a, b, i) {
        assert FirstDifference(a[1..], b[1..], i - 1);
      }
    } else if Less(a, b) {
      assert FirstDifference(a, b, 0);
    }
  }

  predicate FirstDifference(a: string, b: string, i: int)
  {
    && 0 <= i <= |a| && i < |b| && (forall j :: 0 <= j < i ==> a[j] == b[j])
    && (i == |a| || a[i] < b[i])
  }

  lemma {:induction false} LessAsymmetric(a: string, b: string)
    requires Less(a, b)
    ensures !Less(b, a)
  {
    if a != [] && a[0] == b[0] { LessAsymmetric(a[1..], b[1..]); }
  }

  /** order lists the indices below n, each once. */
  predicate IsOrder(order: seq<nat>, n: nat)
  {
    && |order| == n && (forall i :: 0 <= i < n ==> order[i] < n)
    && (forall i, j :: 0 <= i < j < n ==> order[i] != order[j])
    && (forall j: nat :: j < n ==> j in order)
  }

  predicate SortedByName(kids: seq<Node>, order: seq<nat>)
    requires forall i :: 0 <= i < |order| ==> order[i] < |kids|
  {
    forall i :: 0 <= i < |order| - 1 ==> !Less(kids[order[i + 1]].name, kids[order[i]].name)
  }

  /** The place of a new entry: before the first larger one, from p on. */
  function Place(kids: seq<Node>, order: seq<nat>, x: nat, p: nat): (r: nat)
    requires x < |kids| && (forall i :: 0 <= i < |order| ==> order[i] < |kids|) && p <= |order|
    ensures p <= r <= |order|
    decreases |order| - p
  {
    if p == |order| || Less(kids[x].name, kids[order[p]].name) then p else Place(kids, order, x, p + 1)
  }

  lemma InsertOrder(order: seq<nat>, k: nat, p: nat)
    requires IsOrder(order, k) && p <= k
    ensures IsOrder(order[..p] + [k] + order[p..], k + 1)
  {
    var o := order[..p] + [k] + order[p..];
    forall j: nat | j < k + 1 ensures j in o {
      if j == k { assert o[p] == k; } else {
        assert j in order;
        var i :| 0 <= i < k && order[i] == j;
        assert o[if i < p then i else i + 1] == j;
      }
    }
  }

  lemma InsertSorted(kids: seq<Node>, order: seq<nat>, k: nat, p: nat, o: seq<nat>)
    requires k < |kids| && IsOrder(order, k) && SortedByName(kids, order) && p <= k
    requires o == order[..p] + [k] + order[p..]
    requires p < k ==> Less(kids[k].name, kids[order[p]].name)
    requires p > 0 ==> !Less(kids[k].name, kids[order[p - 1]].name)
    ensures IsOrder(o, k + 1) && SortedByName(kids, o)
  {
    InsertOrder(order, k, p);
    if p < k { LessAsymmetric(kids[k].name, kids[order[p]].name); }
    forall i | 0 <= i < k ensures !Less(kids[o[i + 1]].name, kids[o[i]].name) {
      if i + 1 < p { assert o[i] == order[i] && o[i + 1] == order[i + 1]; }
      else if i > p { assert o[i] == order[i - 1] && o[i + 1] == order[i - 1 + 1]; }
    }
  }

  predicate Within(order: seq<nat>, n: nat) { |order| == n && forall i :: 0 <= i < n ==> order[i] < n }

  /** The first k indices in the order of the names. */
  function OrderOf(kids: seq<Node>, k: nat): (order: seq<nat>)
    requires k <= |kids|
    ensures Within(order, k)
    decreases k
  {
    if k == 0 then []
    else
      var o := OrderOf(kids, k - 1);
      var p := Place(kids, o, k - 1, 0);
      o[..p] + [k - 1] + o[p..]
  }

  lemma {:induction false} OrderListsAll(kids: seq<Node>, k: nat)
    requires k <= |kids|
    ensures IsOrder(OrderOf(kids, k), k)
    decreases k
  {
    if k > 0 {
      var o := OrderOf(kids, k - 1);
      OrderListsAll(kids, k - 1);
      InsertOrder(o, k - 1, Place(kids, o, k - 1, 0));
    }
  }

  /** Where a new entry is placed, it keeps the order. */
  lemma {:induction false} PlaceOk(kids: seq<Node>, order: seq<nat>, x: nat, p: nat)
    requires x < |kids| && (forall i :: 0 <= i < |order| ==> order[i] < |kids|) && p <= |order|
    requires p > 0 ==> !Less(kids[x].name, kids[order[p - 1]].name)
    ensures var r := Place(kids, order, x, p);
            && (r < |order| ==> Less(kids[x].name, kids[order[r]].name))
            && (r > 0 ==> !Less(kids[x].name, kids[order[r - 1]].name))
    decreases |order| - p
  {
    if p < |order| && !Less(kids[x].name, kids[order[p]].name) { PlaceOk(kids, order, x, p + 1); }
  }

  lemma {:induction false} OrderSorted(kids: seq<Node>, k: nat)
    requires k <= |kids|
    ensures SortedByName(kids, OrderOf(kids, k))
    decreases k
  {
    if k > 0 {
      OrderSorted(kids, k - 1);
      OrderListsAll(kids, k - 1);
      var o := OrderOf(kids, k - 1);
      PlaceSorts(kids, o, k - 1, Place(kids, o, k - 1, 0));
    }
  }

  lemma PlaceSorts(kids: seq<Node>, order: seq<nat>, k: nat, p: nat)
    requires k < |kids| && IsOrder(order, k) && SortedByName(kids, order) && p == Place(kids, order, k, 0)
    ensures SortedByName(kids, order[..p] + [k] + order[p..])
  {
    PlaceOk(kids, order, k, 0);
    InsertSorted(kids, order, k, p, order[..p] + [k] + order[p..]);
  }

  lemma {:induction false} SumCons(a: int, s: seq<int>)
    ensures SumInt([a] + s) == a + SumInt(s)
    decreases |s|
  {
    if s == [] {
      assert ([a] + s)[..0] == [];
    } else {
      var k := |s| - 1;
      assert ([a] + s)[..|s|] == [a] + s[..k];
      SumCons(a, s[..k]);
    }
  }

  /** A sum does not depend on the order. */
  lemma {:induction false} PermutedSum(order: seq<nat>, s: seq<int>, t: seq<int>)
    requires IsOrder(order, |s|) && |t| == |s| && forall i :: 0 <= i < |s| ==> t[i] == s[order[i]]
    ensures SumInt(t) == SumInt(s)
    decreases |s|
  {
    if s != [] {
      var k := |s| - 1;
      var p := PlaceOf(order, |s|, k);
      var o, u := order[..p] + order[p + 1..], t[..p] + t[p + 1..];
      RemoveOrder(order, p);
      forall i | 0 <= i < k ensures u[i] == s[..k][o[i]] {}
      PermutedSum(o, s[..k], u);
      SumRemove(t, p);
    }
  }

  lemma RemoveOrder(order: seq<nat>, p: nat)
    requires |order| > 0 && IsOrder(order, |order|) && p < |order| && order[p] == |order| - 1
    ensures IsOrder(order[..p] + order[p + 1..], |order| - 1)
  {
    var k := |order| - 1;
    var o := order[..p] + order[p + 1..];
    forall i | 0 <= i < k ensures o[i] < k {
      var m := if i < p then i else i + 1;
      assert o[i] == order[m] && order[m] != order[p];
    }
    forall j: nat | j < k ensures j in o {
      assert j in order;
      var i :| 0 <= i < |order| && order[i] == j;
      assert o[if i < p then i else i - 1] == j;
    }
  }

  lemma {:induction false} SumRemove(t: seq<int>, p: nat)
    requires p < |t|
    ensures SumInt(t) == SumInt(t[..p] + t[p + 1..]) + t[p]
    decreases |t|
  {
    var k := |t| - 1;
    if p == k {
      assert t[..p] + t[p + 1..] == t[..k];
    } else {
      SumRemove(t[..k], p);
      var u := t[..p] + t[p + 1..];
      assert u[..|u| - 1] == t[..k][..p] + t[..k][p + 1..] && u[|u| - 1] == t[k];
    }
  }

  // ---------------------------------------------------------------- what a sharing is

  /** The value shared at each node, and the polynomial of each threshold node. */
  datatype ShareTree = ShareTree(v: int, coeffs: seq<int>, kids: seq<ShareTree>)

  function Vs(ws: seq<ShareTree>): (s: seq<int>)
    ensures |s| == |ws|
  {
    seq(|ws|, i requires 0 <= i < |ws| => ws[i].v)
  }

  /** The relation between a node's value and its children's values. */
  predicate GateShares(n: Node, w: ShareTree, q: nat, pid: Hash)
    requires q > 0 && |w.kids| == |n.kids|
  {
    match n.kind
    case Or => forall i :: 0 <= i < |n.kids| ==> w.kids[i].v == w.v
    case And => Cong(SumInt(Vs(w.kids)), w.v, q)
    case Threshold =>
      |w.coeffs| == n.k && n.k >= 1 && Cong(w.coeffs[0], w.v, q)
      && forall i :: 0 <= i < |n.kids| ==> Cong(w.kids[i].v, L.Eval(w.coeffs, pid.of(n.kids[i].name)), q)
    case Leaf => false
    case Unknown => false
  }

  /** The shares of the leaves, with the values w at the inner nodes, share w.v at n. */
  predicate Shared(n: Node, w: ShareTree, shares: Shares, q: nat, pid: Hash)
    requires q > 0
    decreases n
  {
    if n.kind == Leaf then n.name in shares && shares[n.name] == w.v
    else |w.kids| == |n.kids| && GateShares(n, w, q, pid)
         && forall i :: 0 <= i < |n.kids| ==> Shared(n.kids[i], w.kids[i], shares, q, pid)
  }

  function LeafNames(n: Node): set<string>
    decreases n, 1
  {
    if n.kind == Leaf then {n.name} else LeafNamesAll(n.kids)
  }

  function LeafNamesAll(ns: seq<Node>): set<string>
    decreases ns, 0
  {
    if ns == [] then {} else LeafNamesAll(ns[..|ns| - 1]) + LeafNames(ns[|ns| - 1])
  }

  lemma {:induction false} LeafNamesAllHas(ns: seq<Node>, i: nat)
    requires i < |ns|
    ensures LeafNames(ns[i]) <= LeafNamesAll(ns)
    decreases |ns|
  {
    var last := |ns| - 1;
    if i < last {
      LeafNamesAllHas(ns[..last], i);
      assert ns[..last][i] == ns[i];
    }
  }

  lemma {:induction false} LeafNamesAreNames(n: Node)
    ensures LeafNames(n) <= T.AllNames(n)
    decreases n, 1
  {
    if n.kind != Leaf { LeafNamesAllAreNames(n.kids); }
  }

  lemma {:induction false} LeafNamesAllAreNames(ns: seq<Node>)
    ensures LeafNamesAll(ns) <= T.AllNamesAll(ns)
    decreases ns, 0
  {
    if ns != [] {
      LeafNamesAllAreNames(ns[..|ns| - 1]);
      LeafNamesAreNames(ns[|ns| - 1]);
    }
  }

  /** A sharing depends on the shares of the node's own leaves alone. */
  lemma {:induction false} SharedLocal(n: Node, w: ShareTree, a: Shares, b: Shares, q: nat, pid: Hash)
    requires q > 0 && Shared(n, w, a, q, pid)
    requires forall x :: x in LeafNames(n) && x in a ==> x in b && b[x] == a[x]
    ensures Shared(n, w, b, q, pid)
    decreases n
  {
    if n.kind != Leaf {
      forall i | 0 <= i < |n.kids| ensures Shared(n.kids[i], w.kids[i], b, q, pid) {
        LeafNamesAllHas(n.kids, i);
        SharedLocal(n.kids[i], w.kids[i], a, b, q, pid);
      }
    }
  }

  /** Children of a node with distinct names have disjoint leaves. */
  lemma {:induction false} KidsDisjoint(ns: seq<Node>, i: nat, j: nat)
    requires T.NamesDistinctAll(ns) && i < j < |ns|
    ensures LeafNames(ns[i]) !! LeafNames(ns[j])
    ensures T.NamesDistinct(ns[i]) && T.NamesDistinct(ns[j])
    decreases |ns|
  {
    var last := |ns| - 1;
    if j < last {
      KidsDisjoint(ns[..last], i, j);
      assert ns[..last][i] == ns[i] && ns[..last][j] == ns[j];
    } else {
      LeafNamesAreNames(ns[j]);
      LeafNamesAllAreNames(ns[..last]);
      LeafNamesAllHas(ns[..last], i);
      assert ns[..last][i] == ns[i];
      KidDistinct(ns[..last], i);
    }
  }

  lemma {:induction false} KidDistinct(ns: seq<Node>, i: nat)
    requires T.NamesDistinctAll(ns) && i < |ns|
    ensures T.NamesDistinct(ns[i])
    decreases |ns|
  {
    var last := |ns| - 1;
    if i < last {
      KidDistinct(ns[..last], i);
      assert ns[..last][i] == ns[i];
    }
  }

  predicate InField(shares: Shares, q: nat) { forall x :: x in shares ==> 0 <= shares[x] < q }

  /** The pid of every node that gets a polynomial value is not 0, as share_threshold asserts. */
  predicate PidsNonzero(n: Node, pid: Hash)
    decreases n
  {
    forall i :: 0 <= i < |n.kids| ==>
      (n.kind == Threshold ==> pid.of(n.kids[i].name) != 0) && PidsNonzero(n.kids[i], pid)
  }

  /** The values given to the children in visiting order satisfy the gate in declared order. */
  lemma GateFromOrder(n: Node, a: int, order: seq<nat>, vals: seq<int>, ws: seq<ShareTree>, coeffs: seq<int>, q: nat,
                      pid: Hash)
    requires q > 0 && IsOrder(order, |n.kids|) && |vals| == |ws| == |n.kids|
    requires forall m :: 0 <= m < |order| ==> ws[order[m]].v == vals[m]
    requires GateValues(n, a, order, vals, coeffs, q, pid)
    ensures GateShares(n, ShareTree(a, coeffs, ws), q, pid)
  {
    match n.kind
    case And => PermutedSum(order, Vs(ws), vals);
    case Or => forall j | 0 <= j < |n.kids| ensures ws[j].v == a { var m := PlaceOf(order, |n.kids|, j); }
    case Threshold =>
      forall j | 0 <= j < |n.kids| ensures Cong(ws[j].v, L.Eval(coeffs, pid.of(n.kids[j].name)), q) {
        var m := PlaceOf(order, |n.kids|, j);
      }
    case _ =>
  }

  lemma PlaceOf(order: seq<nat>, n: nat, j: nat) returns (m: nat)
    requires IsOrder(order, n) && j < n
    ensures m < n && order[m] == j
  {
    assert j in order;
    m :| m < n && order[m] == j;
  }

  /** What share_and, share_threshold and copying give the sorted children. */
  predicate GateValues(n: Node, a: int, order: seq<nat>, vals: seq<int>, coeffs: seq<int>, q: nat, pid: Hash)
    requires q > 0 && IsOrder(order, |n.kids|) && |vals| == |n.kids|
  {
    match n.kind
    case Or => forall m :: 0 <= m < |vals| ==> vals[m] == a
    case And => Cong(SumInt(vals), a, q)
    case Threshold =>
      |coeffs| == n.k && n.k >= 1 && coeffs[0] == a
      && forall m :: 0 <= m < |vals| ==> Cong(vals[m], L.Eval(coeffs, pid.of(n.kids[order[m]].name)), q)
    case Leaf => false
    case Unknown => false
  }

  lemma {:induction false} AllWithin(ns: seq<Node>, s: set<string>)
    requires forall j :: 0 <= j < |ns| ==> LeafNames(ns[j]) <= s
    ensures LeafNamesAll(ns) <= s
    decreases |ns|
  {
    if ns != [] { AllWithin(ns[..|ns| - 1], s); }
  }

  // ---------------------------------------------------------------- the sharing as a function of the draws

  /** The draws from place c on. */
  function Draws(rnd: Source, c: nat, k: nat): (s: seq<int>)
    ensures |s| == k
  {
    seq(k, i requires 0 <= i < k => rnd.draw(c + i))
  }

  /** How many values an inner node draws itself. */
  function Own(n: Node): nat
  {
    match n.kind
    case And => if n.kids == [] then 0 else |n.kids| - 1
    case Threshold => if n.k < 1 then 0 else n.k - 1
    case _ => 0
  }

  function Order(n: Node): (order: seq<nat>) ensures Within(order, |n.kids|) { OrderOf(n.kids, |n.kids|) }

  /** How many values are drawn at and below a node. */
  function DrawsUsed(n: Node): nat
    decreases n, |n.kids| + 1
  {
    if n.kind == Leaf then 0 else DrawsBefore(n, Order(n), |n.kids|)
  }

  /** How many values are drawn before the child in place m of the order is visited. */
  function DrawsBefore(n: Node, order: seq<nat>, m: nat): nat
    requires Within(order, |n.kids|) && m <= |n.kids|
    decreases n, m
  {
    if m == 0 then Own(n) else DrawsBefore(n, order, m - 1) + DrawsUsed(n.kids[order[m - 1]])
  }

  /** The value at x of the polynomial with constant term a and the draws as its other coefficients;
      a single coefficient is the value itself. */
  function PolyValue(a: int, own: seq<int>, x: int, q: nat): int
    requires q > 0
  {
    if own == [] then a else L.Eval([a] + own, x) % q
  }

  /** The value of the child in place m of the order, from n's value and its own draws. */
  function KidValue(n: Node, order: seq<nat>, a: int, q: nat, pid: Hash, own: seq<int>, m: nat): int
    requires q > 0 && |own| == Own(n) && Within(order, |n.kids|) && m < |n.kids|
  {
    match n.kind
    case And => if m == 0 then (a - SumInt(own)) % q else own[m - 1]
    case Threshold => PolyValue(a, own, pid.of(n.kids[order[m]].name), q)
    case _ => a
  }

  /** The shares with those of the leaves below n added, from n's value and the draws at place c and after. */
  function SharesOf(n: Node, a: int, q: nat, pid: Hash, rnd: Source, c: nat, shares: Shares): Shares
    requires q > 0
    decreases n, |n.kids| + 1
  {
    if n.kind == Leaf then shares[n.name := a]
    else SharesUpTo(n, Order(n), a, q, pid, Draws(rnd, c, Own(n)), rnd, c, shares, |n.kids|)
  }

  /** Those below the first m children. */
  function SharesUpTo(n: Node, order: seq<nat>, a: int, q: nat, pid: Hash, own: seq<int>, rnd: Source, c: nat,
                      shares: Shares, m: nat): Shares
    requires q > 0 && |own| == Own(n) && Within(order, |n.kids|) && m <= |n.kids|
    decreases n, m
  {
    if m == 0 then shares
    else
      SharesOf(n.kids[order[m - 1]], KidValue(n, order, a, q, pid, own, m - 1), q, pid, rnd,
               c + DrawsBefore(n, order, m - 1), SharesUpTo(n, order, a, q, pid, own, rnd, c, shares, m - 1))
  }

  function KidHolds(n: Node, present: set<string>): (s: seq<bool>)
    ensures |s| == |n.kids|
  {
    seq(|n.kids|, i requires 0 <= i < |n.kids| => NodeHolds(n.kids[i], present))
  }

  /** The pids of a threshold node's children differ modulo q. */
  predicate PidsDistinct(n: Node, q: nat, pid: Hash)
    requires q > 0
    decreases n
  {
    && (n.kind == Threshold ==> L.Distinct(Pids(n.kids, pid), q))
    && forall i :: 0 <= i < |n.kids| ==> PidsDistinct(n.kids[i], q, pid)
  }

  function Pids(kids: seq<Node>, pid: Hash): (s: seq<int>)
    ensures |s| == |kids|
  {
    seq(|kids|, i requires 0 <= i < |kids| => pid.of(kids[i].name))
  }

  // ---------------------------------------------------------------- every gate is consistent

  /** What the function gives the children satisfies the gate. */
  lemma KidValuesGate(n: Node, order: seq<nat>, a: int, q: nat, pid: Hash, own: seq<int>)
    returns (vals: seq<int>, coeffs: seq<int>)
    requires q > 0 && n.kind != Leaf && T.NodeRulesInternal(n, n.name == "") && |own| == Own(n)
    requires IsOrder(order, |n.kids|)
    ensures |vals| == |n.kids| && forall m :: 0 <= m < |n.kids| ==> vals[m] == KidValue(n, order, a, q, pid, own, m)
    ensures GateValues(n, a, order, vals, coeffs, q, pid)
  {
    vals := seq(|n.kids|, m requires 0 <= m < |n.kids| => KidValue(n, order, a, q, pid, own, m));
    coeffs := [a] + own;
    if n.kind == And {
      assert vals == [vals[0]] + own;
      AndSum(vals[0], a, own, SumInt(own), q);
    } else if n.kind == Threshold {
      forall m | 0 <= m < |n.kids| ensures Cong(vals[m], L.Eval(coeffs, pid.of(n.kids[order[m]].name)), q) {
        PolyValueCong(a, own, pid.of(n.kids[order[m]].name), q);
      }
    }
  }

  lemma AndSum(v: int, a: int, own: seq<int>, sum: int, q: nat)
    requires q > 0 && sum == SumInt(own) && v == (a - sum) % q
    ensures Cong(SumInt([v] + own), a, q)
  {
    SumCons(v, own);
    CongMod(a - sum, q);
    CongAdd(v, a - sum, sum, sum, q);
  }

  lemma PolyValueCong(a: int, own: seq<int>, x: int, q: nat)
    requires q > 0
    ensures Cong(PolyValue(a, own, x, q), L.Eval([a] + own, x), q)
  {
    if own == [] { assert [a][1..] == []; } else { CongMod(L.Eval([a] + own, x), q); }
  }

  /** The children's values stay in the field. */
  lemma KidValueInField(n: Node, order: seq<nat>, a: int, q: nat, pid: Hash, own: seq<int>, m: nat)
    requires q > 0 && |own| == Own(n) && Within(order, |n.kids|) && m < |n.kids|
    requires 0 <= a < q && Reduced(own, q)
    ensures 0 <= KidValue(n, order, a, q, pid, own, m) < q
  {
  }

  // which leaves have a share

  /** The leaves below the children in places i to m of the order. */
  function NamesBelow(n: Node, order: seq<nat>, i: nat, m: nat): set<string>
    requires Within(order, |n.kids|) && i <= m <= |n.kids|
    decreases m
  {
    if m == i then {} else NamesBelow(n, order, i, m - 1) + LeafNames(n.kids[order[m - 1]])
  }

  /** The shares of `names` have been written, and no others have changed. */
  predicate Wrote(before: Shares, after: Shares, names: set<string>)
  {
    after.Keys == before.Keys + names && forall x :: x in before && x !in names ==> after[x] == before[x]
  }

  lemma WroteBoth(a: Shares, b: Shares, c: Shares, s: set<string>, t: set<string>)
    requires Wrote(a, b, s) && Wrote(b, c, t)
    ensures Wrote(a, c, s + t)
  {
  }

  lemma {:induction false} SharesWrites(n: Node, a: int, q: nat, pid: Hash, rnd: Source, c: nat, shares: Shares)
    requires q > 0
    ensures Wrote(shares, SharesOf(n, a, q, pid, rnd, c, shares), LeafNames(n))
    decreases n, |n.kids| + 1
  {
    if n.kind != Leaf {
      OrderListsAll(n.kids, |n.kids|);
      KidsWrite(n, Order(n), a, q, pid, Draws(rnd, c, Own(n)), rnd, c, shares, 0, |n.kids|);
      AllNamesBelow(n, Order(n));
    }
  }

  lemma {:induction false} KidsWrite(n: Node, order: seq<nat>, a: int, q: nat, pid: Hash, own: seq<int>, rnd: Source,
                                     c: nat, shares: Shares, i: nat, m: nat)
    requires q > 0 && |own| == Own(n) && Within(order, |n.kids|) && i <= m <= |n.kids|
    ensures Wrote(SharesUpTo(n, order, a, q, pid, own, rnd, c, shares, i),
                  SharesUpTo(n, order, a, q, pid, own, rnd, c, shares, m), NamesBelow(n, order, i, m))
    decreases n, m
  {
    if m > i {
      KidsWrite(n, order, a, q, pid, own, rnd, c, shares, i, m - 1);
      var before := SharesUpTo(n, order, a, q, pid, own, rnd, c, shares, m - 1);
      var kid, v := n.kids[order[m - 1]], KidValue(n, order, a, q, pid, own, m - 1);
      var l := c + DrawsBefore(n, order, m - 1);
      SharesWrites(kid, v, q, pid, rnd, l, before);
      WroteBoth(SharesUpTo(n, order, a, q, pid, own, rnd, c, shares, i), before,
                SharesOf(kid, v, q, pid, rnd, l, before), NamesBelow(n, order, i, m - 1), LeafNames(kid));
    }
  }

  lemma {:induction false} NamesBelowHas(n: Node, order: seq<nat>, m: nat, i: nat)
    requires Within(order, |n.kids|) && i < m <= |n.kids|
    ensures LeafNames(n.kids[order[i]]) <= NamesBelow(n, order, 0, m)
  {
    if i < m - 1 { NamesBelowHas(n, order, m - 1, i); }
  }

  lemma {:induction false} NamesBelowWithin(n: Node, order: seq<nat>, m: nat)
    requires Within(order, |n.kids|) && m <= |n.kids|
    ensures NamesBelow(n, order, 0, m) <= LeafNamesAll(n.kids)
  {
    if m > 0 {
      NamesBelowWithin(n, order, m - 1);
      LeafNamesAllHas(n.kids, order[m - 1]);
    }
  }

  lemma AllNamesBelow(n: Node, order: seq<nat>)
    requires IsOrder(order, |n.kids|)
    ensures NamesBelow(n, order, 0, |n.kids|) == LeafNamesAll(n.kids)
  {
    NamesBelowWithin(n, order, |n.kids|);
    forall j | 0 <= j < |n.kids| ensures LeafNames(n.kids[j]) <= NamesBelow(n, order, 0, |n.kids|) {
      var m := PlaceOf(order, |n.kids|, j);
      NamesBelowHas(n, order, |n.kids|, m);
    }
    AllWithin(n.kids, NamesBelow(n, order, 0, |n.kids|));
  }

  /** A child's leaves are not below the children that come later. */
  lemma {:induction false} LaterApart(n: Node, order: seq<nat>, k: nat, m: nat)
    requires IsOrder(order, |n.kids|) && KidsApart(n) && k < m <= |n.kids|
    ensures LeafNames(n.kids[order[k]]) !! NamesBelow(n, order, k + 1, m)
    decreases m
  {
    if m > k + 1 {
      LaterApart(n, order, k, m - 1);
      assert order[k] != order[m - 1];
      assert LeafNames(n.kids[order[k]]) !! LeafNames(n.kids[order[m - 1]]);
    }
  }

  // the gates

  /** Different children have different leaves, everywhere in the tree. */
  predicate LeavesApart(n: Node)
    decreases n
  {
    KidsApart(n) && forall i :: 0 <= i < |n.kids| ==> LeavesApart(n.kids[i])
  }

  predicate KidsApart(n: Node)
  {
    forall i, j {:trigger LeafNames(n.kids[i]), LeafNames(n.kids[j])} ::
      0 <= i < j < |n.kids| ==> LeafNames(n.kids[i]) !! LeafNames(n.kids[j])
  }

  lemma {:induction false} DistinctLeavesApart(n: Node)
    requires T.NamesDistinctAll(n.kids)
    ensures LeavesApart(n)
    decreases n
  {
    forall i, j | 0 <= i < j < |n.kids| ensures LeafNames(n.kids[i]) !! LeafNames(n.kids[j]) {
      KidsDisjoint(n.kids, i, j);
    }
    forall i | 0 <= i < |n.kids| ensures LeavesApart(n.kids[i]) {
      KidDistinct(n.kids, i);
      DistinctLeavesApart(n.kids[i]);
    }
  }

  /** A sharing survives shares for other leaves. */
  lemma SharedKept(n: Node, w: ShareTree, x: Shares, y: Shares, names: set<string>, q: nat, pid: Hash)
    requires q > 0 && Shared(n, w, x, q, pid) && LeafNames(n) !! names && Wrote(x, y, names)
    ensures Shared(n, w, y, q, pid)
  {
    SharedLocal(n, w, x, y, q, pid);
  }

  /** The shares are consistent at every gate of the tree. */
  lemma {:induction false} SharesConsistent(n: Node, a: int, isRoot: bool, q: nat, pid: Hash, rnd: Source, c: nat,
                                            shares: Shares)
    returns (w: ShareTree)
    requires q > 0 && T.NodeShape(n, isRoot) && LeavesApart(n)
    ensures w.v == a && Shared(n, w, SharesOf(n, a, q, pid, rnd, c, shares), q, pid)
    decreases n, 1
  {
    if n.kind == Leaf { return ShareTree(a, [], []); }
    var own, order := Draws(rnd, c, Own(n)), Order(n);
    OrderListsAll(n.kids, |n.kids|);
    var vals, coeffs := KidValuesGate(n, order, a, q, pid, own);
    var ws := KidsConsistent(n, order, a, vals, q, pid, own, rnd, c, shares);
    GateFromOrder(n, a, order, vals, ws, coeffs, q, pid);
    w := ShareTree(a, coeffs, ws);
  }

  /** The trees of the children, in declared order. */
  lemma {:induction false} KidsConsistent(n: Node, order: seq<nat>, a: int, vals: seq<int>, q: nat, pid: Hash,
                                          own: seq<int>, rnd: Source, c: nat, shares: Shares)
    returns (ws: seq<ShareTree>)
    requires q > 0 && |own| == Own(n) && IsOrder(order, |n.kids|) && |vals| == |n.kids|
    requires T.NodeShapeAll(n.kids) && LeavesApart(n)
    requires forall m :: 0 <= m < |n.kids| ==> vals[m] == KidValue(n, order, a, q, pid, own, m)
    ensures |ws| == |n.kids| && forall m :: 0 <= m < |n.kids| ==> ws[order[m]].v == vals[m]
    ensures var all := SharesUpTo(n, order, a, q, pid, own, rnd, c, shares, |n.kids|);
            forall j :: 0 <= j < |n.kids| ==> Shared(n.kids[j], ws[j], all, q, pid)
    decreases n, 0, 1
  {
    ws := [];
    for j := 0 to |n.kids|
      invariant |ws| == j && forall m :: 0 <= m < |n.kids| && order[m] < j ==> ws[order[m]].v == vals[m]
      invariant var all := SharesUpTo(n, order, a, q, pid, own, rnd, c, shares, |n.kids|);
                forall i :: 0 <= i < j ==> Shared(n.kids[i], ws[i], all, q, pid)
    {
      var m := PlaceOf(order, |n.kids|, j);
      var w := KidConsistent(n, order, a, q, pid, own, rnd, c, shares, m);
      ws := ws + [w];
    }
  }

  /** What is shared below one child stays when the later ones are visited. */
  lemma {:induction false} KidConsistent(n: Node, order: seq<nat>, a: int, q: nat, pid: Hash, own: seq<int>,
                                         rnd: Source, c: nat, shares: Shares, m: nat)
    returns (w: ShareTree)
    requires q > 0 && |own| == Own(n) && IsOrder(order, |n.kids|) && m < |n.kids|
    requires T.NodeShapeAll(n.kids) && LeavesApart(n)
    ensures w.v == KidValue(n, order, a, q, pid, own, m)
    ensures Shared(n.kids[order[m]], w, SharesUpTo(n, order, a, q, pid, own, rnd, c, shares, |n.kids|), q, pid)
    decreases n, 0, 0
  {
    var kid := n.kids[order[m]];
    w := SharesConsistent(kid, KidValue(n, order, a, q, pid, own, m), false, q, pid, rnd,
                          c + DrawsBefore(n, order, m), SharesUpTo(n, order, a, q, pid, own, rnd, c, shares, m));
    KidsWrite(n, order, a, q, pid, own, rnd, c, shares, m + 1, |n.kids|);
    LaterApart(n, order, m, |n.kids|);
    SharedKept(kid, w, SharesUpTo(n, order, a, q, pid, own, rnd, c, shares, m + 1),
               SharesUpTo(n, order, a, q, pid, own, rnd, c, shares, |n.kids|), NamesBelow(n, order, m + 1, |n.kids|),
               q, pid);
  }

  /** With draws and the value in the field, so are the shares. */
  lemma {:induction false} SharesInField(n: Node, a: int, q: nat, pid: Hash, rnd: Source, c: nat, shares: Shares)
    requires 0 <= a < q && DrawsFrom(rnd, q) && InField(shares, q)
    ensures InField(SharesOf(n, a, q, pid, rnd, c, shares), q)
    decreases n, |n.kids| + 1
  {
    if n.kind != Leaf { FirstInField(n, Order(n), a, q, pid, Draws(rnd, c, Own(n)), rnd, c, shares, |n.kids|); }
  }

  lemma {:induction false} FirstInField(n: Node, order: seq<nat>, a: int, q: nat, pid: Hash, own: seq<int>,
                                        rnd: Source, c: nat, shares: Shares, m: nat)
    requires 0 <= a < q && |own| == Own(n) && Reduced(own, q) && Within(order, |n.kids|) && m <= |n.kids|
    requires DrawsFrom(rnd, q) && InField(shares, q)
    ensures InField(SharesUpTo(n, order, a, q, pid, own, rnd, c, shares, m), q)
    decreases n, m
  {
    if m > 0 {
      FirstInField(n, order, a, q, pid, own, rnd, c, shares, m - 1);
      KidValueInField(n, order, a, q, pid, own, m - 1);
      SharesInField(n.kids[order[m - 1]], KidValue(n, order, a, q, pid, own, m - 1), q, pid, rnd,
                    c + DrawsBefore(n, order, m - 1), SharesUpTo(n, order, a, q, pid, own, rnd, c, shares, m - 1));
    }
  }
}
