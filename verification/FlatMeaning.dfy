/** What an accepted flat encoding means, told from the arrays alone, and how its sizes add up. */
module FlatMeaning {
  import opened Counting
  import opened AccessTree
  import opened FlatParser

  // ---------------------------------------------------------------- child counts

  function Counts(f: Flat): (c: seq<nat>)
    requires Searchable(f)
    ensures |c| == f.nodesCount
  {
    seq(f.nodesCount, i requires 0 <= i < f.nodesCount =>
      if f.nodes.value[i].count < 0 then 0 else f.nodes.value[i].count)
  }

  /** The sum of the entries of c whose index is in s. */
  function MaskSum(c: seq<nat>, s: set<nat>): nat
  {
    if c == [] then 0
    else MaskSum(c[..|c| - 1], s) + (if |c| - 1 in s then c[|c| - 1] else 0)
  }

  lemma {:induction false} MaskSumUnion(c: seq<nat>, s: set<nat>, t: set<nat>)
    requires s !! t
    ensures MaskSum(c, s + t) == MaskSum(c, s) + MaskSum(c, t)
  {
    if c != [] { MaskSumUnion(c[..|c| - 1], s, t); }
  }

  lemma {:induction false} MaskSumEmpty(c: seq<nat>)
    ensures MaskSum(c, {}) == 0
  {
    if c != [] { MaskSumEmpty(c[..|c| - 1]); }
  }

  lemma {:induction false} MaskSumOne(c: seq<nat>, x: nat)
    ensures MaskSum(c, {x}) == if x < |c| then c[x] else 0
  {
    if c != [] { MaskSumOne(c[..|c| - 1], x); }
  }

  lemma {:induction false} MaskSumFull(c: seq<nat>, s: set<nat>)
    requires forall x: nat :: x < |c| ==> x in s
    ensures MaskSum(c, s) == Sum(c)
  {
    if c != [] {
      var front := c[..|c| - 1];
      MaskSumFull(front, s);
      SumSnoc(front, c[|c| - 1]);
      assert front + [c[|c| - 1]] == c;
    }
  }

  lemma {:induction false} FullSetSize(s: set<nat>, n: nat)
    requires forall x: nat :: x in s <==> x < n
    ensures |s| == n
  {
    if n == 0 {
      assert s == {};
    } else {
      FullSetSize(s - {n - 1}, n - 1);
    }
  }

  lemma {:induction false} LayoutCounts(f: Flat, L: Layout)
    requires Searchable(f) && IsLayout(f, L) && Proper(L)
    ensures MaskSum(Counts(f), Nodes(L)) == |Nodes(L)| - 1
    decreases L, 1
  {
    LayoutCountsAll(f, L.kids);
    MaskSumUnion(Counts(f), {L.idx}, NodesAll(L.kids));
    MaskSumOne(Counts(f), L.idx);
    assert |{L.idx} + NodesAll(L.kids)| == 1 + |NodesAll(L.kids)|;
  }

  lemma {:induction false} LayoutCountsAll(f: Flat, Ls: seq<Layout>)
    requires Searchable(f) && ProperAll(Ls) && forall i :: 0 <= i < |Ls| ==> IsLayout(f, Ls[i])
    ensures MaskSum(Counts(f), NodesAll(Ls)) + |Ls| == |NodesAll(Ls)|
    decreases Ls, 0
  {
    if Ls == [] {
      MaskSumEmpty(Counts(f));
    } else {
      var last := |Ls| - 1;
      LayoutCountsAll(f, Ls[..last]);
      LayoutCounts(f, Ls[last]);
      MaskSumUnion(Counts(f), NodesAll(Ls[..last]), Nodes(Ls[last]));
    }
  }

  /** An accepted encoding has exactly one child entry for every node but the root. */
  lemma ChildCountsAddUp(f: Flat, L: Layout)
    requires Searchable(f) && Encodes(f, L)
    ensures Sum(Counts(f)) == f.nodesCount - 1
  {
    LayoutCounts(f, L);
    NodesInRange(f, L);
    MaskSumFull(Counts(f), Nodes(L));
    FullSetSize(Nodes(L), f.nodesCount);
  }

  // ---------------------------------------------------------------- the meaning of the arrays

  /** Child i of the node has the value true. */
  predicate ChildTrue(f: Flat, n: FlatNode, v: map<nat, bool>, i: nat)
    requires Searchable(f) && NodeRulesOk(f, n) && i < n.count
  {
    var c := Child(f, n, i);
    c >= 0 && c in v && v[c]
  }

  /** The places of the children with the value true. */
  function TrueChildren(f: Flat, n: FlatNode, v: map<nat, bool>): set<nat>
    requires Searchable(f) && NodeRulesOk(f, n)
  {
    set i: nat | i < n.count && ChildTrue(f, n, v, i)
  }

  /** The value of node x when its children have the values in v, read off the numbers in the arrays
      with no notion of a tree: a leaf (1) is true when its party is present, AND (2) when all its
      children are, OR (3) when one is, and a threshold (4) when at least k are. */
  predicate GateAt(f: Flat, x: nat, v: map<nat, bool>, present: set<string>)
    requires Searchable(f) && x < f.nodesCount && NodeRulesOk(f, NodeAt(f, x))
  {
    var n := NodeAt(f, x);
    match n.kind
    case 1 => n.leafName.value in present
    case 2 => forall i: nat :: i < n.count ==> ChildTrue(f, n, v, i)
    case 3 => exists i: nat :: i < n.count && ChildTrue(f, n, v, i)
    case _ => |TrueChildren(f, n, v)| >= n.k
  }

  /** The gate of the tree node is the meaning of the type. */
  lemma GateOfType(f: Flat, x: nat, v: map<nat, bool>, present: set<string>, vals: seq<bool>)
    requires Searchable(f) && x < f.nodesCount && NodeRulesOk(f, NodeAt(f, x))
    requires NodeAt(f, x).kind != 1 && |vals| == NodeAt(f, x).count
    requires forall i :: 0 <= i < |vals| ==> vals[i] == ChildTrue(f, NodeAt(f, x), v, i)
    ensures GateAt(f, x, v, present) == Gate(KindOf(NodeAt(f, x).kind), NodeAt(f, x).k, vals)
  {
    var n := NodeAt(f, x);
    CountAll(vals);
    CountNone(vals);
    CountIsSize(vals, TrueChildren(f, n, v));
    if n.kind == 3 && Count(vals) > 0 {
      var i :| 0 <= i < |vals| && vals[i];
      assert ChildTrue(f, n, v, i);
    }
  }

  /** Only the values of the children matter. */
  lemma GateLocal(f: Flat, x: nat, v: map<nat, bool>, w: map<nat, bool>, present: set<string>)
    requires Searchable(f) && x < f.nodesCount && NodeRulesOk(f, NodeAt(f, x))
    requires forall i: nat :: i < NodeAt(f, x).count ==>
               ChildTrue(f, NodeAt(f, x), v, i) == ChildTrue(f, NodeAt(f, x), w, i)
    ensures GateAt(f, x, v, present) == GateAt(f, x, w, present)
  {
    assert TrueChildren(f, NodeAt(f, x), v) == TrueChildren(f, NodeAt(f, x), w);
  }

  /** v gives every node of s the value of its gate, and s has the children of its nodes. */
  predicate Valuation(f: Flat, v: map<nat, bool>, s: set<nat>, present: set<string>)
    requires Searchable(f)
  {
    && s <= v.Keys
    && forall x :: x in s ==>
         && x < f.nodesCount && NodeRulesOk(f, NodeAt(f, x))
         && v[x] == GateAt(f, x, v, present)
         && Closed(f, x, s)
  }

  predicate Closed(f: Flat, x: nat, s: set<nat>)
    requires Searchable(f) && x < f.nodesCount && NodeRulesOk(f, NodeAt(f, x))
  {
    forall i :: 0 <= i < NodeAt(f, x).count ==>
      Child(f, NodeAt(f, x), i) >= 0 && Child(f, NodeAt(f, x), i) in s
  }

  /** Any consistent assignment of values to the nodes gives the root the tree's value. */
  lemma {:induction false} ArraysMeanTheTree(f: Flat, L: Layout, v: map<nat, bool>, s: set<nat>, present: set<string>)
    requires Searchable(f) && IsLayout(f, L) && Valuation(f, v, s, present) && Nodes(L) <= s
    ensures v[L.idx] == Holds(TreeOf(f, L), present)
    decreases L
  {
    var n, t := NodeAt(f, L.idx), TreeOf(f, L);
    if n.kind != 1 {
      var vals := seq(|t.kids|, i requires 0 <= i < |t.kids| => Holds(t.kids[i], present));
      forall i | 0 <= i < n.count ensures vals[i] == ChildTrue(f, n, v, i) {
        NodesAllHas(L.kids, i);
        ArraysMeanTheTree(f, L.kids[i], v, s, present);
      }
      GateOfType(f, L.idx, v, present, vals);
    }
  }

  lemma {:induction false} NodesAllHas(Ls: seq<Layout>, i: nat)
    requires i < |Ls|
    ensures Nodes(Ls[i]) <= NodesAll(Ls) && Ls[i].idx in Nodes(Ls[i])
    decreases |Ls|
  {
    var last := |Ls| - 1;
    if i < last {
      NodesAllHas(Ls[..last], i);
      assert Ls[..last][i] == Ls[i];
    }
  }

  /** Such an assignment exists: the values of the subtrees. */
  lemma {:induction false} ValuationExists(f: Flat, L: Layout, present: set<string>) returns (v: map<nat, bool>)
    requires Searchable(f) && IsLayout(f, L) && Proper(L)
    ensures v.Keys == Nodes(L) && Valuation(f, v, Nodes(L), present)
    decreases L, 1
  {
    var w := ValuationExistsAll(f, L.kids, present);
    var n := NodeAt(f, L.idx);
    v := w[L.idx := GateAt(f, L.idx, w, present)];
    forall i | 0 <= i < n.count ensures Child(f, n, i) in Nodes(L) && Child(f, n, i) in w {
      NodesAllHas(L.kids, i);
    }
    forall x | x in Nodes(L)
      ensures x < f.nodesCount && NodeRulesOk(f, NodeAt(f, x))
      ensures v[x] == GateAt(f, x, v, present) && Closed(f, x, Nodes(L))
    {
      if x == L.idx {
        GateLocal(f, x, v, w, present);
      } else {
        Extend(f, x, w, v, NodesAll(L.kids), Nodes(L), present);
      }
    }
  }

  /** Adding nodes elsewhere keeps the value of a node whose children have values. */
  lemma Extend(f: Flat, x: nat, w: map<nat, bool>, v: map<nat, bool>, s: set<nat>, s': set<nat>, present: set<string>)
    requires Searchable(f) && Valuation(f, w, s, present) && x in s && s <= s'
    requires forall y :: y in s ==> y in v && v[y] == w[y]
    ensures x < f.nodesCount && NodeRulesOk(f, NodeAt(f, x))
    ensures v[x] == GateAt(f, x, v, present) && Closed(f, x, s')
  {
    var n := NodeAt(f, x);
    forall i: nat | i < n.count ensures ChildTrue(f, n, v, i) == ChildTrue(f, n, w, i) {
      assert Closed(f, x, s);
    }
    GateLocal(f, x, v, w, present);
  }

  lemma {:induction false} ValuationExistsAll(f: Flat, Ls: seq<Layout>, present: set<string>)
    returns (v: map<nat, bool>)
    requires Searchable(f) && ProperAll(Ls) && forall i :: 0 <= i < |Ls| ==> IsLayout(f, Ls[i])
    ensures v.Keys == NodesAll(Ls) && Valuation(f, v, NodesAll(Ls), present)
    decreases Ls, 0
  {
    if Ls == [] {
      v := map[];
    } else {
      var last := |Ls| - 1;
      var a := ValuationExistsAll(f, Ls[..last], present);
      var b := ValuationExists(f, Ls[last], present);
      v := a + b;
      forall x | x in NodesAll(Ls)
        ensures x < f.nodesCount && NodeRulesOk(f, NodeAt(f, x))
        ensures v[x] == GateAt(f, x, v, present) && Closed(f, x, NodesAll(Ls))
      {
        if x in Nodes(Ls[last]) {
          Extend(f, x, b, v, Nodes(Ls[last]), NodesAll(Ls), present);
        } else {
          Extend(f, x, a, v, NodesAll(Ls[..last]), NodesAll(Ls), present);
        }
      }
    }
  }

  /** An accepted encoding has consistent values, and every choice of them gives the root the
      value of the parsed tree. */
  lemma EncodingMeansTree(f: Flat, L: Layout, present: set<string>) returns (v: map<nat, bool>)
    requires Searchable(f) && Encodes(f, L)
    ensures Valuation(f, v, Nodes(L), present)
    ensures forall w :: Valuation(f, w, Nodes(L), present) ==> w[f.root] == Holds(TreeOf(f, L), present)
  {
    v := ValuationExists(f, L, present);
    forall w | Valuation(f, w, Nodes(L), present) ensures w[f.root] == Holds(TreeOf(f, L), present) {
      ArraysMeanTheTree(f, L, w, Nodes(L), present);
    }
  }

  // ---------------------------------------------------------------- what the parser promises its users

  /** The parsed tree is as high as the layout. */
  lemma {:induction false} HeightOfLayout(f: Flat, L: Layout)
    requires Searchable(f) && IsLayout(f, L)
    ensures Height(TreeOf(f, L)) == LayoutHeight(L)
    decreases L
  {
    var t := TreeOf(f, L);
    forall i | 0 <= i < |L.kids| ensures Height(t.kids[i]) == LayoutHeight(L.kids[i]) {
      HeightOfLayout(f, L.kids[i]);
    }
    HeightsAgree(t.kids, L.kids);
  }

  lemma {:induction false} HeightsAgree(ts: seq<Tree>, Ls: seq<Layout>)
    requires |ts| == |Ls| && forall i :: 0 <= i < |ts| ==> Height(ts[i]) == LayoutHeight(Ls[i])
    ensures HeightAll(ts) == LayoutHeightAll(Ls)
    decreases |ts|
  {
    if ts != [] { HeightsAgree(ts[..|ts| - 1], Ls[..|Ls| - 1]); }
  }

  lemma {:induction false} ShapeOfLayout(f: Flat, L: Layout)
    requires Searchable(f) && IsLayout(f, L)
    ensures ShapeOk(TreeOf(f, L))
    decreases L
  {
    var t := TreeOf(f, L);
    forall i | 0 <= i < |t.kids| ensures ShapeOk(t.kids[i]) { ShapeOfLayout(f, L.kids[i]); }
    assert |t.kids| == |L.kids| == NodeAt(f, L.idx).count;
  }

  lemma {:induction false} SizeOfLayout(f: Flat, L: Layout)
    requires Searchable(f) && IsLayout(f, L) && Proper(L)
    ensures Size(TreeOf(f, L)) == |Nodes(L)|
    decreases L, 1
  {
    SizeOfLayouts(f, L.kids, TreeOf(f, L).kids);
    assert |{L.idx} + NodesAll(L.kids)| == 1 + |NodesAll(L.kids)|;
  }

  lemma {:induction false} SizeOfLayouts(f: Flat, Ls: seq<Layout>, ts: seq<Tree>)
    requires Searchable(f) && ProperAll(Ls) && |ts| == |Ls|
    requires forall i :: 0 <= i < |Ls| ==> IsLayout(f, Ls[i]) && ts[i] == TreeOf(f, Ls[i])
    ensures SizeAll(ts) == |NodesAll(Ls)|
    decreases Ls, 0
  {
    if Ls != [] {
      var last := |Ls| - 1;
      SizeOfLayouts(f, Ls[..last], ts[..last]);
      SizeOfLayout(f, Ls[last]);
    }
  }

  /** A parsed tree passes every check of the next stage: the shape rules, the height and the
      number of nodes. */
  lemma ParsedTreeIsValid(f: Flat, L: Layout)
    requires Searchable(f) && Encodes(f, L)
    ensures var t := TreeOf(f, L);
            ShapeOk(t) && Height(t) <= MAX_DEPTH && Size(t) == f.nodesCount <= MAX_NODES && t.kind != Leaf
  {
    ShapeOfLayout(f, L);
    HeightOfLayout(f, L);
    SizeOfLayout(f, L);
    NodesInRange(f, L);
    FullSetSize(Nodes(L), f.nodesCount);
  }
}
