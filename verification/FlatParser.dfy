/** Parsing the flat C encoding of an access structure (`to_cpp_access_structure`).

    The input is an array of nodes, each naming a slice of a shared array of child indices. The
    parser is a depth-first search that colours nodes unvisited, visiting and done. What it must
    accept is stated without it: the arrays encode a tree when there is a `Layout`, a tree of node
    indices that follows the child slices, uses every node once and obeys the rules.
 */
module FlatParser {
  import opened Counting
  import opened AccessTree
  import opened Options
  import Errors

  /** cbmpc_access_structure_node_t; a null leaf_name is None. */
  datatype FlatNode = FlatNode(kind: int, leafName: Option<string>, k: int, off: int, count: int)

  /** cbmpc_access_structure_t; a null array is None. */
  datatype Flat = Flat(nodes: Option<seq<FlatNode>>, nodesCount: int,
                       childIndices: Option<seq<int>>, childIndicesCount: int, root: int)

  /** What C callers owe: an array that is not null has the length they say. */
  predicate ArraysAsDeclared(f: Flat)
  {
    && (f.nodes.Some? && f.nodesCount >= 0 ==> |f.nodes.value| == f.nodesCount)
    && (f.childIndices.Some? && f.childIndicesCount >= 0 ==> |f.childIndices.value| == f.childIndicesCount)
  }

  /** What the arrays must be before there is a search at all. */
  predicate Searchable(f: Flat)
  {
    && ArraysAsDeclared(f) && f.nodes.Some? && 0 <= f.root < f.nodesCount <= 4096
    && f.childIndicesCount >= 0 && (f.childIndicesCount > 0 ==> f.childIndices.Some?)
  }

  /** The rules for one node of the array, on its numbers: type 1 is a leaf, 2 is AND, 3 is OR, 4 is a threshold. */
  predicate NodeRulesOk(f: Flat, n: FlatNode)
  {
    && 1 <= n.kind <= 4 && n.off >= 0 && n.count >= 0
    && (n.count > 0 ==> n.off + n.count <= f.childIndicesCount)
    && (n.kind == 1 ==> n.leafName.Some? && n.leafName.value != "" && n.count == 0)
    && (n.kind != 1 ==> n.leafName.None? && n.count > 0)
    && (if n.kind == 4 then 1 <= n.k <= n.count else n.k == 0)
  }

  /** The kind of tree node for a type. */
  ghost function KindOf(kind: int): Kind
  {
    match kind
    case 1 => Leaf
    case 2 => And
    case 3 => Or
    case 4 => Threshold
    case _ => Unknown
  }

  function NodeAt(f: Flat, idx: nat): FlatNode
    requires Searchable(f) && idx < f.nodesCount
  {
    f.nodes.value[idx]
  }

  function Child(f: Flat, n: FlatNode, i: nat): int
    requires Searchable(f) && NodeRulesOk(f, n) && i < n.count
  {
    f.childIndices.value[n.off + i]
  }

  // ---------------------------------------------------------------- layouts

  /** A tree of node indices. */
  datatype Layout = Layout(idx: nat, kids: seq<Layout>)

  /** L follows the child slices of f and every node on it obeys the rules. */
  predicate IsLayout(f: Flat, L: Layout)
    requires Searchable(f)
    decreases L
  {
    && L.idx < f.nodesCount
    && var n := NodeAt(f, L.idx);
    && NodeRulesOk(f, n) && |L.kids| == n.count
    && forall i :: 0 <= i < |L.kids| ==> L.kids[i].idx == Child(f, n, i) && IsLayout(f, L.kids[i])
  }

  /** The nodes L uses. */
  function Nodes(L: Layout): set<nat>
    decreases L, 1
  {
    {L.idx} + NodesAll(L.kids)
  }

  function NodesAll(Ls: seq<Layout>): set<nat>
    decreases Ls, 0
  {
    if Ls == [] then {} else NodesAll(Ls[..|Ls| - 1]) + Nodes(Ls[|Ls| - 1])
  }

  /** L uses no node twice. */
  predicate Proper(L: Layout)
    decreases L, 1
  {
    L.idx !in NodesAll(L.kids) && ProperAll(L.kids)
  }

  predicate ProperAll(Ls: seq<Layout>)
    decreases Ls, 0
  {
    Ls == [] ||
    var last := |Ls| - 1;
    ProperAll(Ls[..last]) && Proper(Ls[last]) && NodesAll(Ls[..last]) !! Nodes(Ls[last])
  }

  function LayoutHeight(L: Layout): nat
    decreases L, 1
  {
    if L.kids == [] then 0 else 1 + LayoutHeightAll(L.kids)
  }

  function LayoutHeightAll(Ls: seq<Layout>): nat
    decreases Ls, 0
  {
    if Ls == [] then 0 else Max(LayoutHeightAll(Ls[..|Ls| - 1]), LayoutHeight(Ls[|Ls| - 1]))
  }

  /** f encodes one rooted tree, L, that reaches every node exactly once. */
  predicate Encodes(f: Flat, L: Layout)
    requires Searchable(f)
  {
    && L.idx == f.root && IsLayout(f, L) && Proper(L)
    && (forall x: nat :: x < f.nodesCount ==> x in Nodes(L))
    && LayoutHeight(L) <= 128 && NodeAt(f, L.idx).kind != 1
  }

  /** The public tree of a layout. */
  ghost function TreeOf(f: Flat, L: Layout): Tree
    requires Searchable(f) && IsLayout(f, L)
    decreases L
  {
    var n := NodeAt(f, L.idx);
    Tree(KindOf(n.kind), NameOf(n), n.k, seq(|L.kids|, i requires 0 <= i < |L.kids| => TreeOf(f, L.kids[i])))
  }

  function NameOf(n: FlatNode): string { if n.leafName.Some? then n.leafName.value else "" }

  /** A type that is none of the four has no layout. */
  lemma OtherTypesHaveNone(f: Flat, L: Layout)
    requires Searchable(f) && L.idx < f.nodesCount && NodeAt(f, L.idx).kind !in {1, 2, 3, 4}
    ensures !IsLayout(f, L)
  {
  }

  /** A node index has at most one layout. */
  lemma {:induction false} LayoutUnique(f: Flat, L: Layout, M: Layout)
    requires Searchable(f) && IsLayout(f, L) && IsLayout(f, M) && L.idx == M.idx
    ensures L == M
    decreases L
  {
    forall i | 0 <= i < |L.kids| ensures L.kids[i] == M.kids[i] { LayoutUnique(f, L.kids[i], M.kids[i]); }
    assert L.kids == M.kids;
  }

  lemma {:induction false} NodesInRange(f: Flat, L: Layout)
    requires Searchable(f) && IsLayout(f, L)
    ensures forall x :: x in Nodes(L) ==> x < f.nodesCount
    decreases L, 1
  {
    NodesAllInRange(f, L.kids);
  }

  lemma {:induction false} NodesAllInRange(f: Flat, Ls: seq<Layout>)
    requires Searchable(f) && forall i :: 0 <= i < |Ls| ==> IsLayout(f, Ls[i])
    ensures forall x :: x in NodesAll(Ls) ==> x < f.nodesCount
    decreases Ls, 0
  {
    if Ls != [] {
      NodesAllInRange(f, Ls[..|Ls| - 1]);
      NodesInRange(f, Ls[|Ls| - 1]);
    }
  }

  lemma {:induction false} ProperPrefix(Ls: seq<Layout>, m: nat)
    requires ProperAll(Ls) && m < |Ls|
    ensures ProperAll(Ls[..m]) && Proper(Ls[m])
    ensures NodesAll(Ls[..m]) !! Nodes(Ls[m])
    ensures Nodes(Ls[m]) <= NodesAll(Ls)
    ensures LayoutHeight(Ls[m]) <= LayoutHeightAll(Ls)
    decreases |Ls|
  {
    var last := |Ls| - 1;
    if m < last {
      ProperPrefix(Ls[..last], m);
      assert Ls[..last][..m] == Ls[..m] && Ls[..last][m] == Ls[m];
    }
  }

  // ---------------------------------------------------------------- the search

  /** Colours: 0 unvisited, 1 visiting, 2 done. */
  type Colours = seq<nat>

  function Unvisited(st: Colours): nat
  {
    Count(seq(|st|, i requires 0 <= i < |st| => st[i] == 0))
  }

  /** st with the nodes of s done. */
  function Mark(st: Colours, s: set<nat>): (r: Colours)
    ensures |r| == |st|
  {
    seq(|st|, i requires 0 <= i < |st| => if i in s then 2 else st[i])
  }

  /** What `build` looks for from idx at a depth: a layout of unvisited nodes within the limits. */
  predicate Target(f: Flat, L: Layout, idx: int, depth: nat, isRoot: bool, st: Colours)
    requires Searchable(f) && |st| == f.nodesCount
  {
    && L.idx == idx && IsLayout(f, L) && Proper(L)
    && depth + LayoutHeight(L) <= MAX_DEPTH
    && (isRoot ==> NodeAt(f, L.idx).kind != 1)
    && Untouched(st, Nodes(L))
  }

  ghost predicate NoTarget(f: Flat, idx: int, depth: nat, isRoot: bool, st: Colours)
    requires Searchable(f) && |st| == f.nodesCount
  {
    forall M :: !Target(f, M, idx, depth, isRoot, st)
  }

  lemma UnvisitedDrops(st: Colours, i: nat, v: nat)
    requires i < |st| && st[i] == 0 && v > 0
    ensures Unvisited(st[i := v]) == Unvisited(st) - 1
  {
    var a := seq(|st|, j requires 0 <= j < |st| => st[j] == 0);
    var st' := st[i := v];
    assert seq(|st'|, j requires 0 <= j < |st'| => st'[j] == 0) == a[i := false];
    CountUpdate(a, i, false);
  }

  lemma MarkDrops(st: Colours, s: set<nat>)
    ensures Unvisited(Mark(st, s)) <= Unvisited(st)
  {
    var m := Mark(st, s);
    var a, b := seq(|m|, i requires 0 <= i < |m| => m[i] == 0), seq(|st|, i requires 0 <= i < |st| => st[i] == 0);
    assert forall i :: 0 <= i < |a| && a[i] ==> b[i];
    CountMonotone(a, b);
  }

  /** Every node of s is unvisited. */
  predicate Untouched(st: Colours, s: set<nat>)
  {
    forall x :: x in s ==> x < |st| && st[x] == 0
  }

  predicate ChildLayouts(f: Flat, n: FlatNode, Ls: seq<Layout>)
    requires Searchable(f) && NodeRulesOk(f, n)
  {
    |Ls| <= n.count && forall i :: 0 <= i < |Ls| ==> Ls[i].idx == Child(f, n, i) && IsLayout(f, Ls[i])
  }

  /** The layouts of the first children, found one after another. */
  predicate ChildrenDone(f: Flat, n: FlatNode, Ls: seq<Layout>, depth: nat, st: Colours)
    requires Searchable(f) && NodeRulesOk(f, n) && |st| == f.nodesCount
  {
    && ChildLayouts(f, n, Ls) && ProperAll(Ls)
    && (Ls != [] ==> depth + 1 + LayoutHeightAll(Ls) <= MAX_DEPTH)
    && Untouched(st, NodesAll(Ls))
  }

  lemma MarkMark(st: Colours, s: set<nat>, t: set<nat>)
    ensures Mark(Mark(st, s), t) == Mark(st, s + t)
  {
  }

  /** Nodes still unvisited after s was marked are new. */
  lemma UntouchedAfterMark(st: Colours, s: set<nat>, t: set<nat>)
    ensures Untouched(Mark(st, s), t) <==> Untouched(st, t) && s !! t
  {
    var m := Mark(st, s);
    if Untouched(m, t) {
      forall x | x in t ensures x < |st| && st[x] == 0 && x !in s { assert m[x] == 0; }
    }
  }

  lemma AddLast(Ls: seq<Layout>, L: Layout)
    ensures NodesAll(Ls + [L]) == NodesAll(Ls) + Nodes(L)
    ensures LayoutHeightAll(Ls + [L]) == Max(LayoutHeightAll(Ls), LayoutHeight(L))
    ensures ProperAll(Ls) && Proper(L) && NodesAll(Ls) !! Nodes(L) ==> ProperAll(Ls + [L])
  {
    assert (Ls + [L])[..|Ls|] == Ls;
  }

  lemma OneMoreChild(f: Flat, n: FlatNode, Ls: seq<Layout>, L: Layout, depth: nat, st: Colours)
    requires Searchable(f) && NodeRulesOk(f, n) && |st| == f.nodesCount
    requires ChildrenDone(f, n, Ls, depth, st) && |Ls| < n.count
    requires Target(f, L, Child(f, n, |Ls|), depth + 1, false, Mark(st, NodesAll(Ls)))
    ensures ChildrenDone(f, n, Ls + [L], depth, st)
    ensures Mark(Mark(st, NodesAll(Ls)), Nodes(L)) == Mark(st, NodesAll(Ls + [L]))
  {
    AddLast(Ls, L);
    UntouchedAfterMark(st, NodesAll(Ls), Nodes(L));
    MarkMark(st, NodesAll(Ls), Nodes(L));
    ChildLayoutsNext(f, n, Ls, L);
  }

  lemma ChildLayoutsNext(f: Flat, n: FlatNode, Ls: seq<Layout>, L: Layout)
    requires Searchable(f) && NodeRulesOk(f, n) && ChildLayouts(f, n, Ls) && |Ls| < n.count
    requires L.idx == Child(f, n, |Ls|) && IsLayout(f, L)
    ensures ChildLayouts(f, n, Ls + [L])
  {
  }

  /** If the search for child |Ls| fails there is no layout of the node at all: its first children
      could only be the ones found, and those take the nodes they took. */
  lemma ChildMissing(f: Flat, idx: nat, Ls: seq<Layout>, depth: nat, isRoot: bool, st: Colours, M: Layout)
    requires Searchable(f) && |st| == f.nodesCount && idx < f.nodesCount && NodeRulesOk(f, NodeAt(f, idx))
    requires ChildrenDone(f, NodeAt(f, idx), Ls, depth, st[idx := 1]) && |Ls| < NodeAt(f, idx).count
    requires Target(f, M, idx, depth, isRoot, st)
    ensures Target(f, M.kids[|Ls|], Child(f, NodeAt(f, idx), |Ls|), depth + 1, false,
                   Mark(st[idx := 1], NodesAll(Ls)))
  {
    var m := |Ls|;
    forall i | 0 <= i < m ensures Ls[i] == M.kids[i] { LayoutUnique(f, Ls[i], M.kids[i]); }
    assert M.kids[..m] == Ls;
    ProperPrefix(M.kids, m);
    FreeForChild(M, m, st, idx);
    UntouchedAfterMark(st[idx := 1], NodesAll(Ls), Nodes(M.kids[m]));
  }

  lemma FreeForChild(M: Layout, m: nat, st: Colours, idx: nat)
    requires m < |M.kids| && M.idx == idx < |st| && Proper(M) && Untouched(st, Nodes(M))
    ensures Untouched(st[idx := 1], Nodes(M.kids[m]))
  {
    ProperPrefix(M.kids, m);
    assert Nodes(M.kids[m]) <= Nodes(M) && idx !in Nodes(M.kids[m]);
  }

  lemma NoLayoutWithoutChild(f: Flat, idx: nat, Ls: seq<Layout>, depth: nat, isRoot: bool, st: Colours)
    requires Searchable(f) && |st| == f.nodesCount && idx < f.nodesCount && NodeRulesOk(f, NodeAt(f, idx))
    requires ChildrenDone(f, NodeAt(f, idx), Ls, depth, st[idx := 1]) && |Ls| < NodeAt(f, idx).count
    requires NoTarget(f, Child(f, NodeAt(f, idx), |Ls|), depth + 1, false, Mark(st[idx := 1], NodesAll(Ls)))
    ensures NoTarget(f, idx, depth, isRoot, st)
  {
    forall M ensures !Target(f, M, idx, depth, isRoot, st) {
      if Target(f, M, idx, depth, isRoot, st) { ChildMissing(f, idx, Ls, depth, isRoot, st, M); }
    }
  }

  /** The node itself rules out a layout. */
  lemma NoLayoutHere(f: Flat, idx: int, depth: nat, isRoot: bool, st: Colours)
    requires Searchable(f) && |st| == f.nodesCount
    requires depth > MAX_DEPTH || idx < 0 || idx >= f.nodesCount || st[idx] != 0
             || !NodeRulesOk(f, NodeAt(f, idx)) || (isRoot && NodeAt(f, idx).kind == 1)
    ensures NoTarget(f, idx, depth, isRoot, st)
  {
    forall M ensures !Target(f, M, idx, depth, isRoot, st) { assert M.idx in Nodes(M); }
  }

  /** The finished node. */
  lemma NodeDone(f: Flat, idx: nat, Ls: seq<Layout>, depth: nat, isRoot: bool, st: Colours)
    requires Searchable(f) && |st| == f.nodesCount && idx < f.nodesCount && NodeRulesOk(f, NodeAt(f, idx))
    requires st[idx] == 0 && depth <= MAX_DEPTH
    requires isRoot ==> NodeAt(f, idx).kind != 1
    requires ChildrenDone(f, NodeAt(f, idx), Ls, depth, st[idx := 1]) && |Ls| == NodeAt(f, idx).count
    ensures Target(f, Layout(idx, Ls), idx, depth, isRoot, st)
    ensures Mark(st[idx := 1], NodesAll(Ls))[idx := 2] == Mark(st, Nodes(Layout(idx, Ls)))
  {
    var st1 := st[idx := 1];
    assert st1[idx] == 1 && idx !in NodesAll(Ls);
    forall x | x in NodesAll(Ls) ensures st[x] == 0 { assert st1[x] == 0; }
  }

  /** The trees of the first children. */
  ghost predicate TreesOf(f: Flat, Ls: seq<Layout>, kids: seq<Tree>)
    requires Searchable(f)
  {
    |kids| == |Ls| && forall j :: 0 <= j < |Ls| ==> IsLayout(f, Ls[j]) && kids[j] == TreeOf(f, Ls[j])
  }

  lemma OneMoreTree(f: Flat, Ls: seq<Layout>, kids: seq<Tree>, L: Layout, child: Tree)
    requires Searchable(f) && TreesOf(f, Ls, kids) && IsLayout(f, L) && child == TreeOf(f, L)
    ensures TreesOf(f, Ls + [L], kids + [child])
  {
  }

  lemma BuiltTree(f: Flat, L: Layout, n: FlatNode, kids: seq<Tree>)
    requires Searchable(f) && IsLayout(f, L) && TreesOf(f, L.kids, kids) && n == NodeAt(f, L.idx)
    ensures TreeOf(f, L) == Tree(KindOf(n.kind), NameOf(n), n.k, kids)
  {
    assert kids == TreeOf(f, L).kids;
  }

  /** The checks of the switch over the type, and the tree node without its children. */
  method StartNode(f: Flat, n: FlatNode, isRoot: bool) returns (ok: bool, node: Tree)
    ensures ok <==> NodeRulesOk(f, n) && !(isRoot && n.kind == 1)
    ensures ok ==> node == Tree(KindOf(n.kind), NameOf(n), n.k, [])
  {
    ok, node := false, Tree(Unknown, "", 0, []);
    if n.off < 0 || n.count < 0 { return; }
    if n.count > 0 && n.off > f.childIndicesCount - n.count { return; }
    if n.kind == 1 {
      if isRoot || n.leafName.None? || n.leafName.value == "" || n.k != 0 || n.count != 0 { return; }
      node := node.(kind := Leaf, leafName := n.leafName.value);
    } else if n.kind == 2 || n.kind == 3 || n.kind == 4 {
      if n.leafName.Some? || n.count <= 0 { return; }
      if n.kind == 2 {
        if n.k != 0 { return; }
        node := node.(kind := And);
      } else if n.kind == 3 {
        if n.k != 0 { return; }
        node := node.(kind := Or);
      } else {
        if n.k < 1 || n.k > n.count { return; }
        node := node.(kind := Threshold, k := n.k);
      }
    } else {
      return;
    }
    ok := true;
  }

  /** builder_t::build. On success the tree is the one of the only layout there is; on failure
      there is none. Cycles and shared nodes are found by their colour, and the search stops
      because every call colours an unvisited node. */
  method Build(f: Flat, idx: int, depth: nat, isRoot: bool, state: array<nat>)
    returns (rv: int, out: Tree, ghost L: Layout)
    requires Searchable(f) && state.Length == f.nodesCount
    modifies state
    ensures rv == Errors.SUCCESS ==>
              Target(f, L, idx, depth, isRoot, old(state[..])) && out == TreeOf(f, L)
              && state[..] == Mark(old(state[..]), Nodes(L))
    ensures rv != Errors.SUCCESS ==> NoTarget(f, idx, depth, isRoot, old(state[..]))
    decreases Unvisited(state[..]), 0
  {
    out, L := Tree(Leaf, "", 0, []), Layout(0, []);
    ghost var st := state[..];
    if depth > MAX_DEPTH {
      NoLayoutHere(f, idx, depth, isRoot, st);
      return Errors.E_RANGE, out, L;
    }
    if idx < 0 || idx >= f.nodesCount || state[idx] != 0 {  // visiting: a cycle; done: a node used twice
      NoLayoutHere(f, idx, depth, isRoot, st);
      return Errors.E_BADARG, out, L;
    }
    state[idx] := 1;
    UnvisitedDrops(st, idx, 1);
    ghost var st1 := st[idx := 1];
    assert state[..] == st1;
    var n := NodeAt(f, idx);
    var ok, node := StartNode(f, n, isRoot);
    if !ok {
      NoLayoutHere(f, idx, depth, isRoot, st);
      return Errors.E_BADARG, out, L;
    }
    var rvc, kids, Ls := BuildKids(f, n, depth, state);
    if rvc != Errors.SUCCESS {
      NoLayoutWithoutChild(f, idx, Ls, depth, isRoot, st);
      return rvc, out, L;
    }
    NodeDone(f, idx, Ls, depth, isRoot, st);
    L := Layout(idx, Ls);
    BuiltTree(f, L, n, kids);
    out := node.(kids := kids);
    state[idx] := 2;
    rv := Errors.SUCCESS;
  }

  /** The loop over the children, which stops at the first that has no layout. */
  method BuildKids(f: Flat, n: FlatNode, depth: nat, state: array<nat>)
    returns (rv: int, kids: seq<Tree>, ghost Ls: seq<Layout>)
    requires Searchable(f) && NodeRulesOk(f, n) && state.Length == f.nodesCount
    modifies state
    ensures ChildrenDone(f, n, Ls, depth, old(state[..])) && TreesOf(f, Ls, kids)
    ensures rv == Errors.SUCCESS ==> |Ls| == n.count && state[..] == Mark(old(state[..]), NodesAll(Ls))
    ensures rv != Errors.SUCCESS ==>
              |Ls| < n.count
              && NoTarget(f, Child(f, n, |Ls|), depth + 1, false, Mark(old(state[..]), NodesAll(Ls)))
    decreases Unvisited(state[..]), 1
  {
    ghost var st := state[..];
    kids, Ls, rv := [], [], Errors.SUCCESS;
    assert Mark(st, {}) == st;
    for i := 0 to n.count
      invariant i == |Ls| && ChildrenDone(f, n, Ls, depth, st) && TreesOf(f, Ls, kids)
      invariant state[..] == Mark(st, NodesAll(Ls)) && rv == Errors.SUCCESS
    {
      MarkDrops(st, NodesAll(Ls));
      var child;
      ghost var L;
      rv, child, L := Build(f, Child(f, n, i), depth + 1, false, state);
      if rv != Errors.SUCCESS { return; }
      OneMoreChild(f, n, Ls, L, depth, st);
      OneMoreTree(f, Ls, kids, L, child);
      kids, Ls := kids + [child], Ls + [L];
    }
  }

  /** The checks before the search. */
  method CheckHeader(f: Flat) returns (rv: int)
    requires ArraysAsDeclared(f)
    ensures rv == Errors.SUCCESS <==> Searchable(f)
    ensures rv == Errors.E_RANGE <==> f.nodesCount > 4096 && f.childIndicesCount >= 0
    ensures rv in {Errors.SUCCESS, Errors.E_RANGE, Errors.E_BADARG}
  {
    if f.nodesCount < 0 || f.childIndicesCount < 0 { return Errors.E_BADARG; }
    if f.nodesCount == 0 { return Errors.E_BADARG; }
    if f.nodesCount > MAX_NODES { return Errors.E_RANGE; }
    if f.nodes.None? { return Errors.E_BADARG; }
    if f.childIndicesCount > 0 && f.childIndices.None? { return Errors.E_BADARG; }
    if f.root < 0 || f.root >= f.nodesCount { return Errors.E_BADARG; }
    return Errors.SUCCESS;
  }

  /** to_cpp_access_structure: accepts exactly the encodings of one rooted tree. */
  method ToTree(input: Option<Flat>) returns (rv: int, out: Tree, ghost L: Layout)
    requires input.Some? ==> ArraysAsDeclared(input.value)
    ensures rv == Errors.SUCCESS ==>
              input.Some? && Searchable(input.value) && Encodes(input.value, L) && out == TreeOf(input.value, L)
    ensures rv != Errors.SUCCESS ==>
              input.None? || !Searchable(input.value) || forall M :: !Encodes(input.value, M)
    ensures input.Some? && !Searchable(input.value) ==>
              rv == if input.value.nodesCount > 4096 && input.value.childIndicesCount >= 0 then Errors.E_RANGE
                    else Errors.E_BADARG
  {
    out, L := Tree(Leaf, "", 0, []), Layout(0, []);
    if input.None? { return Errors.E_BADARG, out, L; }
    var f := input.value;
    rv := CheckHeader(f);
    if rv != Errors.SUCCESS { return; }
    var state := new nat[f.nodesCount](_ => 0);
    ghost var st := state[..];
    assert forall i :: 0 <= i < |st| ==> st[i] == 0;
    rv, out, L := Build(f, f.root, 0, true, state);
    if rv != Errors.SUCCESS {
      forall M ensures !Encodes(f, M) {
        if Encodes(f, M) {
          NodesInRange(f, M);
          assert Target(f, M, f.root, 0, true, st);
        }
      }
      return;
    }
    for i := 0 to state.Length
      invariant state[..] == Mark(st, Nodes(L))
      invariant forall j :: 0 <= j < i ==> state[j] == 2
    {
      if state[i] != 2 {
        assert i !in Nodes(L);
        forall M ensures !Encodes(f, M) { if Encodes(f, M) { LayoutUnique(f, M, L); } }
        return Errors.E_BADARG, out, L;
      }
    }
    forall x: nat | x < f.nodesCount ensures x in Nodes(L) { assert Mark(st, Nodes(L))[x] == 2; }
  }
}
