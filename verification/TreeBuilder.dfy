/** From the public access structure to the internal tree (`to_internal_access_structure`): the
    recursive validator, the leaf collector with its explicit stack, the builder that invents
    names for inner nodes, and the internal tree's own check.
 */
module TreeBuilder {
  import opened AccessTree
  import opened Counting
  import opened Options
  import Errors

  /** The limits on depth and number of nodes. */
  predicate WithinLimits(t: Tree) { Height(t) <= MAX_DEPTH && Size(t) <= MAX_NODES }

  // ---------------------------------------------------------------- validator

  predicate ShapeOkAll(ts: seq<Tree>) { forall i :: 0 <= i < |ts| ==> ShapeOk(ts[i]) }

  /** The depth limit below a node at `depth`. */
  predicate DepthOk(ts: seq<Tree>, depth: nat) { ts == [] || depth + 1 + HeightAll(ts) <= MAX_DEPTH }

  lemma PrefixDepth(front: seq<Tree>, t: Tree, depth: nat)
    requires DepthOk(front, depth)
    ensures DepthOk(front + [t], depth) <==> depth + 1 + Height(t) <= MAX_DEPTH
  {
    var ts := front + [t];
    assert ts[..|ts| - 1] == front && ts[|ts| - 1] == t;
    assert HeightAll(ts) == Max(HeightAll(front), Height(t));
  }

  lemma WholeDepth(ts: seq<Tree>, i: nat, depth: nat)
    requires i < |ts| && DepthOk(ts, depth)
    ensures depth + 1 + Height(ts[i]) <= MAX_DEPTH
  {
    HeightAllAbove(ts, i);
  }

  lemma PrefixDepthAt(ts: seq<Tree>, i: nat, depth: nat)
    requires i < |ts| && DepthOk(ts[..i], depth)
    ensures DepthOk(ts[..i + 1], depth) <==> depth + 1 + Height(ts[i]) <= MAX_DEPTH
  {
    assert ts[..i + 1] == ts[..i] + [ts[i]];
    PrefixDepth(ts[..i], ts[i], depth);
  }

  /** The first i children pass the validator below a node at `depth`, but for the count of nodes. */
  predicate KidsValid(ts: seq<Tree>, i: nat, depth: nat)
    requires i <= |ts|
  {
    ShapeOkAll(ts[..i]) && DepthOk(ts[..i], depth)
  }

  lemma NextValid(ts: seq<Tree>, i: nat, depth: nat)
    requires i < |ts| && KidsValid(ts, i, depth)
    ensures KidsValid(ts, i + 1, depth) <==> ShapeOk(ts[i]) && depth + 1 + Height(ts[i]) <= MAX_DEPTH
    ensures KidsValid(ts, |ts|, depth) ==> KidsValid(ts, i + 1, depth)
  {
    PrefixDepthAt(ts, i, depth);
    if DepthOk(ts, depth) { WholeDepth(ts, i, depth); }
    assert ts[..|ts|] == ts;
    assert ts[..i + 1] == ts[..i] + [ts[i]];
  }

  lemma AllValid(t: Tree, depth: nat)
    requires t.kind != Leaf && NodeRules(t)
    ensures KidsValid(t.kids, |t.kids|, depth) <==> ShapeOk(t) && depth + Height(t) <= MAX_DEPTH
  {
    assert t.kids[..|t.kids|] == t.kids;
  }

  /** The checks of the switch over the type. */
  method CheckNode(t: Tree) returns (ok: bool)
    ensures ok <==> NodeRules(t)
  {
    ok := false;
    match t.kind {
      case Leaf =>
        if t.leafName == "" { return; }
        if t.kids != [] { return; }
        if t.k != 0 { return; }
      case And | Or =>
        if t.kids == [] { return; }
        if t.leafName != "" { return; }
        if t.k != 0 { return; }
      case Threshold =>
        if t.kids == [] { return; }
        if t.leafName != "" { return; }
        if t.k < 1 { return; }
        if t.k > |t.kids| { return; }
      case Unknown => return;
    }
    ok := true;
  }

  /** validate_access_structure_node_impl: nodes are counted in the order they are met, and the
      walk stops at the first fault; it succeeds exactly when there is none. */
  method ValidateImpl(t: Tree, depth: nat, seen: nat) returns (rv: int, seen': nat)
    ensures rv == Errors.SUCCESS <==> ShapeOk(t) && depth + Height(t) <= MAX_DEPTH && seen + Size(t) <= MAX_NODES
    ensures rv == Errors.SUCCESS ==> seen' == seen + Size(t)
    ensures rv in {Errors.SUCCESS, Errors.E_RANGE, Errors.E_BADARG}
    decreases t
  {
    seen' := seen + 1;
    if seen' > MAX_NODES { return Errors.E_RANGE, seen'; }
    if depth > MAX_DEPTH { return Errors.E_RANGE, seen'; }
    var ok := CheckNode(t);
    if !ok { return Errors.E_BADARG, seen'; }
    if t.kind == Leaf { return Errors.SUCCESS, seen'; }
    AllValid(t, depth);
    for i := 0 to |t.kids|
      invariant KidsValid(t.kids, i, depth)
      invariant seen' == seen + 1 + SizeAll(t.kids[..i]) <= MAX_NODES
    {
      NextValid(t.kids, i, depth);
      SizeAllSlice(t.kids, i);
      rv, seen' := ValidateImpl(t.kids[i], depth + 1, seen');
      if rv != Errors.SUCCESS { return; }
    }
    assert t.kids[..|t.kids|] == t.kids;
    rv := Errors.SUCCESS;
  }

  // ---------------------------------------------------------------- collector

  datatype Frame = Frame(node: Tree, depth: nat)

  /** What is still on the stack. */
  function StackSize(st: seq<Frame>): nat
  {
    if st == [] then 0 else StackSize(st[..|st| - 1]) + Size(st[|st| - 1].node)
  }

  function StackLeaves(st: seq<Frame>): set<string>
  {
    if st == [] then {} else StackLeaves(st[..|st| - 1]) + Leaves(st[|st| - 1].node)
  }

  predicate StackDepthOk(st: seq<Frame>)
  {
    forall i :: 0 <= i < |st| ==> st[i].depth + Height(st[i].node) <= MAX_DEPTH
  }

  lemma PushOne(st: seq<Frame>, fr: Frame)
    ensures StackSize(st + [fr]) == StackSize(st) + Size(fr.node)
    ensures StackLeaves(st + [fr]) == StackLeaves(st) + Leaves(fr.node)
    ensures StackDepthOk(st + [fr]) <==> StackDepthOk(st) && fr.depth + Height(fr.node) <= MAX_DEPTH
  {
    assert (st + [fr])[..|st|] == st && (st + [fr])[|st|] == fr;
    if StackDepthOk(st + [fr]) {
      forall i | 0 <= i < |st| ensures st[i].depth + Height(st[i].node) <= MAX_DEPTH {
        assert (st + [fr])[i] == st[i];
      }
    }
  }

  /** Pushing all children of a node. */
  method PushKids(st: seq<Frame>, kids: seq<Tree>, depth: nat) returns (st': seq<Frame>)
    ensures StackSize(st') == StackSize(st) + SizeAll(kids)
    ensures StackLeaves(st') == StackLeaves(st) + LeavesAll(kids)
    ensures StackDepthOk(st') <==> StackDepthOk(st) && DepthOk(kids, depth)
  {
    st' := st;
    for i := 0 to |kids|
      invariant StackSize(st') == StackSize(st) + SizeAll(kids[..i])
      invariant StackLeaves(st') == StackLeaves(st) + LeavesAll(kids[..i])
      invariant StackDepthOk(st') <==> StackDepthOk(st) && DepthOk(kids[..i], depth)
    {
      var fr := Frame(kids[i], depth + 1);
      PushOne(st', fr);
      assert kids[..i + 1][..i] == kids[..i];
      st' := st' + [fr];
    }
    assert kids[..|kids|] == kids;
  }

  /** What has been seen and what is on the stack make up the tree. */
  predicate Walking(t: Tree, init: set<string>, stack: seq<Frame>, names: set<string>, seen: nat)
  {
    && seen + StackSize(stack) == Size(t) && names + StackLeaves(stack) == init + Leaves(t)
    && (StackDepthOk(stack) <==> Height(t) <= MAX_DEPTH)
  }

  lemma StartWalk(t: Tree, init: set<string>)
    ensures Walking(t, init, [Frame(t, 0)], init, 0)
  {
    PushOne([], Frame(t, 0));
    assert [] + [Frame(t, 0)] == [Frame(t, 0)];
  }

  /** A leaf taken off the stack. */
  lemma WalkLeaf(t: Tree, init: set<string>, rest: seq<Frame>, top: Frame, names: set<string>, seen: nat)
    requires Walking(t, init, rest + [top], names, seen) && top.node.kind == Leaf && top.depth <= MAX_DEPTH
    ensures Walking(t, init, rest, names + {top.node.leafName}, seen + 1)
  {
    PushOne(rest, top);
    assert (names + {top.node.leafName}) + StackLeaves(rest) == names + (StackLeaves(rest) + {top.node.leafName});
  }

  /** An inner node taken off the stack, and its children put on it. */
  lemma WalkInner(t: Tree, init: set<string>, rest: seq<Frame>, top: Frame, names: set<string>, seen: nat,
                  stack: seq<Frame>)
    requires Walking(t, init, rest + [top], names, seen) && top.node.kind != Leaf && top.depth <= MAX_DEPTH
    requires StackSize(stack) == StackSize(rest) + SizeAll(top.node.kids)
    requires StackLeaves(stack) == StackLeaves(rest) + LeavesAll(top.node.kids)
    requires StackDepthOk(stack) <==> StackDepthOk(rest) && DepthOk(top.node.kids, top.depth)
    ensures Walking(t, init, stack, names, seen + 1)
  {
    PushOne(rest, top);
  }

  /** A node beyond a limit. */
  lemma WalkStops(t: Tree, init: set<string>, rest: seq<Frame>, top: Frame, names: set<string>, seen: nat)
    requires Walking(t, init, rest + [top], names, seen) && (seen + 1 > MAX_NODES || top.depth > MAX_DEPTH)
    ensures !WithinLimits(t)
  {
    PushOne(rest, top);
  }

  /** collect_leaf_names: a walk with an explicit stack, last child first, with its own counter.
      It succeeds exactly within the limits and then has found the leaf set; the names already
      in `init` are kept. */
  method CollectLeafNames(t: Tree, init: set<string>) returns (rv: int, names: set<string>)
    ensures rv == Errors.SUCCESS <==> WithinLimits(t)
    ensures rv == Errors.SUCCESS ==> names == init + Leaves(t)
    ensures rv in {Errors.SUCCESS, Errors.E_RANGE}
  {
    names := init;
    var seen, stack := 0, [Frame(t, 0)];
    StartWalk(t, init);
    while stack != []
      invariant Walking(t, init, stack, names, seen) && seen <= MAX_NODES
      decreases Size(t) - seen
    {
      var top, rest := stack[|stack| - 1], stack[..|stack| - 1];
      assert rest + [top] == stack;
      if seen + 1 > MAX_NODES || top.depth > MAX_DEPTH { WalkStops(t, init, rest, top, names, seen); }
      seen := seen + 1;
      if seen > MAX_NODES { return Errors.E_RANGE, names; }
      if top.depth > MAX_DEPTH { return Errors.E_RANGE, names; }
      if top.node.kind == Leaf {
        WalkLeaf(t, init, rest, top, names, seen - 1);
        names, stack := names + {top.node.leafName}, rest;
      } else {
        stack := PushKids(rest, top.node.kids, top.depth);
        WalkInner(t, init, rest, top, names, seen - 1, stack);
      }
    }
    rv := Errors.SUCCESS;
  }

  // ---------------------------------------------------------------- invented names

  function Digit(d: nat): char
    requires d < 10
  {
    "0123456789"[d]
  }

  /** std::to_string. */
  function Decimal(n: nat): (s: string)
    ensures |s| >= 1
  {
    if n < 10 then [Digit(n)] else Decimal(n / 10) + [Digit(n % 10)]
  }

  /** The number that decimal digits are. */
  function FromDecimal(s: string): int
  {
    if s == "" then 0 else 10 * FromDecimal(s[..|s| - 1]) + (s[|s| - 1] as int - '0' as int)
  }

  /** Digits only, no leading zero, and the number they are. */
  lemma {:induction false} DecimalReads(n: nat)
    ensures FromDecimal(Decimal(n)) == n
    ensures forall k :: 0 <= k < |Decimal(n)| ==> '0' <= Decimal(n)[k] <= '9'
    ensures n >= 10 ==> Decimal(n)[0] != '0'
    decreases n
  {
    var s := Decimal(n);
    var k := |s| - 1;
    if n < 10 {
      assert s[..0] == "";
    } else {
      DecimalReads(n / 10);
      assert s[..k] == Decimal(n / 10);
      assert s[0] == Decimal(n / 10)[0];
    }
  }

  lemma DecimalInjective(m: nat, n: nat)
    requires Decimal(m) == Decimal(n)
    ensures m == n
  {
    DecimalReads(m);
    DecimalReads(n);
  }

  function GenName(n: nat): (s: string)
    ensures s != ""
  {
    "__cbmpc_ac_node_" + Decimal(n)
  }

  lemma GenNameInjective(m: nat, n: nat)
    requires GenName(m) == GenName(n)
    ensures m == n
  {
    var p := "__cbmpc_ac_node_";
    assert GenName(m)[|p|..] == Decimal(m) && GenName(n)[|p|..] == Decimal(n);
    DecimalInjective(m, n);
  }

  ghost predicate GeneratedAbove(s: string, lo: nat)
  {
    exists k: nat :: lo < k && s == GenName(k)
  }

  /** The used names a search from the counter can still run into: finitely many. */
  ghost function Ahead(used: set<string>, counter: nat): set<string>
  {
    set s | s in used && GeneratedAbove(s, counter)
  }

  lemma OneLessAhead(used: set<string>, counter: nat)
    requires GenName(counter + 1) in used
    ensures Ahead(used, counter + 1) < Ahead(used, counter)
  {
    var name := GenName(counter + 1);
    assert GeneratedAbove(name, counter);
    if GeneratedAbove(name, counter + 1) {
      var k: nat :| counter + 1 < k && name == GenName(k);
      GenNameInjective(counter + 1, k);
    }
    assert name in Ahead(used, counter) && name !in Ahead(used, counter + 1);
    forall s | s in Ahead(used, counter + 1) ensures s in Ahead(used, counter) {
      var k: nat :| counter + 1 < k && s == GenName(k);
      assert GeneratedAbove(s, counter);
    }
  }

  /** Every name between two counter values is taken. */
  predicate Taken(used: set<string>, lo: nat, hi: nat)
  {
    forall k: nat :: lo < k <= hi ==> GenName(k) in used
  }

  /** Names have been added, and all the counter went past are among them. */
  predicate Advanced(used: set<string>, used': set<string>, lo: nat, hi: nat)
  {
    lo <= hi && used <= used' && Taken(used', lo, hi)
  }

  lemma AdvancedMore(a: set<string>, b: set<string>, c: set<string>, lo: nat, mid: nat, hi: nat)
    requires Advanced(a, b, lo, mid) && Advanced(b, c, mid, hi)
    ensures Advanced(a, c, lo, hi)
  {
  }

  /** gen_internal_node_name: the loop ends because each failed try uses up one of the finitely
      many used names ahead of the counter. */
  method GenInternalNodeName(used: set<string>, counter: nat) returns (name: string, used': set<string>, counter': nat)
    ensures counter' > counter && name == GenName(counter') && name !in used && used' == used + {name}
    ensures Taken(used', counter, counter')
  {
    counter' := counter;
    while true
      invariant counter' >= counter && Taken(used, counter, counter')
      decreases Ahead(used, counter')
    {
      counter' := counter' + 1;
      name := GenName(counter');
      if name !in used {
        used' := used + {name};
        return;
      }
      OneLessAhead(used, counter' - 1);
    }
  }

  /** The counter never passes the number of used names, so its 64 bits never wrap. */
  lemma {:induction false} CounterBounded(used: set<string>, counter: nat)
    requires Taken(used, 0, counter)
    ensures counter <= |used|
    decreases counter
  {
    if counter > 0 {
      var name, rest := GenName(counter), used - {GenName(counter)};
      forall k: nat | 0 < k <= counter - 1 ensures GenName(k) in rest {
        if GenName(k) == name { GenNameInjective(k, counter); }
      }
      CounterBounded(rest, counter - 1);
      assert name in used;
    }
  }

  // ---------------------------------------------------------------- builder

  /** The names of the inner nodes. */
  function InnerNames(n: Node): set<string>
    decreases n, 1
  {
    if n.kind == Leaf then {} else {n.name} + InnerAll(n.kids)
  }

  function InnerAll(ns: seq<Node>): set<string>
    decreases ns, 0
  {
    if ns == [] then {} else InnerAll(ns[..|ns| - 1]) + InnerNames(ns[|ns| - 1])
  }

  predicate InnerDistinct(n: Node)
    decreases n, 1
  {
    n.kind == Leaf || (n.name !in InnerAll(n.kids) && InnerDistinctAll(n.kids))
  }

  predicate InnerDistinctAll(ns: seq<Node>)
    decreases ns, 0
  {
    ns == [] ||
    var last := |ns| - 1;
    InnerDistinctAll(ns[..last]) && InnerDistinct(ns[last]) && InnerAll(ns[..last]) !! InnerNames(ns[last])
  }

  /** n is t with names for the inner nodes. */
  predicate Copies(t: Tree, n: Node)
    decreases t
  {
    && n.kind == t.kind && n.k == (if t.kind == Threshold then t.k else 0)
    && (t.kind == Leaf ==> n.name == t.leafName && n.kids == [])
    && (t.kind != Leaf ==> |n.kids| == |t.kids| && forall i :: 0 <= i < |t.kids| ==> Copies(t.kids[i], n.kids[i]))
  }

  /** What the builder itself checks. */
  predicate Buildable(t: Tree)
    decreases t
  {
    t.kind != Unknown
    && (t.kind != Leaf ==> t.kids != [] && forall i :: 0 <= i < |t.kids| ==> Buildable(t.kids[i]))
  }

  predicate BuildableAll(ts: seq<Tree>) { forall i :: 0 <= i < |ts| ==> Buildable(ts[i]) }

  /** The first i children can be built below a node at `depth`. */
  predicate KidsBuildable(ts: seq<Tree>, i: nat, depth: nat)
    requires i <= |ts|
  {
    BuildableAll(ts[..i]) && DepthOk(ts[..i], depth)
  }

  lemma NextBuildable(ts: seq<Tree>, i: nat, depth: nat)
    requires i < |ts| && KidsBuildable(ts, i, depth)
    ensures KidsBuildable(ts, i + 1, depth) <==> Buildable(ts[i]) && depth + 1 + Height(ts[i]) <= MAX_DEPTH
    ensures KidsBuildable(ts, |ts|, depth) ==> KidsBuildable(ts, i + 1, depth)
  {
    PrefixDepthAt(ts, i, depth);
    if DepthOk(ts, depth) { WholeDepth(ts, i, depth); }
    assert ts[..|ts|] == ts;
    assert ts[..i + 1] == ts[..i] + [ts[i]];
  }

  lemma AllBuildable(t: Tree, depth: nat)
    requires t.kind != Leaf && t.kind != Unknown && t.kids != []
    ensures KidsBuildable(t.kids, |t.kids|, depth) <==> depth + Height(t) <= MAX_DEPTH && Buildable(t)
  {
    assert t.kids[..|t.kids|] == t.kids;
  }

  lemma {:induction false} ValidIsBuildable(t: Tree)
    requires ShapeOk(t)
    ensures Buildable(t)
    decreases t
  {
    forall i | 0 <= i < |t.kids| ensures Buildable(t.kids[i]) { ValidIsBuildable(t.kids[i]); }
  }

  /** The children built so far: their new names are generated, pairwise distinct and unused. */
  predicate KidsBuilt(ts: seq<Tree>, ns: seq<Node>, used: set<string>, used': set<string>)
    requires |ns| <= |ts|
  {
    && (forall i :: 0 <= i < |ns| ==> Copies(ts[i], ns[i]))
    && InnerDistinctAll(ns) && InnerAll(ns) !! used && used' == used + InnerAll(ns)
  }

  lemma OneMoreKid(ts: seq<Tree>, ns: seq<Node>, n: Node, used: set<string>, used1: set<string>, used2: set<string>)
    requires |ns| < |ts| && KidsBuilt(ts, ns, used, used1)
    requires Copies(ts[|ns|], n) && InnerDistinct(n) && InnerNames(n) !! used1 && used2 == used1 + InnerNames(n)
    ensures KidsBuilt(ts, ns + [n], used, used2)
  {
    assert (ns + [n])[..|ns|] == ns;
  }

  /** build_internal_ac_node: fails only on depth, a missing child, an unknown kind or a root leaf;
      otherwise a copy of t whose inner names are generated, pairwise distinct and new. */
  method BuildInternal(t: Tree, depth: nat, isRoot: bool, used: set<string>, counter: nat)
    returns (rv: int, n: Node, used': set<string>, counter': nat)
    ensures rv == Errors.SUCCESS <==> depth + Height(t) <= MAX_DEPTH && Buildable(t) && !(isRoot && t.kind == Leaf)
    ensures rv == Errors.SUCCESS ==> Copies(t, n) && (isRoot ==> n.name == "")
    ensures rv == Errors.SUCCESS && isRoot ==> KidsBuilt(t.kids, n.kids, used, used')
    ensures rv == Errors.SUCCESS && !isRoot ==>
              InnerDistinct(n) && InnerNames(n) !! used && used' == used + InnerNames(n)
    ensures Advanced(used, used', counter, counter')
    decreases t
  {
    n, used', counter' := Node(Leaf, "", 0, []), used, counter;
    if depth > MAX_DEPTH { return Errors.E_RANGE, n, used', counter'; }
    if t.kind == Leaf {
      if isRoot { return Errors.E_BADARG, n, used', counter'; }
      return Errors.SUCCESS, Node(Leaf, t.leafName, 0, []), used', counter';
    }
    if t.kind == Unknown || t.kids == [] { return Errors.E_BADARG, n, used', counter'; }
    var name := "";
    if !isRoot { name, used', counter' := GenInternalNodeName(used, counter); }
    ghost var used1 := used';
    AllBuildable(t, depth);
    var kids: seq<Node> := [];
    for i := 0 to |t.kids|
      invariant |kids| == i && KidsBuilt(t.kids, kids, used1, used')
      invariant KidsBuildable(t.kids, i, depth)
      invariant used1 <= used' && Advanced(used, used', counter, counter')
    {
      NextBuildable(t.kids, i, depth);
      ghost var before, c1 := used', counter';
      var child;
      rv, child, used', counter' := BuildInternal(t.kids[i], depth + 1, false, used', counter');
      if rv != Errors.SUCCESS {
        AdvancedMore(used, before, used', counter, c1, counter');
        return rv, n, used', counter';
      }
      OneMoreKid(t.kids, kids, child, used1, before, used');
      AdvancedMore(used, before, used', counter, c1, counter');
      kids := kids + [child];
    }
    n := Node(t.kind, name, if t.kind == Threshold then t.k else 0, kids);
    rv := Errors.SUCCESS;
  }

  // ---------------------------------------------------------------- the internal tree's own check

  function AllNames(n: Node): set<string>
    decreases n, 1
  {
    {n.name} + AllNamesAll(n.kids)
  }

  function AllNamesAll(ns: seq<Node>): set<string>
    decreases ns, 0
  {
    if ns == [] then {} else AllNamesAll(ns[..|ns| - 1]) + AllNames(ns[|ns| - 1])
  }

  /** No name occurs twice. */
  predicate NamesDistinct(n: Node)
    decreases n, 1
  {
    n.name !in AllNamesAll(n.kids) && NamesDistinctAll(n.kids)
  }

  predicate NamesDistinctAll(ns: seq<Node>)
    decreases ns, 0
  {
    ns == [] ||
    var last := |ns| - 1;
    NamesDistinctAll(ns[..last]) && NamesDistinct(ns[last]) && AllNamesAll(ns[..last]) !! AllNames(ns[last])
  }

  predicate NodeRulesInternal(n: Node, isRoot: bool)
  {
    && (isRoot <==> n.name == "")
    && match n.kind
       case Leaf => n.k == 0 && n.kids == []
       case And => n.k == 0 && n.kids != []
       case Or => n.k == 0 && n.kids != []
       case Threshold => 1 <= n.k <= |n.kids|
       case Unknown => false
  }

  predicate NodeShape(n: Node, isRoot: bool)
    decreases n
  {
    NodeRulesInternal(n, isRoot) && forall i :: 0 <= i < |n.kids| ==> NodeShape(n.kids[i], false)
  }

  predicate NodeShapeAll(ns: seq<Node>) { forall i :: 0 <= i < |ns| ==> NodeShape(ns[i], false) }

  lemma {:induction false} NamesPrefix(ns: seq<Node>, i: nat)
    requires i < |ns|
    ensures AllNamesAll(ns[..i + 1]) == AllNamesAll(ns[..i]) + AllNames(ns[i])
    ensures AllNamesAll(ns[..i + 1]) <= AllNamesAll(ns)
    ensures NamesDistinctAll(ns) ==> NamesDistinctAll(ns[..i + 1])
    ensures NamesDistinctAll(ns[..i + 1]) <==>
              NamesDistinctAll(ns[..i]) && NamesDistinct(ns[i]) && AllNamesAll(ns[..i]) !! AllNames(ns[i])
    decreases |ns|
  {
    assert ns[..i + 1][..i] == ns[..i];
    if i + 1 == |ns| {
      assert ns[..i + 1] == ns;
    } else {
      NamesPrefix(ns[..|ns| - 1], i);
      assert ns[..|ns| - 1][..i + 1] == ns[..i + 1] && ns[..|ns| - 1][..i] == ns[..i];
    }
  }

  /** The first i children are in order, given the names met before them. */
  predicate KidsInOrder(n: Node, i: nat, names: set<string>)
    requires i <= |n.kids|
  {
    && NodeShapeAll(n.kids[..i]) && NamesDistinctAll(n.kids[..i])
    && AllNamesAll(n.kids[..i]) !! names + {n.name}
  }

  predicate InOrder(n: Node, isRoot: bool, names: set<string>)
  {
    NodeShape(n, isRoot) && NamesDistinct(n) && AllNames(n) !! names
  }

  lemma NextKid(n: Node, i: nat, names: set<string>)
    requires i < |n.kids| && KidsInOrder(n, i, names)
    ensures InOrder(n.kids[i], false, names + {n.name} + AllNamesAll(n.kids[..i])) <==> KidsInOrder(n, i + 1, names)
    ensures KidsInOrder(n, |n.kids|, names) ==> KidsInOrder(n, i + 1, names)
    ensures AllNamesAll(n.kids[..i + 1]) == AllNamesAll(n.kids[..i]) + AllNames(n.kids[i])
  {
    NamesPrefix(n.kids, i);
    assert n.kids[..|n.kids|] == n.kids;
    assert n.kids[..i + 1] == n.kids[..i] + [n.kids[i]];
  }

  lemma KidsSuffice(n: Node, isRoot: bool, names: set<string>)
    requires NodeRulesInternal(n, isRoot)
    ensures InOrder(n, isRoot, names) <==> KidsInOrder(n, |n.kids|, names) && n.name !in names
  {
    assert n.kids[..|n.kids|] == n.kids;
  }

  /** The checks of the switch over the type. */
  method CheckInternal(n: Node) returns (ok: bool)
    ensures ok <==> NodeRulesInternal(n, n.name == "")
  {
    ok := false;
    match n.kind {
      case Leaf =>
        if n.k != 0 { return; }
        if n.kids != [] { return; }
      case And | Or =>
        if n.k != 0 { return; }
        if n.kids == [] { return; }
      case Threshold =>
        if n.k < 1 { return; }
        if n.k > |n.kids| { return; }
      case Unknown => return;
    }
    ok := true;
  }

  /** node_t::validate_tree, threading the set of names met so far. */
  method ValidateTree(n: Node, isRoot: bool, names: set<string>) returns (rv: int, names': set<string>)
    ensures rv == Errors.SUCCESS <==> InOrder(n, isRoot, names)
    ensures rv == Errors.SUCCESS ==> names' == names + AllNames(n)
    decreases n
  {
    names' := names;
    if (n.name == "" && !isRoot) || (isRoot && n.name != "") || n.name in names { return Errors.E_BADARG, names'; }
    names' := names + {n.name};
    var ok := CheckInternal(n);
    if !ok { return Errors.E_BADARG, names'; }
    KidsSuffice(n, isRoot, names);
    for i := 0 to |n.kids|
      invariant KidsInOrder(n, i, names) && names' == names + {n.name} + AllNamesAll(n.kids[..i])
    {
      NextKid(n, i, names);
      rv, names' := ValidateTree(n.kids[i], false, names');
      if rv != Errors.SUCCESS { return; }
    }
    assert n.kids[..|n.kids|] == n.kids;
    rv := Errors.SUCCESS;
  }

  // ---------------------------------------------------------------- the stages agree

  /** The internal tree means what the public one means. */
  lemma {:induction false} CopyMeansSame(t: Tree, n: Node, present: set<string>)
    requires Copies(t, n)
    ensures NodeHolds(n, present) == Holds(t, present)
    decreases t
  {
    if t.kind != Leaf {
      forall i | 0 <= i < |t.kids| ensures NodeHolds(n.kids[i], present) == Holds(t.kids[i], present) {
        CopyMeansSame(t.kids[i], n.kids[i], present);
      }
      assert seq(|t.kids|, i requires 0 <= i < |t.kids| => Holds(t.kids[i], present)) ==
             seq(|n.kids|, i requires 0 <= i < |n.kids| => NodeHolds(n.kids[i], present));
    }
  }

  lemma {:induction false} NamesOfCopy(t: Tree, n: Node)
    requires Copies(t, n)
    ensures AllNames(n) == Leaves(t) + InnerNames(n)
    ensures InnerDistinct(n) && InnerNames(n) !! Leaves(t) ==> (NamesDistinct(n) <==> LeavesDistinct(t))
    decreases t, 1
  {
    if t.kind != Leaf { NamesOfCopies(t.kids, n.kids); }
  }

  lemma {:induction false} NamesOfCopies(ts: seq<Tree>, ns: seq<Node>)
    requires |ts| == |ns| && forall i :: 0 <= i < |ts| ==> Copies(ts[i], ns[i])
    ensures AllNamesAll(ns) == LeavesAll(ts) + InnerAll(ns)
    ensures InnerDistinctAll(ns) && InnerAll(ns) !! LeavesAll(ts) ==> (NamesDistinctAll(ns) <==> LeavesDistinctAll(ts))
    decreases ts, 0
  {
    if ts != [] {
      var last := |ts| - 1;
      NamesOfCopies(ts[..last], ns[..last]);
      NamesOfCopy(ts[last], ns[last]);
    }
  }

  lemma {:induction false} ShapeOfCopy(t: Tree, n: Node)
    requires ShapeOk(t) && Copies(t, n) && "" !in InnerNames(n)
    ensures NodeShape(n, false)
    decreases t
  {
    if t.kind != Leaf {
      forall i | 0 <= i < |t.kids| ensures NodeShape(n.kids[i], false) {
        InnerAllHas(n.kids, i);
        ShapeOfCopy(t.kids[i], n.kids[i]);
      }
    }
  }

  lemma {:induction false} InnerAllHas(ns: seq<Node>, i: nat)
    requires i < |ns|
    ensures InnerNames(ns[i]) <= InnerAll(ns)
    decreases |ns|
  {
    var last := |ns| - 1;
    if i < last {
      InnerAllHas(ns[..last], i);
      assert ns[..last][i] == ns[i];
    }
  }

  lemma {:induction false} LeavesNamed(t: Tree)
    requires ShapeOk(t)
    ensures "" !in Leaves(t)
    decreases t, 1
  {
    if t.kind != Leaf { LeavesAllNamed(t.kids); }
  }

  lemma {:induction false} LeavesAllNamed(ts: seq<Tree>)
    requires ShapeOkAll(ts)
    ensures "" !in LeavesAll(ts)
    decreases ts, 0
  {
    if ts != [] {
      LeavesAllNamed(ts[..|ts| - 1]);
      LeavesNamed(ts[|ts| - 1]);
    }
  }

  /** For what the builder makes of a valid tree, the final check comes down to the leaf names. */
  lemma FinalCheckIsLeafCheck(t: Tree, n: Node, used': set<string>)
    requires ShapeOk(t) && t.kind != Leaf && Copies(t, n) && n.name == ""
    requires KidsBuilt(t.kids, n.kids, Leaves(t) + {""}, used')
    ensures InOrder(n, true, {}) <==> LeavesDistinct(t)
  {
    NamesOfCopies(t.kids, n.kids);
    LeavesNamed(t);
    assert "" !in AllNamesAll(n.kids);
    forall i | 0 <= i < |n.kids| ensures NodeShape(n.kids[i], false) {
      InnerAllHas(n.kids, i);
      ShapeOfCopy(t.kids[i], n.kids[i]);
    }
  }

  /** What to_internal_access_structure accepts. */
  predicate Acceptable(t: Tree, parties: set<string>, curveValid: bool)
  {
    && curveValid && ShapeOk(t) && WithinLimits(t) && t.kind != Leaf
    && Leaves(t) == parties && LeavesDistinct(t)
  }

  /** to_internal_access_structure. The collector and the builder never fail on what the validator
      accepted, the root is unnamed, and all names of the result are distinct. */
  method ToInternal(t: Tree, partyNames: seq<string>, curveValid: bool) returns (rv: int, root: Option<Node>)
    ensures rv == Errors.SUCCESS <==> Acceptable(t, SetOf(partyNames), curveValid)
    ensures rv == Errors.SUCCESS ==>
              root.Some? && Copies(t, root.value) && NodeShape(root.value, true) && NamesDistinct(root.value)
              && AllNames(root.value) == Leaves(t) + InnerNames(root.value)
              && forall present :: NodeHolds(root.value, present) == Holds(t, present)
    ensures rv != Errors.SUCCESS ==> root.None?
  {
    root := None;
    if !curveValid { return Errors.E_BADARG, None; }
    var seen;
    rv, seen := ValidateImpl(t, 0, 0);
    if rv != Errors.SUCCESS { return rv, None; }
    if t.kind == Leaf { return Errors.E_BADARG, None; }
    var leafNames;
    rv, leafNames := CollectLeafNames(t, {});
    assert rv == Errors.SUCCESS;
    var partySet := {};
    for i := 0 to |partyNames|
      invariant partySet == SetOf(partyNames[..i])
    {
      partySet := partySet + {partyNames[i]};
    }
    assert partyNames[..|partyNames|] == partyNames;
    if leafNames != partySet { return Errors.E_BADARG, None; }
    var used, counter, n;
    ValidIsBuildable(t);
    rv, n, used, counter := BuildInternal(t, 0, true, {""} + leafNames, 0);
    assert rv == Errors.SUCCESS && {""} + leafNames == Leaves(t) + {""};
    FinalCheckIsLeafCheck(t, n, used);
    var names;
    rv, names := ValidateTree(n, true, {});
    if rv != Errors.SUCCESS { return rv, None; }
    NamesOfCopy(t, n);
    forall present ensures NodeHolds(n, present) == Holds(t, present) { CopyMeansSame(t, n, present); }
    root := Some(n);
  }

  /** node_t::enough_for_quorum, with its early exits, is the meaning of the node. */
  method EnoughForQuorum(n: Node, names: set<string>) returns (b: bool)
    ensures b == NodeHolds(n, names)
    decreases n
  {
    if n.kind == Leaf { return n.name in names; }
    if n.kind == Unknown { return false; }
    ghost var vals := seq(|n.kids|, i requires 0 <= i < |n.kids| => NodeHolds(n.kids[i], names));
    var count := 0;
    assert vals[..0] == [];
    for i := 0 to |n.kids|
      invariant count == Count(vals[..i])
      invariant n.kind == Or ==> count == 0
      invariant n.kind == And ==> count == i
      invariant n.kind == Threshold ==> count == 0 || count < n.k
    {
      var v := EnoughForQuorum(n.kids[i], names);
      CountSnoc(vals, i);
      CountPrefix(vals, i + 1);
      if v {
        count := count + 1;
        if n.kind == Threshold && count >= n.k { return true; }
      }
      if n.kind == Or && v { return true; }
      if n.kind == And && !v { return false; }
    }
    assert vals[..|n.kids|] == vals;
    b := n.kind == And;
  }

  lemma {:induction false} CountConcat(a: seq<bool>, b: seq<bool>)
    ensures Count(a + b) == Count(a) + Count(b)
  {
    if a == [] {
      assert a + b == b;
    } else {
      assert (a + b)[0] == a[0] && (a + b)[1..] == a[1..] + b;
      CountConcat(a[1..], b);
    }
  }

  lemma CountSnoc(vals: seq<bool>, i: nat)
    requires i < |vals|
    ensures Count(vals[..i + 1]) == Count(vals[..i]) + if vals[i] then 1 else 0
  {
    assert vals[..i + 1] == vals[..i] + [vals[i]];
    CountConcat(vals[..i], [vals[i]]);
    assert Count([vals[i]]) == (if vals[i] then 1 else 0) + Count([]);
  }

  lemma CountPrefix(vals: seq<bool>, i: nat)
    requires i <= |vals|
    ensures Count(vals) <= Count(vals[..i]) + |vals| - i && Count(vals) >= Count(vals[..i])
  {
    assert vals == vals[..i] + vals[i..];
    CountConcat(vals[..i], vals[i..]);
  }
}
