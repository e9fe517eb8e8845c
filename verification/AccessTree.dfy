/** Access structures as trees: the public `access_structure_t` and the internal `node_t`, and what
    they mean: which sets of present parties satisfy them.
 */
module AccessTree {
  import opened Counting

  const MAX_DEPTH := 128
  const MAX_NODES := 4096

  /** The node type, with a case for the values the enum does not name. */
  datatype Kind = Leaf | And | Or | Threshold | Unknown

  /** access_structure_t; leafName and k are only meaningful for some kinds, but always present. */
  datatype Tree = Tree(kind: Kind, leafName: string, k: int, kids: seq<Tree>)

  /** node_t of the secret-sharing layer: every node is named. */
  datatype Node = Node(kind: Kind, name: string, k: int, kids: seq<Node>)

  /** The value of a gate from its children's values. */
  predicate Gate(kind: Kind, k: int, vals: seq<bool>)
  {
    match kind
    case And => Count(vals) == |vals|
    case Or => Count(vals) > 0
    case Threshold => Count(vals) >= 1 && Count(vals) >= k
    case Leaf => false
    case Unknown => false
  }

  /** The parties in `present` satisfy t. */
  predicate Holds(t: Tree, present: set<string>)
    decreases t
  {
    if t.kind == Leaf then t.leafName in present
    else Gate(t.kind, t.k, seq(|t.kids|, i requires 0 <= i < |t.kids| => Holds(t.kids[i], present)))
  }

  predicate NodeHolds(n: Node, present: set<string>)
    decreases n
  {
    if n.kind == Leaf then n.name in present
    else Gate(n.kind, n.k, seq(|n.kids|, i requires 0 <= i < |n.kids| => NodeHolds(n.kids[i], present)))
  }

  // ---------------------------------------------------------------- shape, size, height, leaves

  /** The rules for a node on its own. */
  predicate NodeRules(t: Tree)
  {
    match t.kind
    case Leaf => t.leafName != "" && t.kids == [] && t.k == 0
    case And => t.kids != [] && t.leafName == "" && t.k == 0
    case Or => t.kids != [] && t.leafName == "" && t.k == 0
    case Threshold => t.kids != [] && t.leafName == "" && 1 <= t.k <= |t.kids|
    case Unknown => false
  }

  predicate ShapeOk(t: Tree)
    decreases t
  {
    NodeRules(t) && forall i :: 0 <= i < |t.kids| ==> ShapeOk(t.kids[i])
  }

  /** Number of nodes, not looking below a leaf. */
  function Size(t: Tree): (n: nat)
    ensures n >= 1
    decreases t, 1
  {
    if t.kind == Leaf then 1 else 1 + SizeAll(t.kids)
  }

  function SizeAll(ts: seq<Tree>): nat
    decreases ts, 0
  {
    if ts == [] then 0 else SizeAll(ts[..|ts| - 1]) + Size(ts[|ts| - 1])
  }

  function Max(a: nat, b: nat): nat { if a > b then a else b }

  /** Edges on the longest path, not looking below a leaf. */
  function Height(t: Tree): nat
    decreases t, 1
  {
    if t.kind == Leaf || t.kids == [] then 0 else 1 + HeightAll(t.kids)
  }

  function HeightAll(ts: seq<Tree>): (h: nat)
    decreases ts, 0
  {
    if ts == [] then 0 else Max(HeightAll(ts[..|ts| - 1]), Height(ts[|ts| - 1]))
  }

  /** The names of the leaves. */
  function Leaves(t: Tree): set<string>
    decreases t, 1
  {
    if t.kind == Leaf then {t.leafName} else LeavesAll(t.kids)
  }

  function LeavesAll(ts: seq<Tree>): set<string>
    decreases ts, 0
  {
    if ts == [] then {} else LeavesAll(ts[..|ts| - 1]) + Leaves(ts[|ts| - 1])
  }

  /** No leaf name occurs twice. */
  predicate LeavesDistinct(t: Tree)
    decreases t, 1
  {
    t.kind == Leaf || LeavesDistinctAll(t.kids)
  }

  predicate LeavesDistinctAll(ts: seq<Tree>)
    decreases ts, 0
  {
    ts == [] ||
    var last := |ts| - 1;
    LeavesDistinctAll(ts[..last]) && LeavesDistinct(ts[last]) && LeavesAll(ts[..last]) !! Leaves(ts[last])
  }

  lemma {:induction false} HeightAllAbove(ts: seq<Tree>, i: nat)
    requires i < |ts|
    ensures Height(ts[i]) <= HeightAll(ts)
    decreases |ts|
  {
    var last := |ts| - 1;
    if i < last {
      HeightAllAbove(ts[..last], i);
      assert ts[..last][i] == ts[i];
    }
  }

  lemma {:induction false} SizeAllSlice(ts: seq<Tree>, i: nat)
    requires i < |ts|
    ensures SizeAll(ts[..i + 1]) == SizeAll(ts[..i]) + Size(ts[i])
    ensures SizeAll(ts[..i + 1]) <= SizeAll(ts)
    decreases |ts|
  {
    assert ts[..i + 1][..i] == ts[..i];
    if i + 1 == |ts| {
      assert ts[..i + 1] == ts;
    } else {
      var front := ts[..|ts| - 1];
      SizeAllSlice(front, i);
      assert front[..i + 1] == ts[..i + 1];
    }
  }

  /** The meaning depends on the leaves alone. */
  lemma {:induction false} HoldsLocal(t: Tree, p: set<string>, q: set<string>)
    requires forall x :: x in Leaves(t) ==> (x in p <==> x in q)
    ensures Holds(t, p) == Holds(t, q)
    decreases t
  {
    if t.kind != Leaf {
      forall i | 0 <= i < |t.kids| ensures Holds(t.kids[i], p) == Holds(t.kids[i], q) {
        LeavesAllHas(t.kids, i);
        HoldsLocal(t.kids[i], p, q);
      }
      assert seq(|t.kids|, i requires 0 <= i < |t.kids| => Holds(t.kids[i], p)) ==
             seq(|t.kids|, i requires 0 <= i < |t.kids| => Holds(t.kids[i], q));
    }
  }

  lemma {:induction false} LeavesAllHas(ts: seq<Tree>, i: nat)
    requires i < |ts|
    ensures Leaves(ts[i]) <= LeavesAll(ts)
    decreases |ts|
  {
    var last := |ts| - 1;
    if i < last {
      LeavesAllHas(ts[..last], i);
      assert ts[..last][i] == ts[i];
    }
  }

  /** More parties never hurt. */
  lemma {:induction false} HoldsMonotone(t: Tree, p: set<string>, q: set<string>)
    requires p <= q && Holds(t, p)
    ensures Holds(t, q)
    decreases t
  {
    if t.kind != Leaf {
      var a := seq(|t.kids|, i requires 0 <= i < |t.kids| => Holds(t.kids[i], p));
      var b := seq(|t.kids|, i requires 0 <= i < |t.kids| => Holds(t.kids[i], q));
      forall i | 0 <= i < |t.kids| && a[i] ensures b[i] { HoldsMonotone(t.kids[i], p, q); }
      CountMonotone(a, b);
    }
  }

  lemma {:induction false} CountMonotone(a: seq<bool>, b: seq<bool>)
    requires |a| == |b| && forall i :: 0 <= i < |a| && a[i] ==> b[i]
    ensures Count(a) <= Count(b)
  {
    if a != [] { CountMonotone(a[1..], b[1..]); }
  }

  /** Everybody together satisfies a well-shaped structure. */
  lemma {:induction false} AllPartiesSuffice(t: Tree, present: set<string>)
    requires ShapeOk(t) && Leaves(t) <= present
    ensures Holds(t, present)
    decreases t
  {
    if t.kind != Leaf {
      var vals := seq(|t.kids|, i requires 0 <= i < |t.kids| => Holds(t.kids[i], present));
      forall i | 0 <= i < |t.kids| ensures vals[i] {
        LeavesAllHas(t.kids, i);
        AllPartiesSuffice(t.kids[i], present);
      }
      CountAll(vals);
    }
  }
}
