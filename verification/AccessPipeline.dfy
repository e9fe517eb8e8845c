/** The whole path of an access structure, from the flat C arrays to the internal tree. */
module AccessPipeline {
  import opened AccessTree
  import opened Counting
  import F = FlatParser
  import M = FlatMeaning
  import T = TreeBuilder
  import opened Options
  import Errors

  /** The arrays and the internal tree built from them have the same meaning. */
  lemma ArraysMeanInternalTree(f: F.Flat, L: F.Layout, n: Node, v: map<nat, bool>, present: set<string>)
    requires F.Searchable(f) && F.Encodes(f, L) && T.Copies(F.TreeOf(f, L), n)
    requires M.Valuation(f, v, F.Nodes(L), present)
    ensures v[f.root] == NodeHolds(n, present)
  {
    M.ArraysMeanTheTree(f, L, v, F.Nodes(L), present);
    T.CopyMeansSame(F.TreeOf(f, L), n, present);
  }

  /** The leaf names of a parsed tree are the leaf names in the arrays. */
  lemma {:induction false} LeavesOfLayout(f: F.Flat, L: F.Layout, name: string)
    requires F.Searchable(f) && F.IsLayout(f, L)
    ensures name in Leaves(F.TreeOf(f, L)) <==>
              exists x :: x in F.Nodes(L) && IsLeafNamed(f, x, name)
    decreases L, 1
  {
    var n, t := F.NodeAt(f, L.idx), F.TreeOf(f, L);
    LeavesOfLayouts(f, L.kids, t.kids, name);
    if n.kind == 1 {
      assert L.kids == [];
      if name == t.leafName { assert L.idx in F.Nodes(L) && IsLeafNamed(f, L.idx, name); }
    } else if name in Leaves(t) {
      var x :| x in F.NodesAll(L.kids) && IsLeafNamed(f, x, name);
      assert x in F.Nodes(L);
    }
  }

  predicate IsLeafNamed(f: F.Flat, x: nat, name: string)
    requires F.Searchable(f)
  {
    x < f.nodesCount && F.NodeAt(f, x).kind == 1 && F.NodeAt(f, x).leafName == Some(name)
  }

  lemma {:induction false} LeavesOfLayouts(f: F.Flat, Ls: seq<F.Layout>, ts: seq<Tree>, name: string)
    requires F.Searchable(f) && |ts| == |Ls|
    requires forall i :: 0 <= i < |Ls| ==> F.IsLayout(f, Ls[i]) && ts[i] == F.TreeOf(f, Ls[i])
    ensures name in LeavesAll(ts) <==> exists x :: x in F.NodesAll(Ls) && IsLeafNamed(f, x, name)
    decreases Ls, 0
  {
    if Ls != [] {
      var last := |Ls| - 1;
      LeavesOfLayouts(f, Ls[..last], ts[..last], name);
      LeavesOfLayout(f, Ls[last], name);
    }
  }

  /** Parsing and translating in a row. A parsed tree passes the shape and size checks of the second
      stage, so that stage fails only on the curve or on the leaf names; and on success the internal
      tree has, for every set of present parties, the value of the arrays. */
  method FlatToInternal(input: Option<F.Flat>, partyNames: seq<string>, curveValid: bool)
    returns (rv: int, root: Option<Node>, ghost L: F.Layout)
    requires input.Some? ==> F.ArraysAsDeclared(input.value)
    ensures rv == Errors.SUCCESS ==>
              && input.Some? && F.Searchable(input.value) && F.Encodes(input.value, L) && root.Some?
              && forall v, present :: M.Valuation(input.value, v, F.Nodes(L), present) ==>
                   v[input.value.root] == NodeHolds(root.value, present)
    ensures rv != Errors.SUCCESS && input.Some? && F.Searchable(input.value) && curveValid ==>
              forall K :: F.Encodes(input.value, K) ==>
                !(Leaves(F.TreeOf(input.value, K)) == SetOf(partyNames) && LeavesDistinct(F.TreeOf(input.value, K)))
  {
    var t;
    rv, t, L := F.ToTree(input);
    root := None;
    if rv != Errors.SUCCESS { return; }
    var f := input.value;
    M.ParsedTreeIsValid(f, L);
    rv, root := T.ToInternal(t, partyNames, curveValid);
    if rv == Errors.SUCCESS {
      forall v, present | M.Valuation(f, v, F.Nodes(L), present) ensures v[f.root] == NodeHolds(root.value, present) {
        ArraysMeanInternalTree(f, L, root.value, v, present);
      }
    } else if curveValid {
      forall K | F.Encodes(f, K)
        ensures !(Leaves(F.TreeOf(f, K)) == SetOf(partyNames) && LeavesDistinct(F.TreeOf(f, K)))
      {
        F.LayoutUnique(f, K, L);
      }
    }
  }
}
