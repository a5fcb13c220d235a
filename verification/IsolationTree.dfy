/** Flattened isolation trees: the validator of `_verify_spec` and the traversal of
    `_isolation_raw_score` that relies on it. */
module IsolationTree {
  import opened Aggregates

  const LEAF: int := -1
  const LEAF_FEATURE: int := -2

  datatype Tree = Tree(left: seq<int>, right: seq<int>, feature: seq<int>, threshold: seq<real>,
                       decisionLength: seq<real>, averageLength: seq<real>, estimatorFeatures: seq<int>)

  // ---------------------------------------------------------------- acceptance

  ghost predicate Aligned(t: Tree)
  {
    0 < |t.left| == |t.right| == |t.feature| == |t.threshold| == |t.decisionLength| == |t.averageLength|
  }

  ghost predicate IsLeaf(t: Tree, v: nat)
    requires Aligned(t) && v < |t.left|
  {
    t.left[v] == LEAF && t.right[v] == LEAF
  }

  ghost predicate NodeOk(t: Tree, features: nat, v: nat)
    requires Aligned(t) && v < |t.left|
  {
    if IsLeaf(t, v) then t.feature[v] == LEAF_FEATURE
    else
      && v < t.left[v] < |t.left| && v < t.right[v] < |t.left| && t.left[v] != t.right[v]
      && 0 <= t.feature[v] < features
  }

  /** The children of the first n nodes, in the order the validator lists them. */
  ghost function Children(t: Tree, n: nat): seq<int>
    requires Aligned(t) && n <= |t.left|
  {
    if n == 0 then []
    else if IsLeaf(t, n - 1) then Children(t, n - 1)
    else Children(t, n - 1) + [t.left[n - 1], t.right[n - 1]]
  }

  function Range(from: int, to: int): (r: seq<int>)
    requires from <= to
    ensures |r| == to - from && forall i :: 0 <= i < |r| ==> r[i] == from + i
  {
    seq(to - from, i requires 0 <= i < to - from => from + i)
  }

  ghost predicate Accepted(t: Tree, features: nat)
  {
    && Aligned(t)
    && t.estimatorFeatures == Range(0, features)
    && (forall v :: 0 <= v < |t.left| ==> NodeOk(t, features, v))
    && multiset(Children(t, |t.left|)) == multiset(Range(1, |t.left|))
  }

  datatype Verdict = Ok | ArraysDiffer | EstimatorFeaturesDiffer | LeafFeatureInvalid | ChildInvalid | NotOneTree

  /** The validator's loop. `sorted(children) == list(range(1, n))` is equality as multisets. */
  method Check(t: Tree, features: nat) returns (r: Verdict)
    ensures r == Ok <==> Accepted(t, features)
  {
    var n := |t.left|;
    if !(0 < n == |t.right| == |t.feature| == |t.threshold| == |t.decisionLength| == |t.averageLength|) {
      return ArraysDiffer;
    }
    if t.estimatorFeatures != Range(0, features) {
      return EstimatorFeaturesDiffer;
    }
    var children: seq<int> := [];
    for v := 0 to n
      invariant children == Children(t, v)
      invariant forall u :: 0 <= u < v ==> NodeOk(t, features, u)
    {
      if t.left[v] == LEAF && t.right[v] == LEAF {
        if t.feature[v] != LEAF_FEATURE {
          assert !NodeOk(t, features, v);
          return LeafFeatureInvalid;
        }
      } else {
        if t.left[v] <= v || t.right[v] <= v || t.left[v] >= n || t.right[v] >= n
           || t.left[v] == t.right[v] || t.feature[v] < 0 || t.feature[v] >= features {
          assert !NodeOk(t, features, v);
          return ChildInvalid;
        }
        children := children + [t.left[v], t.right[v]];
      }
    }
    if multiset(children) != multiset(Range(1, n)) {
      return NotOneTree;
    }
    return Ok;
  }

  // ---------------------------------------------------------------- one rooted binary tree

  /** A path is the list of turns taken from the root; true is left. */
  type Path = seq<bool>

  ghost function Child(t: Tree, v: nat, turn: bool): int
    requires Aligned(t) && v < |t.left|
  {
    if turn then t.left[v] else t.right[v]
  }

  /** p leads from the root to v through internal nodes only. */
  ghost predicate Leads(t: Tree, features: nat, p: Path, v: int)
    requires Accepted(t, features)
    decreases |p|
  {
    if p == [] then v == 0
    else exists u: nat ::
      u < |t.left| && !IsLeaf(t, u) && Child(t, u, p[|p| - 1]) == v && Leads(t, features, p[..|p| - 1], u)
  }

  ghost predicate Names(t: Tree, u: nat, turn: bool, c: int)
    requires Aligned(t) && u < |t.left|
  {
    !IsLeaf(t, u) && Child(t, u, turn) == c
  }

  /** The child list holds exactly the numbers that some (node, turn) names. */
  lemma {:induction false} ChildListed(t: Tree, n: nat, c: int)
    requires Aligned(t) && n <= |t.left|
    ensures c in Children(t, n) <==> exists u: nat, turn: bool :: u < n && Names(t, u, turn, c)
  {
    if n > 0 {
      ChildListed(t, n - 1, c);
      if !IsLeaf(t, n - 1) {
        assert Names(t, n - 1, true, t.left[n - 1]) && Names(t, n - 1, false, t.right[n - 1]);
      }
    }
  }

  lemma ChildrenCount(t: Tree, n: nat, c: int)
    requires Aligned(t) && 0 < n <= |t.left|
    ensures multiset(Children(t, n))[c] == multiset(Children(t, n - 1))[c]
            + (if Names(t, n - 1, true, c) then 1 else 0) + (if Names(t, n - 1, false, c) then 1 else 0)
  {
    var before := Children(t, n - 1);
    if !IsLeaf(t, n - 1) {
      assert Children(t, n) == before + [t.left[n - 1], t.right[n - 1]];
      assert multiset(Children(t, n)) == multiset(before) + multiset{t.left[n - 1]} + multiset{t.right[n - 1]};
    }
  }

  /** Two different (node, turn) pairs naming the same child make it occur twice in the list. */
  lemma {:induction false} ChildTwice(t: Tree, n: nat, u: nat, a: bool, w: nat, b: bool, c: int)
    requires Aligned(t) && n <= |t.left| && u < n && w < n && (u < w || (u == w && a && !b))
    requires Names(t, u, a, c) && Names(t, w, b, c)
    ensures multiset(Children(t, n))[c] >= 2
    decreases n
  {
    hide Children, Names;
    ChildrenCount(t, n, c);
    if w < n - 1 {
      ChildTwice(t, n - 1, u, a, w, b, c);
    } else if u < w {
      ChildListed(t, n - 1, c);
      assert c in multiset(Children(t, n - 1));
    }
  }

  lemma RangeCounts(from: int, to: int, c: int)
    requires from <= to
    ensures multiset(Range(from, to))[c] == if from <= c < to then 1 else 0
  {
    var r := Range(from, to);
    CountOnce(r, c);
    if from <= c < to { assert r[c - from] == c; }
    assert c in r <==> c in multiset(r);
  }

  /** Every node but the root is the child of exactly one (node, turn). */
  lemma ParentExists(t: Tree, features: nat, v: nat) returns (u: nat, turn: bool)
    requires Accepted(t, features) && 0 < v < |t.left|
    ensures u < v && !IsLeaf(t, u) && Child(t, u, turn) == v
  {
    RangeCounts(1, |t.left|, v);
    ChildListed(t, |t.left|, v);
    assert v in Children(t, |t.left|) <==> v in multiset(Children(t, |t.left|));
    u, turn :| u < |t.left| && Names(t, u, turn, v);
    assert NodeOk(t, features, u);
  }

  lemma ParentUnique(t: Tree, features: nat, u: nat, a: bool, w: nat, b: bool)
    requires Accepted(t, features) && u < |t.left| && w < |t.left|
    requires !IsLeaf(t, u) && !IsLeaf(t, w) && Child(t, u, a) == Child(t, w, b)
    ensures u == w && a == b
  {
    RangeCounts(1, |t.left|, Child(t, u, a));
    if u < w || (u == w && a && !b) {
      ChildTwice(t, |t.left|, u, a, w, b, Child(t, u, a));
    } else if w < u || (u == w && b && !a) {
      ChildTwice(t, |t.left|, w, b, u, a, Child(t, u, a));
    }
  }

  lemma {:induction false} PathExists(t: Tree, features: nat, v: nat) returns (p: Path)
    requires Accepted(t, features) && v < |t.left|
    ensures Leads(t, features, p, v)
    decreases v
  {
    if v == 0 {
      p := [];
    } else {
      var u, turn := ParentExists(t, features, v);
      var q := PathExists(t, features, u);
      p := q + [turn];
      assert p[..|p| - 1] == q;
    }
  }

  lemma {:induction false} PathUnique(t: Tree, features: nat, p: Path, q: Path, v: int)
    requires Accepted(t, features) && Leads(t, features, p, v) && Leads(t, features, q, v)
    ensures p == q
    decreases |p|
  {
    if p == [] || q == [] {
      PathToRoot(t, features, p, v);
      PathToRoot(t, features, q, v);
    } else {
      var u: nat :| u < |t.left| && !IsLeaf(t, u) && Child(t, u, p[|p| - 1]) == v
          && Leads(t, features, p[..|p| - 1], u);
      var w: nat :| w < |t.left| && !IsLeaf(t, w) && Child(t, w, q[|q| - 1]) == v
          && Leads(t, features, q[..|q| - 1], w);
      ParentUnique(t, features, u, p[|p| - 1], w, q[|q| - 1]);
      PathUnique(t, features, p[..|p| - 1], q[..|q| - 1], u);
      assert p == p[..|p| - 1] + [p[|p| - 1]];
      assert q == q[..|q| - 1] + [q[|q| - 1]];
    }
  }

  lemma PathToRoot(t: Tree, features: nat, p: Path, v: int)
    requires Accepted(t, features) && Leads(t, features, p, v)
    ensures p == [] <==> v == 0
  {
    if p != [] {
      var u: nat :| u < |t.left| && !IsLeaf(t, u) && Child(t, u, p[|p| - 1]) == v;
      assert NodeOk(t, features, u);
    }
  }

  /** An accepted tree is one rooted tree: every node is reached from node 0 by exactly one path. */
  lemma OneRootedTree(t: Tree, features: nat, v: nat)
    requires Accepted(t, features) && v < |t.left|
    ensures exists p :: Leads(t, features, p, v) && forall q :: Leads(t, features, q, v) ==> q == p
  {
    var p := PathExists(t, features, v);
    forall q | Leads(t, features, q, v) ensures q == p {
      PathUnique(t, features, q, p, v);
    }
  }

  ghost function Leaves(t: Tree, n: nat): nat
    requires Aligned(t) && n <= |t.left|
  {
    if n == 0 then 0 else Leaves(t, n - 1) + if IsLeaf(t, n - 1) then 1 else 0
  }

  lemma {:induction false} ChildCount(t: Tree, n: nat)
    requires Aligned(t) && n <= |t.left|
    ensures |Children(t, n)| == 2 * (n - Leaves(t, n))
  {
    if n > 0 { ChildCount(t, n - 1); }
  }

  /** Leaves exceed internal nodes by one. */
  lemma LeavesAndInternals(t: Tree, features: nat)
    requires Accepted(t, features)
    ensures var leaves := Leaves(t, |t.left|); leaves == (|t.left| - leaves) + 1
  {
    ChildCount(t, |t.left|);
    SameSize(Children(t, |t.left|), Range(1, |t.left|));
  }

  // ---------------------------------------------------------------- traversal

  /** Which way the traversal turns at an internal node. */
  ghost predicate GoesLeft(t: Tree, features: nat, values: seq<real>, v: nat)
    requires Accepted(t, features) && |values| == features && v < |t.left| && !IsLeaf(t, v)
  {
    assert NodeOk(t, features, v);
    values[t.feature[v]] <= t.threshold[v]
  }

  /** The leaf below v that the split values lead to. */
  ghost function LeafFrom(t: Tree, features: nat, values: seq<real>, v: nat): (leaf: nat)
    requires Accepted(t, features) && |values| == features && v < |t.left|
    ensures leaf < |t.left| && IsLeaf(t, leaf)
    decreases |t.left| - v
  {
    assert NodeOk(t, features, v);
    if IsLeaf(t, v) then v else LeafFrom(t, features, values, Child(t, v, GoesLeft(t, features, values, v)))
  }

  /** p leads from the root to v, left exactly where the value tested does not exceed the threshold. */
  ghost predicate Follows(t: Tree, features: nat, values: seq<real>, p: Path, v: int)
    requires Accepted(t, features) && |values| == features
    decreases |p|
  {
    if p == [] then v == 0
    else
      var last, before := p[|p| - 1], p[..|p| - 1];
      exists u: nat :: Turns(t, values, u, last, v) && Follows(t, features, values, before, u)
  }

  /** One turn of a traversal, from internal node u to its child v. */
  ghost predicate Turns(t: Tree, values: seq<real>, u: nat, left: bool, v: int)
    requires Aligned(t)
  {
    && u < |t.left| && !(t.left[u] == -1 && t.right[u] == -1) && 0 <= t.feature[u] < |values|
    && (left <==> values[t.feature[u]] <= t.threshold[u]) && v == if left then t.left[u] else t.right[u]
  }

  lemma {:induction false} FollowsLeads(t: Tree, features: nat, values: seq<real>, p: Path, v: int)
    requires Accepted(t, features) && |values| == features && Follows(t, features, values, p, v)
    ensures Leads(t, features, p, v)
    decreases |p|
  {
    if p != [] {
      var u: nat :| Turns(t, values, u, p[|p| - 1], v) && Follows(t, features, values, p[..|p| - 1], u);
      FollowsLeads(t, features, values, p[..|p| - 1], u);
      assert u < |t.left| && !IsLeaf(t, u) && Child(t, u, p[|p| - 1]) == v;
    }
  }

  lemma FollowsNothing(t: Tree, features: nat, values: seq<real>)
    requires Accepted(t, features) && |values| == features
    ensures Follows(t, features, values, [], 0)
  {
  }

  /** A path that the values follow to an internal node goes on to the child that they call for. */
  lemma FollowsOn(t: Tree, features: nat, values: seq<real>, p: Path, u: nat)
    requires Accepted(t, features) && |values| == features && Follows(t, features, values, p, u)
    requires u < |t.left| && !IsLeaf(t, u)
    ensures var turn := GoesLeft(t, features, values, u);
      Follows(t, features, values, p + [turn], Child(t, u, turn))
  {
    var turn := GoesLeft(t, features, values, u);
    assert NodeOk(t, features, u);
    assert (p + [turn])[..|p|] == p;
    assert Turns(t, values, u, turn, Child(t, u, turn));
  }

  /** The traversal of one tree. On an accepted tree it always stops at a leaf, its failure
      branch is dead, and `node` is the end of the unique path the split values call for. */
  method Traverse(t: Tree, features: nat, values: seq<real>) returns (node: nat, ghost path: Path)
    requires Accepted(t, features) && |values| == features
    ensures node == LeafFrom(t, features, values, 0)
    ensures Follows(t, features, values, path, node) && |path| < |t.left|
  {
    hide Follows;
    node, path := 0, [];
    FollowsNothing(t, features, values);
    var traversed := 0;
    while t.left[node] != LEAF
      invariant node < |t.left| && traversed == |path| <= node
      invariant Follows(t, features, values, path, node)
      invariant LeafFrom(t, features, values, node) == LeafFrom(t, features, values, 0)
      decreases |t.left| - node
    {
      assert NodeOk(t, features, node);
      var source := t.estimatorFeatures[t.feature[node]];
      ghost var turn := GoesLeft(t, features, values, node);
      ghost var extended := path + [turn];
      FollowsOn(t, features, values, path, node);
      var next := if values[source] <= t.threshold[node] then t.left[node] else t.right[node];
      traversed := traversed + 1;
      if next < 0 || next >= |t.left| || traversed > |t.left| {
        assert false;
      }
      node, path := next, extended;
    }
    assert NodeOk(t, features, node);
  }

  /** The leaf is determined: no other leaf has a path that the same values follow. */
  lemma {:induction false} LeafUnique(t: Tree, features: nat, values: seq<real>, p: Path, v: nat, q: Path, w: nat)
    requires Accepted(t, features) && |values| == features && v < |t.left| && w < |t.left|
    requires IsLeaf(t, v) && IsLeaf(t, w)
    requires Follows(t, features, values, p, v) && Follows(t, features, values, q, w)
    ensures p == q && v == w
  {
    if |p| <= |q| {
      PrefixFollows(t, features, values, p, v, q, w);
    } else {
      PrefixFollows(t, features, values, q, w, p, v);
    }
  }

  /** The node reached after the first |p| turns of q is the node reached by p. */
  lemma {:induction false} PrefixFollows(t: Tree, features: nat, values: seq<real>, p: Path, v: nat, q: Path, w: nat)
    requires Accepted(t, features) && |values| == features && v < |t.left| && w < |t.left|
    requires Follows(t, features, values, p, v) && Follows(t, features, values, q, w) && |p| <= |q|
    ensures p <= q
    ensures |p| == |q| ==> v == w
    ensures |p| < |q| ==> !IsLeaf(t, v)
    decreases |q|
  {
    if q != [] {
      var x: nat :| Turns(t, values, x, q[|q| - 1], w) && Follows(t, features, values, q[..|q| - 1], x);
      if |p| < |q| {
        PrefixFollows(t, features, values, p, v, q[..|q| - 1], x);
      } else {
        var u: nat :| Turns(t, values, u, p[|p| - 1], v) && Follows(t, features, values, p[..|p| - 1], u);
        PrefixFollows(t, features, values, p[..|p| - 1], u, q[..|q| - 1], x);
        assert p == p[..|p| - 1] + [p[|p| - 1]] && q == q[..|q| - 1] + [q[|q| - 1]];
      }
    }
  }

  lemma {:induction false} WalkFollows(t: Tree, features: nat, values: seq<real>, p: Path, v: nat) returns (q: Path)
    requires Accepted(t, features) && |values| == features && v < |t.left|
    requires Follows(t, features, values, p, v)
    ensures Follows(t, features, values, q, LeafFrom(t, features, values, v))
    decreases |t.left| - v
  {
    assert NodeOk(t, features, v);
    if IsLeaf(t, v) {
      q := p;
    } else {
      var turn := GoesLeft(t, features, values, v);
      FollowsOn(t, features, values, p, v);
      q := WalkFollows(t, features, values, p + [turn], Child(t, v, turn));
    }
  }

  /** The values end at leaf v exactly when they satisfy every split on v's one path. */
  lemma LeafReachedIff(t: Tree, features: nat, values: seq<real>, p: Path, v: nat)
    requires Accepted(t, features) && |values| == features && v < |t.left| && IsLeaf(t, v)
    requires Leads(t, features, p, v)
    ensures LeafFrom(t, features, values, 0) == v <==> Follows(t, features, values, p, v)
  {
    var q := WalkFollows(t, features, values, [], 0);
    var leaf := LeafFrom(t, features, values, 0);
    if leaf == v {
      FollowsLeads(t, features, values, q, v);
      PathUnique(t, features, p, q, v);
    }
    if Follows(t, features, values, p, v) {
      LeafUnique(t, features, values, p, v, q, leaf);
    }
  }

  // ---------------------------------------------------------------- the ensemble

  /** What a tree contributes to the depth: the two lengths stored at its leaf, less one. */
  ghost function Depth(features: nat, values: seq<real>): Tree -> real
  {
    (t: Tree) =>
      if Accepted(t, features) && |values| == features then
        var leaf := LeafFrom(t, features, values, 0);
        t.decisionLength[leaf] + t.averageLength[leaf] - 1.0
      else 0.0
  }

  /** A tree contributes the lengths stored at the end of the one path that its values follow to a leaf. */
  lemma DepthOfPath(t: Tree, features: nat, values: seq<real>, p: Path, v: nat)
    requires Accepted(t, features) && |values| == features && v < |t.left|
    requires t.left[v] == -1 && t.right[v] == -1 && Follows(t, features, values, p, v)
    ensures Depth(features, values)(t) == t.decisionLength[v] + t.averageLength[v] - 1.0
  {
    var q := WalkFollows(t, features, values, [], 0);
    LeafUnique(t, features, values, p, v, q, LeafFrom(t, features, values, 0));
    hide LeafFrom, Accepted, Follows;
  }

  method TotalDepth(trees: seq<Tree>, features: nat, values: seq<real>) returns (total: real)
    requires (forall t :: t in trees ==> Accepted(t, features)) && |values| == features
    ensures total == Sum(Depth(features, values), trees)
  {
    hide LeafFrom, Accepted;
    total := 0.0;
    for i := 0 to |trees|
      invariant total == Sum(Depth(features, values), trees[..i])
    {
      var node, _ := Traverse(trees[i], features, values);
      LeafInRange(trees[i], features, values);
      SumSnoc(Depth(features, values), trees, i);
      total := total + (trees[i].decisionLength[node] + trees[i].averageLength[node] - 1.0);
    }
    assert trees[..|trees|] == trees;
  }

  lemma LeafInRange(t: Tree, features: nat, values: seq<real>)
    requires Accepted(t, features) && |values| == features
    ensures Aligned(t) && LeafFrom(t, features, values, 0) < |t.left| == |t.decisionLength| == |t.averageLength|
  {
  }
}
