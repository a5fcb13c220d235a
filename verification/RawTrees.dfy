/** The validator as it reads the JSON: any number may stand where an index should. Exactly when what it
    accepts is a tree for the traversal, which truncates every number. */
module RawTrees {
  import opened Aggregates
  import opened IsolationTree

  datatype RawTree = RawTree(left: seq<real>, right: seq<real>, feature: seq<real>, threshold: seq<real>,
                             decisionLength: seq<real>, averageLength: seq<real>, estimatorFeatures: seq<real>)

  /** Python's `int`: towards zero. */
  function Truncate(x: real): int
  {
    if x >= 0.0 then x.Floor else -((-x).Floor)
  }

  function Truncation(): real -> int { (x: real) => Truncate(x) }

  /** The tree that the traversal works on. */
  function Truncated(r: RawTree): Tree
  {
    Tree(Map(Truncation(), r.left), Map(Truncation(), r.right), Map(Truncation(), r.feature),
         r.threshold, r.decisionLength, r.averageLength, Map(Truncation(), r.estimatorFeatures))
  }

  ghost predicate RawAligned(r: RawTree)
  {
    0 < |r.left| == |r.right| == |r.feature| == |r.threshold| == |r.decisionLength| == |r.averageLength|
  }

  ghost predicate RawLeaf(r: RawTree, v: nat)
    requires RawAligned(r) && v < |r.left|
  {
    r.left[v] == -1.0 && r.right[v] == -1.0
  }

  ghost predicate RawNodeOk(r: RawTree, features: nat, v: nat)
    requires RawAligned(r) && v < |r.left|
  {
    var n := |r.left| as real;
    if RawLeaf(r, v) then r.feature[v] == -2.0
    else
      && v as real < r.left[v] < n && v as real < r.right[v] < n && r.left[v] != r.right[v]
      && 0.0 <= r.feature[v] < features as real
  }

  /** The truncated children of the first n nodes, in the order the validator lists them. */
  ghost function RawChildren(r: RawTree, n: nat): seq<int>
    requires RawAligned(r) && n <= |r.left|
  {
    if n == 0 then []
    else if RawLeaf(r, n - 1) then RawChildren(r, n - 1)
    else RawChildren(r, n - 1) + [Truncate(r.left[n - 1]), Truncate(r.right[n - 1])]
  }

  function RealRange(n: nat): seq<real>
  {
    seq(n, i requires 0 <= i < n => i as real)
  }

  ghost predicate RawAccepted(r: RawTree, features: nat)
  {
    && RawAligned(r)
    && r.estimatorFeatures == RealRange(features)
    && (forall v :: 0 <= v < |r.left| ==> RawNodeOk(r, features, v))
    && multiset(RawChildren(r, |r.left|)) == multiset(Range(1, |r.left|))
  }

  /** The validator's loop over the numbers as they are. */
  method CheckRaw(r: RawTree, features: nat) returns (verdict: Verdict)
    ensures verdict == Ok <==> RawAccepted(r, features)
  {
    var n := |r.left|;
    if !(0 < n == |r.right| == |r.feature| == |r.threshold| == |r.decisionLength| == |r.averageLength|) {
      return ArraysDiffer;
    }
    if r.estimatorFeatures != RealRange(features) {
      return EstimatorFeaturesDiffer;
    }
    var children: seq<int> := [];
    for v := 0 to n
      invariant children == RawChildren(r, v)
      invariant forall u :: 0 <= u < v ==> RawNodeOk(r, features, u)
    {
      if r.left[v] == -1.0 && r.right[v] == -1.0 {
        if r.feature[v] != -2.0 {
          assert !RawNodeOk(r, features, v);
          return LeafFeatureInvalid;
        }
      } else {
        if r.left[v] <= v as real || r.right[v] <= v as real || r.left[v] >= n as real || r.right[v] >= n as real
           || r.left[v] == r.right[v] || r.feature[v] < 0.0 || r.feature[v] >= features as real {
          assert !RawNodeOk(r, features, v);
          return ChildInvalid;
        }
        children := children + [Truncate(r.left[v]), Truncate(r.right[v])];
      }
    }
    if multiset(children) != multiset(Range(1, n)) {
      return NotOneTree;
    }
    return Ok;
  }

  // ---------------------------------------------------------------- what truncation keeps

  lemma TruncateFacts(x: real, v: int, n: int)
    requires v >= 0
    ensures v as real < x < n as real ==> v <= Truncate(x) < n
    ensures 0.0 <= x < n as real ==> 0 <= Truncate(x) < n
    ensures Truncate(-1.0) == -1 && Truncate(-2.0) == -2 && Truncate(v as real) == v
  {
    assert (1.0).Floor == 1 && (2.0).Floor == 2;
  }

  /** Truncation makes no node its own child. */
  ghost predicate NoSelfChild(r: RawTree)
    requires RawAligned(r)
  {
    forall v :: 0 <= v < |r.left| && !RawLeaf(r, v) ==> Truncate(r.left[v]) != v && Truncate(r.right[v]) != v
  }

  lemma LeavesKept(r: RawTree, features: nat, v: nat)
    requires RawAligned(r) && v < |r.left| && RawNodeOk(r, features, v)
    ensures Aligned(Truncated(r)) && (IsLeaf(Truncated(r), v) <==> RawLeaf(r, v))
  {
    TruncateFacts(r.left[v], v, |r.left|);
    TruncateFacts(r.right[v], v, |r.left|);
    hide Truncate;
  }

  lemma {:induction false} ChildrenKept(r: RawTree, features: nat, n: nat)
    requires RawAligned(r) && n <= |r.left| && forall v :: 0 <= v < n ==> RawNodeOk(r, features, v)
    ensures Aligned(Truncated(r)) && Children(Truncated(r), n) == RawChildren(r, n)
  {
    if n > 0 {
      ChildrenKept(r, features, n - 1);
      LeavesKept(r, features, n - 1);
    }
    hide Truncate;
  }

  /** The truncated children of one node differ, or the list would hold a number twice. */
  lemma ChildrenDiffer(r: RawTree, features: nat, v: nat)
    requires RawAccepted(r, features) && v < |r.left| && !RawLeaf(r, v)
    ensures Truncate(r.left[v]) != Truncate(r.right[v])
  {
    var c, n := Truncate(r.left[v]), |r.left|;
    assert RawChild(r, v, true) == c && RawChild(r, v, false) == Truncate(r.right[v]);
    hide Truncate, RawNodeOk, RawChild, RawChildren;
    if c == Truncate(r.right[v]) {
      ListedTwice(r, n, v, c);
      RangeCounts(1, n, c);
    }
  }

  function RawChild(r: RawTree, v: nat, turn: bool): int
    requires v < |r.left| == |r.right|
  {
    Truncate(if turn then r.left[v] else r.right[v])
  }

  lemma RawChildrenSnoc(r: RawTree, n: nat)
    requires RawAligned(r) && 0 < n <= |r.left|
    ensures RawChildren(r, n) == RawChildren(r, n - 1)
              + if RawLeaf(r, n - 1) then [] else [RawChild(r, n - 1, true), RawChild(r, n - 1, false)]
  {
    hide Truncate;
  }

  lemma CountSnoc(before: seq<int>, c: int, d: int, x: int)
    ensures multiset(before + [c, d])[x]
         == multiset(before)[x] + (if c == x then 1 else 0) + (if d == x then 1 else 0)
  {
    assert multiset(before + [c, d]) == multiset(before) + multiset{c, d};
  }

  lemma RawChildrenCount(r: RawTree, n: nat, x: int)
    requires RawAligned(r) && 0 < n <= |r.left|
    ensures multiset(RawChildren(r, n))[x] == multiset(RawChildren(r, n - 1))[x]
              + if RawLeaf(r, n - 1) then 0
                else ((if RawChild(r, n - 1, true) == x then 1 else 0)
                      + (if RawChild(r, n - 1, false) == x then 1 else 0))
  {
    RawChildrenSnoc(r, n);
    hide RawChildren, RawChild, RawLeaf;
    var before := RawChildren(r, n - 1);
    CountSnoc(before, RawChild(r, n - 1, true), RawChild(r, n - 1, false), x);
    assert before + [] == before;
  }

  lemma {:induction false} ListedTwice(r: RawTree, n: nat, v: nat, c: int)
    requires RawAligned(r) && v < n <= |r.left| && !RawLeaf(r, v) && RawChild(r, v, true) == RawChild(r, v, false) == c
    ensures multiset(RawChildren(r, n))[c] >= 2
  {
    hide RawChildren, RawChild, RawLeaf;
    RawChildrenCount(r, n, c);
    if v < n - 1 { ListedTwice(r, n - 1, v, c); }
  }

  lemma NodeKept(r: RawTree, features: nat, v: nat)
    requires RawAccepted(r, features) && v < |r.left| && NoSelfChild(r)
    ensures Aligned(Truncated(r)) && NodeOk(Truncated(r), features, v)
  {
    assert RawNodeOk(r, features, v);
    LeavesKept(r, features, v);
    TruncateFacts(r.left[v], v, |r.left|);
    TruncateFacts(r.right[v], v, |r.left|);
    TruncateFacts(r.feature[v], 0, features);
    if !RawLeaf(r, v) { ChildrenDiffer(r, features, v); }
    hide Truncate, RawChildren, Map;
  }

  lemma FeaturesKept(features: nat)
    ensures Map(Truncation(), RealRange(features)) == Range(0, features)
  {
    hide Map;
    forall i | 0 <= i < features ensures Truncate(RealRange(features)[i]) == i { TruncateFacts(0.0, i, 0); }
  }

  /** What the validator accepts is one rooted tree for the traversal exactly when truncation makes no
      node its own child; in particular whenever its numbers are whole. */
  lemma TruncatedAcceptedIff(r: RawTree, features: nat)
    requires RawAccepted(r, features)
    ensures Accepted(Truncated(r), features) <==> NoSelfChild(r)
  {
    ChildrenKept(r, features, |r.left|);
    FeaturesKept(features);
    if NoSelfChild(r) {
      forall v | 0 <= v < |r.left| ensures NodeOk(Truncated(r), features, v) { NodeKept(r, features, v); }
      hide NodeOk, Children, RawChildren, RawNodeOk, Map, Truncate;
    }
    if Accepted(Truncated(r), features) {
      forall v | 0 <= v < |r.left| && !RawLeaf(r, v) ensures Truncate(r.left[v]) != v && Truncate(r.right[v]) != v {
        assert RawNodeOk(r, features, v) && NodeOk(Truncated(r), features, v);
        LeavesKept(r, features, v);
      }
    }
  }

  lemma WholeNumbers(r: RawTree, features: nat)
    requires RawAccepted(r, features)
    requires forall v :: 0 <= v < |r.left| ==>
        r.left[v] == r.left[v].Floor as real && r.right[v] == r.right[v].Floor as real
    ensures NoSelfChild(r)
  {
    forall v | 0 <= v < |r.left| && !RawLeaf(r, v) ensures Truncate(r.left[v]) != v && Truncate(r.right[v]) != v {
      assert RawNodeOk(r, features, v);
    }
  }

  // ---------------------------------------------------------------- the traversal of what is accepted

  lemma ChildInRange(r: RawTree, features: nat, v: nat, turn: bool)
    requires RawAccepted(r, features) && v < |r.left| && !RawLeaf(r, v)
    ensures v <= RawChild(r, v, turn) < |r.left|
  {
    assert RawNodeOk(r, features, v);
    TruncateFacts(r.left[v], v, |r.left|);
    TruncateFacts(r.right[v], v, |r.left|);
    hide Truncate, RawChildren;
  }

  lemma {:induction false} Listed(r: RawTree, n: nat, v: nat, turn: bool)
    requires RawAligned(r) && v < n <= |r.left| && !RawLeaf(r, v)
    ensures multiset(RawChildren(r, n))[RawChild(r, v, turn)] >= 1
  {
    hide RawChildren, RawChild, RawLeaf;
    RawChildrenCount(r, n, RawChild(r, v, turn));
    if v < n - 1 { Listed(r, n - 1, v, turn); }
  }

  /** Two nodes that name one child make it occur twice in the list. */
  lemma {:induction false} ListedByTwo(r: RawTree, n: nat, u: nat, a: bool, v: nat, b: bool)
    requires RawAligned(r) && u < v < n <= |r.left| && !RawLeaf(r, u) && !RawLeaf(r, v)
    requires RawChild(r, u, a) == RawChild(r, v, b)
    ensures multiset(RawChildren(r, n))[RawChild(r, v, b)] >= 2
  {
    hide RawChildren, RawChild, RawLeaf;
    RawChildrenCount(r, n, RawChild(r, v, b));
    if v < n - 1 { ListedByTwo(r, n - 1, u, a, v, b); } else { Listed(r, v, u, a); }
  }

  /** The root, or a child of an earlier node. */
  ghost predicate Reached(r: RawTree, v: nat)
    requires RawAligned(r)
  {
    v == 0 || exists u: nat, a: bool :: u < v && u < |r.left| && !RawLeaf(r, u) && RawChild(r, u, a) == v
  }

  /** A node that is its own child is reached from nowhere else, so from a reached node every turn
      leads on. */
  lemma TurnLeadsOn(r: RawTree, features: nat, v: nat, turn: bool)
    requires RawAccepted(r, features) && v < |r.left| && !RawLeaf(r, v) && Reached(r, v)
    ensures v < RawChild(r, v, turn) < |r.left| && Reached(r, RawChild(r, v, turn))
  {
    hide RawNodeOk, RawChild, RawChildren;
    var n := |r.left|;
    ChildInRange(r, features, v, turn);
    RangeCounts(1, n, v);
    Listed(r, n, v, turn);
    if RawChild(r, v, turn) == v && v > 0 {
      var u: nat, a: bool :| u < v && u < n && !RawLeaf(r, u) && RawChild(r, u, a) == v;
      ListedByTwo(r, n, u, a, v, turn);
    }
  }

  /** Which way the split values turn at a node. */
  ghost predicate TurnsLeft(r: RawTree, values: seq<real>, v: nat)
    requires v < |r.feature| == |r.threshold|
  {
    var feature := Truncate(r.feature[v]);
    0 <= feature < |values| && values[feature] <= r.threshold[v]
  }

  /** The node after k turns from v, which stays at a leaf once there. */
  ghost function Walk(r: RawTree, values: seq<real>, v: int, k: nat): int
    requires RawAligned(r)
    decreases k
  {
    if k == 0 || !(0 <= v < |r.left|) || RawLeaf(r, v) then v
    else Walk(r, values, RawChild(r, v, TurnsLeft(r, values, v)), k - 1)
  }

  /** The leaf of a document: where |left| turns from the root lead. */
  ghost function Landing(r: RawTree, values: seq<real>): int
    requires RawAligned(r)
  {
    Walk(r, values, 0, |r.left|)
  }

  lemma LeafStays(r: RawTree, values: seq<real>, v: nat, k: nat)
    requires RawAligned(r) && v < |r.left| && RawLeaf(r, v)
    ensures Walk(r, values, v, k) == v
  {
  }

  lemma NodeFacts(r: RawTree, features: nat, v: nat)
    requires RawAccepted(r, features) && v < |r.left|
    ensures RawAligned(r) && |Truncated(r).left| == |Truncated(r).right| == |Truncated(r).feature| == |r.left|
    ensures RawLeaf(r, v) <==> Truncated(r).left[v] == LEAF
    ensures IsLeaf(Truncated(r), v) <==> RawLeaf(r, v)
    ensures !RawLeaf(r, v) ==>
              && 0 <= Truncated(r).feature[v] < features == |Truncated(r).estimatorFeatures|
              && Truncated(r).estimatorFeatures[Truncated(r).feature[v]] == Truncated(r).feature[v]
  {
    assert RawNodeOk(r, features, v);
    LeavesKept(r, features, v);
    FeaturesKept(features);
    TruncateFacts(r.left[v], v, |r.left|);
    TruncateFacts(r.feature[v], 0, features);
    hide Truncate, RawChildren;
  }

  /** The traversal of one tree, on whatever the validator accepts. It always stops at a leaf, every
      index is in range, and its failure branch is dead. */
  method TraverseRaw(r: RawTree, features: nat, values: seq<real>) returns (node: nat)
    requires RawAccepted(r, features) && |values| == features
    ensures node < |r.left| && node == Landing(r, values) && IsLeaf(Truncated(r), node)
  {
    var t := Truncated(r);
    hide RawNodeOk, RawChildren, Map, Truncate;
    node := 0;
    var traversed := 0;
    NodeFacts(r, features, 0);
    while t.left[node] != LEAF
      invariant node < |r.left| && traversed <= node && Reached(r, node)
      invariant Walk(r, values, node, |r.left| - traversed) == Landing(r, values)
      decreases |r.left| - node
    {
      NodeFacts(r, features, node);
      var feature := t.feature[node];
      var source := t.estimatorFeatures[feature];
      var next := if values[source] <= t.threshold[node] then t.left[node] else t.right[node];
      TurnLeadsOn(r, features, node, TurnsLeft(r, values, node));
      assert next == RawChild(r, node, TurnsLeft(r, values, node));
      traversed := traversed + 1;
      if next < 0 || next >= |t.left| || traversed > |t.left| {
        assert false;
      }
      node := next;
    }
    NodeFacts(r, features, node);
    LeafStays(r, values, node, |r.left| - traversed);
  }

  /** Nodes from the root on, each the truncated left child of the one before if the value it tests does not
      exceed its threshold, and else the truncated right child. */
  ghost predicate Route(r: RawTree, values: seq<real>, route: seq<int>)
    requires RawAligned(r)
  {
    && route != [] && route[0] == 0
    && forall k :: 0 <= k < |route| - 1 ==> RawTurn(r, values, route[k], route[k + 1])
  }

  ghost predicate RawTurn(r: RawTree, values: seq<real>, u: int, next: int)
    requires RawAligned(r)
  {
    && 0 <= u < |r.left| && !(r.left[u] == -1.0 && r.right[u] == -1.0) && 0 <= Truncate(r.feature[u]) < |values|
    && next == Truncate(if values[Truncate(r.feature[u])] <= r.threshold[u] then r.left[u] else r.right[u])
  }

  /** Routes only move on to later nodes, and a walk that has come that far goes on as it began. */
  lemma {:induction false} RouteWalks(r: RawTree, features: nat, values: seq<real>, route: seq<int>)
    requires RawAccepted(r, features) && |values| == features && Route(r, values, route)
    ensures var n := |route| - 1;
      && n <= route[n] < |r.left| && Reached(r, route[n])
      && Walk(r, values, route[n], |r.left| - n) == Landing(r, values)
  {
    assert Reached(r, 0);
    hide RawNodeOk, RawChildren, Truncate, Reached;
    var n := |route| - 1;
    if n > 0 {
      RouteWalks(r, features, values, route[..n]);
      assert RawTurn(r, values, route[n - 1], route[n]);
      TurnLeadsOn(r, features, route[n - 1], TurnsLeft(r, values, route[n - 1]));
    }
  }

  /** From the end of a route the values lead on to a leaf. */
  lemma {:induction false} RouteEnds(r: RawTree, features: nat, values: seq<real>, route: seq<int>)
    returns (all: seq<int>)
    requires RawAccepted(r, features) && |values| == features && Route(r, values, route)
    ensures Route(r, values, all) && 0 <= all[|all| - 1] < |r.left| && RawLeaf(r, all[|all| - 1])
    decreases |r.left| - |route|
  {
    RouteWalks(r, features, values, route);
    var v := route[|route| - 1];
    if RawLeaf(r, v) {
      all := route;
    } else {
      var next := RawChild(r, v, TurnsLeft(r, values, v));
      TurnTaken(r, features, values, v);
      hide RawNodeOk, RawChildren, Truncate, RawTurn;
      all := RouteEnds(r, features, values, route + [next]);
    }
  }

  lemma TurnTaken(r: RawTree, features: nat, values: seq<real>, v: nat)
    requires RawAccepted(r, features) && |values| == features && v < |r.left| && !RawLeaf(r, v)
    ensures RawTurn(r, values, v, RawChild(r, v, TurnsLeft(r, values, v)))
  {
    assert RawNodeOk(r, features, v);
    TruncateFacts(r.feature[v], 0, features);
    hide Truncate, RawChildren;
  }

  /** The values land at a leaf exactly when a route leads there. */
  lemma LandingIff(r: RawTree, features: nat, values: seq<real>, v: nat)
    requires RawAccepted(r, features) && |values| == features
    requires v < |r.left| && r.left[v] == -1.0 && r.right[v] == -1.0
    ensures Landing(r, values) == v <==> exists route :: Route(r, values, route) && route[|route| - 1] == v
  {
    assert RawAligned(r) && Route(r, values, [0]);
    hide RawAccepted, Landing, Route;
    if route :| Route(r, values, route) && route[|route| - 1] == v {
      RouteWalks(r, features, values, route);
      LeafStays(r, values, v, |r.left| - (|route| - 1));
    }
    var all := RouteEnds(r, features, values, [0]);
    RouteWalks(r, features, values, all);
    LeafStays(r, values, all[|all| - 1], |r.left| - (|all| - 1));
  }

  /** What a document contributes to the depth. */
  ghost function RawDepth(values: seq<real>): RawTree -> real
  {
    (r: RawTree) =>
      if RawAligned(r) && 0 <= Landing(r, values) < |r.left|
      then r.decisionLength[Landing(r, values)] + r.averageLength[Landing(r, values)] - 1.0 else 0.0
  }

  /** Which are the two lengths at the end of the route to a leaf, less one. */
  lemma DepthOfRoute(r: RawTree, features: nat, values: seq<real>, route: seq<int>)
    requires RawAccepted(r, features) && |values| == features && Route(r, values, route)
    requires var v := route[|route| - 1]; 0 <= v < |r.left| && r.left[v] == -1.0 && r.right[v] == -1.0
    ensures var v := route[|route| - 1]; RawDepth(values)(r) == r.decisionLength[v] + r.averageLength[v] - 1.0
  {
    assert RawAligned(r);
    hide RawAccepted, Landing, Route;
    LandingIff(r, features, values, route[|route| - 1]);
  }

  method TotalRawDepth(trees: seq<RawTree>, features: nat, values: seq<real>) returns (total: real)
    requires (forall r :: r in trees ==> RawAccepted(r, features)) && |values| == features
    ensures total == Sum(RawDepth(values), trees)
  {
    hide Landing, RawNodeOk, RawChildren;
    total := 0.0;
    for i := 0 to |trees|
      invariant total == Sum(RawDepth(values), trees[..i])
    {
      var node := TraverseRaw(trees[i], features, values);
      SumSnoc(RawDepth(values), trees, i);
      total := total + (trees[i].decisionLength[node] + trees[i].averageLength[node] - 1.0);
    }
    assert trees[..|trees|] == trees;
  }

  /** A forest that the validator accepts: node 1 has itself and node 2 for children. */
  const FOREST: RawTree :=
    RawTree([-1.0, 1.5, -1.0], [-1.0, 2.0, -1.0], [-2.0, 0.0, -2.0], [0.0, 0.0, 0.0],
      [1.0, 1.0, 1.0], [1.0, 1.0, 1.0], [0.0])

  lemma ForestIsAccepted()
    ensures RawAccepted(FOREST, 1) && !NoSelfChild(FOREST)
  {
    assert Truncate(1.5) == 1 && Truncate(2.0) == 2;
    assert RawLeaf(FOREST, 0) && !RawLeaf(FOREST, 1) && RawLeaf(FOREST, 2);
    assert RawChildren(FOREST, 1) == [] && RawChildren(FOREST, 2) == [1, 2];
    assert RawChildren(FOREST, 3) == [1, 2];
    assert Range(1, 3) == [1, 2] && RealRange(1) == [0.0];
  }
}
