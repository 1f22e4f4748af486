/**
 Isolation forests: the exporter `iforest_trees` and the depth sum of
 `iforest_decision` (ml/ejo_ml/export.py).

 scikit-learn keeps a tree in parallel arrays, -1 marking a leaf. The array
 tree rooted at node i is related to an inductive tree of node ids by
 `Unfolds`; it exists exactly when following children from i comes to an end.
 */
module IsolationForest {
  import opened Wrappers
  import opened Floats
  import opened FlatTrees

  datatype ArrayTree = ArrayTree(childrenLeft: seq<int>, childrenRight: seq<int>, feature: seq<int>,
                                 threshold: seq<Float>, samples: seq<nat>)

  datatype Estimator = Estimator(tree: ArrayTree, feats: seq<nat>)

  /** The arrays cover the same nodes, and splits use features the estimator was given. */
  ghost predicate Valid(e: Estimator) {
    var n := |e.tree.childrenLeft|;
    && n == |e.tree.childrenRight| == |e.tree.feature| == |e.tree.threshold| == |e.tree.samples|
    && forall i :: 0 <= i < n && e.tree.childrenLeft[i] != -1 ==> 0 <= e.tree.feature[i] < |e.feats|
  }

  ghost predicate Unfolds(e: Estimator, i: int, t: Tree<nat, nat>)
    requires Valid(e)
    decreases t
  {
    var n := |e.tree.childrenLeft|;
    && 0 <= i < n
    && match t
       case Leaf(id) => id == i && e.tree.childrenLeft[i] == -1
       case Split(id, l, r) =>
         && id == i && e.tree.childrenLeft[i] != -1
         && Unfolds(e, e.tree.childrenLeft[i], l) && Unfolds(e, e.tree.childrenRight[i], r)
  }

  /** scikit-learn numbers children after their parent, so its trees unfold. */
  lemma {:induction false} LaterChildrenUnfold(e: Estimator, i: nat) returns (t: Tree<nat, nat>)
    requires Valid(e) && i < |e.tree.childrenLeft|
    requires forall j :: 0 <= j < |e.tree.childrenLeft| && e.tree.childrenLeft[j] != -1 ==>
               && j < e.tree.childrenLeft[j] < |e.tree.childrenLeft|
               && j < e.tree.childrenRight[j] < |e.tree.childrenLeft|
    ensures Unfolds(e, i, t)
    decreases |e.tree.childrenLeft| - i
  {
    if e.tree.childrenLeft[i] == -1 {
      t := Leaf(i);
    } else {
      var l := LaterChildrenUnfold(e, e.tree.childrenLeft[i]);
      var r := LaterChildrenUnfold(e, e.tree.childrenRight[i]);
      t := Split(i, l, r);
    }
  }

  lemma {:induction false} UnfoldsOnce(e: Estimator, i: int, t: Tree<nat, nat>, u: Tree<nat, nat>)
    requires Valid(e) && Unfolds(e, i, t) && Unfolds(e, i, u)
    ensures t == u
    decreases t
  {
    if t.Split? {
      UnfoldsOnce(e, e.tree.childrenLeft[i], t.left, u.left);
      UnfoldsOnce(e, e.tree.childrenRight[i], t.right, u.right);
    }
  }

  // ----- the original tree, on the estimator's own feature subset

  /** The feature vector has every feature the estimator uses. */
  predicate Fits(e: Estimator, x: seq<Float>) {
    forall k :: 0 <= k < |e.feats| ==> e.feats[k] < |x|
  }

  /** The values an estimator sees: its own features, rounded to 32 bits by `cast`. */
  function OwnFeatures(e: Estimator, cast: Float -> Float, x: seq<Float>): (own: seq<Float>)
    requires Fits(e, x)
    ensures |own| == |e.feats|
  {
    seq(|e.feats|, k requires 0 <= k < |e.feats| => cast(x[e.feats[k]]))
  }

  /** The node id of the leaf reached from node i, and the number of splits passed; `t` only shows the descent ends. */
  ghost function Descend(e: Estimator, own: seq<Float>, i: int, t: Tree<nat, nat>): (nat, nat)
    requires Valid(e) && Unfolds(e, i, t) && |own| == |e.feats|
    decreases t
  {
    if e.tree.childrenLeft[i] == -1 then (i, 0)
    else
      var (leaf, depth) :=
        if AtMost(own[e.tree.feature[i]], e.tree.threshold[i])
        then Descend(e, own, e.tree.childrenLeft[i], t.left)
        else Descend(e, own, e.tree.childrenRight[i], t.right);
      (leaf, depth + 1)
  }

  /**
   One step down in numbers: to the left child exactly when the value of the node's feature is no greater than its
   threshold.
   */
  lemma {:induction false} DescendStep(e: Estimator, own: seq<Float>, i: int, t: Tree<nat, nat>)
    requires Valid(e) && Unfolds(e, i, t) && |own| == |e.feats|
    ensures e.tree.childrenLeft[i] == -1 ==> Descend(e, own, i, t) == (i, 0)
    ensures e.tree.childrenLeft[i] != -1 && own[e.tree.feature[i]].Fin? && e.tree.threshold[i].Fin? ==>
              var below := own[e.tree.feature[i]].r <= e.tree.threshold[i].r;
              var next := if below then e.tree.childrenLeft[i] else e.tree.childrenRight[i];
              && t.Split? && Unfolds(e, next, if below then t.left else t.right)
              && var (leaf, depth) := Descend(e, own, next, if below then t.left else t.right);
                 Descend(e, own, i, t) == (leaf, depth + 1)
  {
  }

  /** On the full vector: node i looks at the estimator's own feature, whose number is in `feats`. */
  lemma {:induction false} DescendOnFull(e: Estimator, cast: Float -> Float, x: seq<Float>, i: int, t: Tree<nat, nat>)
    requires Valid(e) && Unfolds(e, i, t) && Fits(e, x) && e.tree.childrenLeft[i] != -1
    requires cast(x[e.feats[e.tree.feature[i]]]).Fin? && e.tree.threshold[i].Fin?
    ensures var own := OwnFeatures(e, cast, x);
            && t.Split?
            && Descend(e, own, i, t).0 ==
               if cast(x[e.feats[e.tree.feature[i]]]).r <= e.tree.threshold[i].r
               then Descend(e, own, e.tree.childrenLeft[i], t.left).0
               else Descend(e, own, e.tree.childrenRight[i], t.right).0
  {
    DescendStep(e, OwnFeatures(e, cast, x), i, t);
  }

  // ----- the exporter

  datatype Cut = Cut(f: nat, t: Float)

  datatype ForestTable = ForestTable(nodes: seq<Node<Cut>>, leaves: seq<Float>, samples: seq<nat>)

  /** The tree over the original feature numbers. */
  ghost function Renamed(e: Estimator, i: int, t: Tree<nat, nat>): Tree<Cut, nat>
    requires Valid(e) && Unfolds(e, i, t)
    decreases t
  {
    match t
    case Leaf(id) => Leaf(id)
    case Split(id, l, r) =>
      Split(Cut(e.feats[e.tree.feature[i]], e.tree.threshold[i]),
            Renamed(e, e.tree.childrenLeft[i], l), Renamed(e, e.tree.childrenRight[i], r))
  }

  /** `samples` lists the sample counts of the leaves `ids`. */
  ghost predicate CountsOf(e: Estimator, ids: seq<nat>, samples: seq<nat>) {
    && |samples| == |ids|
    && forall k :: 0 <= k < |ids| ==> ids[k] < |e.tree.samples| && samples[k] == e.tree.samples[ids[k]]
  }

  class Builder {
    const e: Estimator
    var nodes: seq<Option<Node<Cut>>>
    var leaves: seq<nat>
    var samples: seq<nat>

    constructor (e: Estimator)
      ensures this.e == e && nodes == [] && leaves == [] && samples == []
    {
      this.e := e;
      nodes, leaves, samples := [], [], [];
    }

    method Walk(i: int, ghost t: Tree<nat, nat>) returns (ref: int)
      requires Valid(e) && Unfolds(e, i, t)
      requires CountsOf(e, leaves, samples)
      modifies this
      ensures Added(old(nodes), old(leaves), Renamed(e, i, t), nodes, leaves, ref)
      ensures CountsOf(e, leaves, samples)
      decreases t
    {
      if e.tree.childrenLeft[i] == -1 {
        leaves := leaves + [i];
        samples := samples + [e.tree.samples[i]];
        return -|leaves|;
      }
      var at := |nodes|;
      nodes := nodes + [None];
      var left := Walk(e.tree.childrenLeft[i], t.left);
      ghost var nodes1, leaves1 := nodes, leaves;
      var right := Walk(e.tree.childrenRight[i], t.right);
      FillSlot(old(nodes), old(leaves), Renamed(e, i, t), nodes1, leaves1, left, nodes, leaves, right);
      nodes := nodes[at := Some(Node(Cut(e.feats[e.tree.feature[i]], e.tree.threshold[i]), left, right))];
      return at;
    }
  }

  /** What one estimator becomes: the flat table of its tree, a zero per leaf, and the leaves' sample counts. */
  ghost predicate Exported(e: Estimator, t: Tree<nat, nat>, table: ForestTable)
    requires Valid(e) && Unfolds(e, 0, t)
  {
    var flat := Flatten(Renamed(e, 0, t));
    && table.nodes == flat.nodes
    && |table.leaves| == |flat.leaves| && (forall k :: 0 <= k < |table.leaves| ==> table.leaves[k] == Fin(0.0))
    && CountsOf(e, flat.leaves, table.samples)
  }

  method IForestTrees(forest: seq<Estimator>, ghost trees: seq<Tree<nat, nat>>) returns (out: seq<ForestTable>)
    requires |trees| == |forest|
    requires forall i :: 0 <= i < |forest| ==> Valid(forest[i]) && Unfolds(forest[i], 0, trees[i])
    ensures |out| == |forest|
    ensures forall i :: 0 <= i < |forest| ==> Exported(forest[i], trees[i], out[i])
  {
    out := [];
    for i := 0 to |forest|
      invariant |out| == i
      invariant forall j :: 0 <= j < i ==> Exported(forest[j], trees[j], out[j])
    {
      var b := new Builder(forest[i]);
      var root := b.Walk(0, trees[i]);
      assert b.leaves == Leaves(Renamed(forest[i], 0, trees[i]));
      ContentsFilled(b.nodes, Rows(Renamed(forest[i], 0, trees[i]), 0, 0));
      var nodes := Contents(b.nodes);
      if root < 0 {
        nodes := [];
      }
      out := out + [ForestTable(nodes, seq(|b.leaves|, _ => Fin(0.0)), b.samples)];
    }
  }

  // ----- the evaluator

  /** Which way an exported row sends the full feature vector. */
  predicate Below(cast: Float -> Float, x: seq<Float>, n: Cut) {
    n.f < |x| && AtMost(cast(x[n.f]), n.t)
  }

  /** The same in numbers: left exactly when the rounded value is no greater than the threshold. */
  lemma {:induction false} BelowInNumbers(cast: Float -> Float, x: seq<Float>, n: Cut)
    requires n.f < |x|
    ensures cast(x[n.f]).Fin? && n.t.Fin? ==> (Below(cast, x, n) <==> cast(x[n.f]).r <= n.t.r)
    ensures cast(x[n.f]) == NaN ==> !Below(cast, x, n)
    ensures cast(x[n.f]) == PosInf ==> (Below(cast, x, n) <==> n.t == PosInf)
    ensures cast(x[n.f]) == NegInf ==> (Below(cast, x, n) <==> n.t != NaN)
  {
  }

  function Route(cast: Float -> Float, x: seq<Float>): Cut -> bool {
    n => Below(cast, x, n)
  }

  /** The rows with the sample counts in the leaves' place. */
  function Counted(table: ForestTable): Table<Cut, nat> {
    Table(table.nodes, table.samples)
  }

  ghost predicate Usable(table: ForestTable, x: seq<Float>) {
    && Sound(Counted(table))
    && forall i :: 0 <= i < |table.nodes| ==> table.nodes[i].rule.f < |x|
  }

  /** The depth of the leaf reached, and its sample count. */
  ghost function Visit(table: ForestTable, cast: Float -> Float, x: seq<Float>): (nat, nat)
    requires Usable(table, x)
  {
    (PathLength(Meaning(table.nodes), Route(cast, x)), Answer(Counted(table), Route(cast, x)))
  }

  ghost function Visits(tables: seq<ForestTable>, cast: Float -> Float, x: seq<Float>): seq<(nat, nat)>
    requires forall i :: 0 <= i < |tables| ==> Usable(tables[i], x)
  {
    seq(|tables|, i requires 0 <= i < |tables| => Visit(tables[i], cast, x))
  }

  /** The running sum over the trees; `step` adds a depth and the average path length below a leaf. */
  function Fold<A>(init: A, step: (A, nat, nat) -> A, visits: seq<(nat, nat)>): A {
    if visits == [] then init
    else
      var last := visits[|visits| - 1];
      step(Fold(init, step, visits[..|visits| - 1]), last.0, last.1)
  }

  /** The walk through one tree: the splits passed, and the number of the leaf. */
  method ReachLeaf(nodes: seq<Node<Cut>>, cast: Float -> Float, x: seq<Float>) returns (depth: nat, leaf: nat)
    requires Forward(nodes) && forall i :: 0 <= i < |nodes| ==> nodes[i].rule.f < |x|
    ensures depth == PathLength(Meaning(nodes), Route(cast, x))
    ensures leaf == LeafNumber(Meaning(nodes), Route(cast, x))
  {
    depth, leaf := 0, 0;
    if nodes == [] {
      return;
    }
    ghost var goLeft := Route(cast, x);
    var at := 0;
    while true
      invariant 0 <= at < |nodes|
      invariant depth + PathLength(Decode(nodes, at), goLeft) == PathLength(Meaning(nodes), goLeft)
      invariant LeafNumber(Decode(nodes, at), goLeft) == LeafNumber(Meaning(nodes), goLeft)
      decreases |nodes| - at
    {
      var n := nodes[at];
      DecodeSplit(nodes, at);
      assert PointsAhead(nodes, at, n.l) && PointsAhead(nodes, at, n.r);
      depth := depth + 1;
      var next := if AtMost(cast(x[n.rule.f]), n.rule.t) then n.l else n.r;
      assert Below(cast, x, n.rule) == goLeft(n.rule);
      if next < 0 {
        leaf := -next - 1;
        assert Decode(nodes, next) == Leaf(leaf);
        assert LeafNumber(Decode(nodes, at), goLeft) == LeafNumber(Decode(nodes, next), goLeft);
        return;
      }
      at := next;
    }
  }

  /** The loop of `iforest_decision`, up to the depth sum the score is computed from. */
  method DepthSum<A>(tables: seq<ForestTable>, cast: Float -> Float, x: seq<Float>, init: A, step: (A, nat, nat) -> A)
    returns (depthSum: A)
    requires forall i :: 0 <= i < |tables| ==> Usable(tables[i], x)
    ensures depthSum == Fold(init, step, Visits(tables, cast, x))
  {
    depthSum := init;
    ghost var visits := Visits(tables, cast, x);
    for i := 0 to |tables|
      invariant depthSum == Fold(init, step, visits[..i])
    {
      assert Usable(tables[i], x);
      var depth, leaf := ReachLeaf(tables[i].nodes, cast, x);
      AnswerIsLeaf(Counted(tables[i]), Route(cast, x));
      assert visits[i] == (depth, tables[i].samples[leaf]);
      depthSum := step(depthSum, depth, tables[i].samples[leaf]);
      assert visits[..i + 1][..i] == visits[..i];
    }
    assert visits[..|tables|] == visits;
  }

  // ----- the depth sum in numbers

  /** The splits passed in one tree, and `c` of the sample count of the leaf reached. */
  ghost function TreeDepth(table: ForestTable, cast: Float -> Float, x: seq<Float>, c: nat -> real): real
    requires Usable(table, x)
  {
    var m, route := Meaning(table.nodes), Route(cast, x);
    AnswerIsLeaf(Counted(table), route);
    PathLength(m, route) as real + c(table.samples[LeafNumber(m, route)])
  }

  /** The same over the first `n` trees. */
  ghost function DepthOver(tables: seq<ForestTable>, cast: Float -> Float, x: seq<Float>, c: nat -> real, n: nat): real
    requires n <= |tables| && forall i :: 0 <= i < |tables| ==> Usable(tables[i], x)
  {
    if n == 0 then 0.0 else DepthOver(tables, cast, x, c, n - 1) + TreeDepth(tables[n - 1], cast, x, c)
  }

  /** `depth_sum += depth + average_path_length(samples)`, in exact arithmetic. */
  function Adding(c: nat -> real): (real, nat, nat) -> real {
    (sum: real, depth: nat, samples: nat) => sum + (depth as real + c(samples))
  }

  lemma {:induction false} AddVisit(table: ForestTable, cast: Float -> Float, x: seq<Float>, c: nat -> real, sum: real)
    requires Usable(table, x)
    ensures var visit := Visit(table, cast, x); Adding(c)(sum, visit.0, visit.1) == sum + TreeDepth(table, cast, x, c)
  {
    AnswerIsLeaf(Counted(table), Route(cast, x));
  }

  lemma {:induction false} FoldAnd<A>(init: A, step: (A, nat, nat) -> A, visits: seq<(nat, nat)>, last: (nat, nat))
    ensures Fold(init, step, visits + [last]) == step(Fold(init, step, visits), last.0, last.1)
  {
    assert (visits + [last])[..|visits + [last]| - 1] == visits;
  }

  lemma {:induction false} FoldIsSum(tables: seq<ForestTable>, cast: Float -> Float, x: seq<Float>, c: nat -> real,
                                     n: nat)
    requires n <= |tables| && forall i :: 0 <= i < |tables| ==> Usable(tables[i], x)
    ensures Fold(0.0, Adding(c), Visits(tables, cast, x)[..n]) == DepthOver(tables, cast, x, c, n)
  {
    if n > 0 {
      var visits := Visits(tables, cast, x);
      assert Usable(tables[n - 1], x) && visits[n - 1] == Visit(tables[n - 1], cast, x);
      assert visits[..n] == visits[..n - 1] + [visits[n - 1]];
      FoldIsSum(tables, cast, x, c, n - 1);
      FoldAnd(0.0, Adding(c), visits[..n - 1], visits[n - 1]);
      AddVisit(tables[n - 1], cast, x, c, DepthOver(tables, cast, x, c, n - 1));
    }
  }

  /**
   In exact arithmetic the loop returns, tree by tree, the splits passed and what `c` makes of the leaf's sample
   count.
   */
  method ExactDepthSum(tables: seq<ForestTable>, cast: Float -> Float, x: seq<Float>, c: nat -> real)
    returns (depthSum: real)
    requires forall i :: 0 <= i < |tables| ==> Usable(tables[i], x)
    ensures depthSum == DepthOver(tables, cast, x, c, |tables|)
  {
    depthSum := DepthSum(tables, cast, x, 0.0, Adding(c));
    FoldIsSum(tables, cast, x, c, |tables|);
    assert Visits(tables, cast, x)[..|tables|] == Visits(tables, cast, x);
  }

  // ----- exporting preserves leaves, depths and sample counts

  lemma {:induction false} RenamedDescends(e: Estimator, cast: Float -> Float, x: seq<Float>, i: int, t: Tree<nat, nat>)
    requires Valid(e) && Unfolds(e, i, t)
    requires Fits(e, x)
    ensures Descend(e, OwnFeatures(e, cast, x), i, t)
         == (Pick(Renamed(e, i, t), Route(cast, x)), PathLength(Renamed(e, i, t), Route(cast, x)))
    decreases t
  {
    if t.Split? {
      RenamedDescends(e, cast, x, e.tree.childrenLeft[i], t.left);
      RenamedDescends(e, cast, x, e.tree.childrenRight[i], t.right);
    }
  }

  lemma {:induction false} RenamedFeatures(e: Estimator, i: int, t: Tree<nat, nat>, k: nat)
    requires Valid(e) && Unfolds(e, i, t)
    requires k < |Rules(Renamed(e, i, t))|
    ensures Rules(Renamed(e, i, t))[k].f in e.feats
    decreases t
  {
    var a := Rules(Renamed(e, e.tree.childrenLeft[i], t.left));
    if 1 <= k <= |a| {
      RenamedFeatures(e, e.tree.childrenLeft[i], t.left, k - 1);
    } else if k > |a| {
      RenamedFeatures(e, e.tree.childrenRight[i], t.right, k - 1 - |a|);
    }
  }

  /**
   On the full feature vector an exported tree visits the leaf, at the depth,
   that the array tree visits on its own feature subset, and reports the
   sample count scikit-learn keeps for that leaf.
   */
  lemma {:induction false} ExportPreservesVisit(e: Estimator, t: Tree<nat, nat>, table: ForestTable,
                                                cast: Float -> Float, x: seq<Float>)
    requires Valid(e) && Unfolds(e, 0, t) && Exported(e, t, table)
    requires Fits(e, x)
    ensures Usable(table, x)
    ensures var (leaf, depth) := Descend(e, OwnFeatures(e, cast, x), 0, t);
            && leaf < |e.tree.samples|
            && Visit(table, cast, x) == (depth, e.tree.samples[leaf])
  {
    var u, goLeft := Renamed(e, 0, t), Route(cast, x);
    RenamedDescends(e, cast, x, 0, t);
    FlattenAnswers(u, goLeft);
    FlattenPreservesMeaning(u, goLeft);
    RowsKeepRules(u, 0, 0);
    forall k | 0 <= k < |table.nodes| ensures table.nodes[k].rule.f < |x| {
      RenamedFeatures(e, 0, t, k);
    }
    AnswerIsLeaf(Flatten(u), goLeft);
    AnswerIsLeaf(Counted(table), goLeft);
  }

  /** Hence the depth sum over an exported forest is the one over the original trees, in any arithmetic. */
  lemma {:induction false} ExportPreservesDepthSum<A>(forest: seq<Estimator>, trees: seq<Tree<nat, nat>>,
                                                      tables: seq<ForestTable>, cast: Float -> Float, x: seq<Float>,
                                                      init: A, step: (A, nat, nat) -> A,
                                                      original: seq<(nat, nat)>)
    requires |trees| == |forest| == |tables| == |original|
    requires forall i :: 0 <= i < |forest| ==>
               && Valid(forest[i]) && Unfolds(forest[i], 0, trees[i]) && Exported(forest[i], trees[i], tables[i])
               && Fits(forest[i], x)
    requires forall i :: 0 <= i < |forest| ==>
               var (leaf, depth) := Descend(forest[i], OwnFeatures(forest[i], cast, x), 0, trees[i]);
               original[i].0 == depth && leaf < |forest[i].tree.samples|
                 && original[i].1 == forest[i].tree.samples[leaf]
    ensures forall i :: 0 <= i < |tables| ==> Usable(tables[i], x)
    ensures Fold(init, step, Visits(tables, cast, x)) == Fold(init, step, original)
  {
    forall i | 0 <= i < |tables|
      ensures Usable(tables[i], x) && Visit(tables[i], cast, x) == original[i]
    {
      ExportPreservesVisit(forest[i], trees[i], tables[i], cast, x);
    }
    assert Visits(tables, cast, x) == original;
  }

  function Total(samples: seq<nat>): nat {
    if samples == [] then 0 else samples[0] + Total(samples[1..])
  }

  lemma {:induction false} TotalConcat(a: seq<nat>, b: seq<nat>)
    ensures Total(a + b) == Total(a) + Total(b)
  {
    if a == [] {
      assert a + b == b;
    } else {
      assert (a + b)[1..] == a[1..] + b;
      TotalConcat(a[1..], b);
    }
  }

  /** Every split of the tree divides its samples between its children. */
  ghost predicate Divides(e: Estimator, i: int, t: Tree<nat, nat>)
    requires Valid(e) && Unfolds(e, i, t)
    decreases t
  {
    t.Split? ==>
      var l, r := e.tree.childrenLeft[i], e.tree.childrenRight[i];
      assert Unfolds(e, l, t.left) && Unfolds(e, r, t.right);
      && e.tree.samples[i] == e.tree.samples[l] + e.tree.samples[r]
      && Divides(e, l, t.left) && Divides(e, r, t.right)
  }

  lemma {:induction false} CountsSplit(e: Estimator, a: seq<nat>, b: seq<nat>, samples: seq<nat>)
    requires CountsOf(e, a + b, samples)
    ensures CountsOf(e, a, samples[..|a|]) && CountsOf(e, b, samples[|a|..])
    ensures Total(samples) == Total(samples[..|a|]) + Total(samples[|a|..])
  {
    TotalConcat(samples[..|a|], samples[|a|..]);
    assert samples[..|a|] + samples[|a|..] == samples;
    forall k | 0 <= k < |a| ensures a[k] < |e.tree.samples| && samples[..|a|][k] == e.tree.samples[a[k]] {
      assert (a + b)[k] == a[k];
    }
    forall k | 0 <= k < |b| ensures b[k] < |e.tree.samples| && samples[|a|..][k] == e.tree.samples[b[k]] {
      assert (a + b)[|a| + k] == b[k];
    }
  }

  /** If every split divides its samples between its children, the exported leaf counts add up to the root's. */
  lemma {:induction false} LeafSamplesAddUp(e: Estimator, i: int, t: Tree<nat, nat>, samples: seq<nat>)
    requires Valid(e) && Unfolds(e, i, t) && Divides(e, i, t)
    requires CountsOf(e, Leaves(Renamed(e, i, t)), samples)
    ensures Total(samples) == e.tree.samples[i]
    decreases t
  {
    if t.Split? {
      var l, r := e.tree.childrenLeft[i], e.tree.childrenRight[i];
      var a, b := Leaves(Renamed(e, l, t.left)), Leaves(Renamed(e, r, t.right));
      CountsSplit(e, a, b, samples);
      LeafSamplesAddUp(e, l, t.left, samples[..|a|]);
      LeafSamplesAddUp(e, r, t.right, samples[|a|..]);
    } else {
      assert samples == [e.tree.samples[i]];
    }
  }
}
