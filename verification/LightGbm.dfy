/**
 LightGBM trees: the exporter `lgbm_trees`, the evaluator `leaf_of` and the
 boosted score (ml/ejo_ml/export.py), the portal's gate `checkTree`
 (apps/portal/lib/enyo/ml/artifact-core.ts) and its evaluator `leafOf`
 (apps/portal/lib/enyo/ml/runtime-core.ts).
 */
module LightGbm {
  import opened Wrappers
  import opened Floats
  import opened FlatTrees
  import opened TableWalks

  /** One node of `dump_model()["tree_info"][..]["tree_structure"]`. */
  datatype Dump =
    | DumpLeaf(leafValue: Float)
    | DumpSplit(decisionType: Option<string>, feature: int, threshold: Float, defaultLeft: bool,
                missingType: Option<string>, left: Dump, right: Dump)

  datatype ExportError = NotNumerical | UnknownMissingType(name: string)

  /** The exported split: feature, threshold, default direction, and 0, 1 or 2 for None, Zero, NaN. */
  datatype Rule = Rule(f: int, t: Float, d: bool, m: int)

  function MissingName(node: Dump): string
    requires node.DumpSplit?
  {
    match node.missingType
    case Some(name) => name
    case None => "None"
  }

  function MissingCode(name: string): Option<int> {
    if name == "None" then Some(0)
    else if name == "Zero" then Some(1)
    else if name == "NaN" then Some(2)
    else None
  }

  /** The first thing the exporter stumbles on: the comparison before the children, the missing mode after them. */
  function Defect(node: Dump): Option<ExportError> {
    match node
    case DumpLeaf(_) => None
    case DumpSplit(decision, _, _, _, _, left, right) =>
      if decision != Some("<=") then Some(NotNumerical)
      else if Defect(left).Some? then Defect(left)
      else if Defect(right).Some? then Defect(right)
      else if MissingCode(MissingName(node)) == None then Some(UnknownMissingType(MissingName(node)))
      else None
  }

  /** Every split of a dump. */
  function SplitsOf(node: Dump): seq<Dump> {
    match node
    case DumpLeaf(_) => []
    case DumpSplit(_, _, _, _, _, left, right) => [node] + SplitsOf(left) + SplitsOf(right)
  }

  predicate IsExportable(split: Dump) {
    && split.DumpSplit? && split.decisionType == Some("<=")
    && (split.missingType == None || split.missingType.value in {"None", "Zero", "NaN"})
  }

  /**
   A dump can be exported exactly when all its splits are numerical with a missing mode that is known or not given.
   */
  lemma {:induction false} ExportableExactly(node: Dump)
    ensures Defect(node) == None <==> forall split :: split in SplitsOf(node) ==> IsExportable(split)
  {
    if node.DumpSplit? {
      ExportableExactly(node.left);
      ExportableExactly(node.right);
      forall split
        ensures split in SplitsOf(node)
                <==> split == node || split in SplitsOf(node.left) || split in SplitsOf(node.right)
      {
      }
      assert IsExportable(node) <==> node.decisionType == Some("<=") && MissingCode(MissingName(node)) != None;
    }
  }

  /** All the checks on a dump, in the order the exporter comes to them. */
  function Checks(node: Dump): seq<Option<ExportError>> {
    match node
    case DumpLeaf(_) => []
    case DumpSplit(decision, _, _, _, missing, left, right) =>
      [if decision == Some("<=") then None else Some(NotNumerical)]
      + Checks(left) + Checks(right)
      + [if missing.Some? && missing.value !in {"None", "Zero", "NaN"} then Some(UnknownMissingType(missing.value))
         else None]
  }

  /** The first of these that fails. */
  predicate IsFirst(checks: seq<Option<ExportError>>, failure: Option<ExportError>) {
    if failure == None then forall i :: 0 <= i < |checks| ==> checks[i] == None
    else exists i :: 0 <= i < |checks| && checks[i] == failure && forall j :: 0 <= j < i ==> checks[j] == None
  }

  lemma {:induction false} FirstOfBoth(a: seq<Option<ExportError>>, b: seq<Option<ExportError>>,
                                       first: Option<ExportError>, second: Option<ExportError>)
    requires IsFirst(a, first) && IsFirst(b, second)
    ensures IsFirst(a + b, if first.Some? then first else second)
  {
    if first.Some? {
      var i :| 0 <= i < |a| && a[i] == first && forall j :: 0 <= j < i ==> a[j] == None;
      assert (a + b)[i] == first;
    } else if second.Some? {
      var i :| 0 <= i < |b| && b[i] == second && forall j :: 0 <= j < i ==> b[j] == None;
      assert (a + b)[|a| + i] == second;
    }
  }

  lemma {:induction false} FirstOfOne(check: Option<ExportError>)
    ensures IsFirst([check], check)
  {
    assert [check][0] == check;
  }

  /** The export fails on the first check that does. */
  lemma {:induction false} FirstDefect(node: Dump)
    ensures IsFirst(Checks(node), Defect(node))
  {
    if node.DumpSplit? {
      var numerical := if node.decisionType == Some("<=") then None else Some(NotNumerical);
      var known := if MissingCode(MissingName(node)) == None then Some(UnknownMissingType(MissingName(node))) else None;
      FirstDefect(node.left);
      FirstDefect(node.right);
      FirstOfOne(numerical);
      FirstOfOne(known);
      FirstOfBoth([numerical], Checks(node.left), numerical, Defect(node.left));
      var first := if numerical.Some? then numerical else Defect(node.left);
      FirstOfBoth([numerical] + Checks(node.left), Checks(node.right), first, Defect(node.right));
      FirstOfBoth([numerical] + Checks(node.left) + Checks(node.right), [known],
                  if first.Some? then first else Defect(node.right), known);
    }
  }

  /** The tree an exportable dump describes. */
  function Read(node: Dump): Tree<Rule, Float>
    requires Defect(node) == None
  {
    match node
    case DumpLeaf(v) => Leaf(v)
    case DumpSplit(_, f, t, d, _, left, right) =>
      Split(Rule(f, t, d, MissingCode(MissingName(node)).value), Read(left), Read(right))
  }

  // ----- LightGBM's own reading of a dump

  /** The numerical split rule, one missing mode at a time. */
  predicate SplitsLeft(missing: string, v: Float, t: Float, defaultLeft: bool) {
    if missing == "NaN" then
      if v == NaN then defaultLeft else AtMost(v, t)
    else if missing == "Zero" then
      if v == NaN || CountsAsZero(v) then defaultLeft else AtMost(v, t)
    else
      AtMost(if v == NaN then Fin(0.0) else v, t)
  }

  /** The same in numbers: below the threshold or at it goes left, unless the value counts as missing. */
  lemma {:induction false} SplitsLeftInNumbers(missing: string, value: Float, t: Float, defaultLeft: bool)
    ensures value.Fin? && t.Fin? && missing != "Zero" ==>
              (SplitsLeft(missing, value, t, defaultLeft) <==> value.r <= t.r)
    ensures value.Fin? && t.Fin? && missing == "Zero" ==>
              SplitsLeft(missing, value, t, defaultLeft) ==
              if -0.00000000000000000000000000000000001 <= value.r <= 0.00000000000000000000000000000000001
                 then defaultLeft
              else value.r <= t.r
    ensures value == NaN && (missing == "NaN" || missing == "Zero") ==>
            SplitsLeft(missing, value, t, defaultLeft) == defaultLeft
    ensures value == NaN && t.Fin? && missing != "NaN" && missing != "Zero" ==>
              (SplitsLeft(missing, value, t, defaultLeft) <==> 0.0 <= t.r)
    ensures value == PosInf ==> (SplitsLeft(missing, value, t, defaultLeft) <==> t == PosInf)
    ensures value == NegInf ==> (SplitsLeft(missing, value, t, defaultLeft) <==> t != NaN)
  {
  }

  function Evaluate(node: Dump, x: int -> Float): Float {
    match node
    case DumpLeaf(v) => v
    case DumpSplit(_, f, t, d, _, left, right) =>
      if SplitsLeft(MissingName(node), x(f), t, d) then Evaluate(left, x) else Evaluate(right, x)
  }

  /**
   One step of it in numbers: to the left child at the threshold and below; a
   missing value, or under "Zero" one within 1e-35 of zero, by default.
   */
  lemma {:induction false} EvaluateStep(node: Dump, x: int -> Float)
    requires node.DumpSplit? && node.threshold.Fin?
    ensures var (v, missing) := (x(node.feature), node.missingType);
            var byDefault := Evaluate(if node.defaultLeft then node.left else node.right, x);
            && (v == NaN && (missing == Some("NaN") || missing == Some("Zero")) ==> Evaluate(node, x) == byDefault)
            && (v == Fin(0.0) && missing == Some("Zero") ==> Evaluate(node, x) == byDefault)
            && (v.Fin? && missing != Some("Zero") ==>
                  Evaluate(node, x) == Evaluate(if v.r <= node.threshold.r then node.left else node.right, x))
  {
    SplitsLeftInNumbers(MissingName(node), x(node.feature), node.threshold, node.defaultLeft);
  }

  // ----- the exporter

  class Builder {
    var nodes: seq<Option<Node<Rule>>>
    var leaves: seq<Float>

    constructor ()
      ensures nodes == [] && leaves == []
    {
      nodes, leaves := [], [];
    }

    method Walk(node: Dump) returns (r: Result<int, ExportError>)
      modifies this
      ensures r.Failure? <==> Defect(node).Some?
      ensures r.Failure? ==> Some(r.error) == Defect(node)
      ensures r.Success? ==>
                Added(old(nodes), old(leaves), Read(node), nodes, leaves, r.value)
      decreases node
    {
      match node {
        case DumpLeaf(v) =>
          leaves := leaves + [v];
          return Success(-|leaves|);
        case DumpSplit(decision, f, t, d, _, left, right) =>
          if decision != Some("<=") {
            return Failure(NotNumerical);
          }
          var at := |nodes|;
          nodes := nodes + [None];
          var l := Walk(left);
          ghost var nodes1, leaves1 := nodes, leaves;
          if l.Failure? {
            return Failure(l.error);
          }
          var r := Walk(right);
          if r.Failure? {
            return Failure(r.error);
          }
          var m := MissingCode(MissingName(node));
          if m == None {
            return Failure(UnknownMissingType(MissingName(node)));
          }
          FillSlot(old(nodes), old(leaves), Read(node), nodes1, leaves1, l.value, nodes, leaves, r.value);
          nodes := nodes[at := Some(Node(Rule(f, t, d, m.value), l.value, r.value))];
          return Success(at);
      }
    }
  }

  method LgbmTrees(dumps: seq<Dump>) returns (r: Result<seq<Table<Rule, Float>>, ExportError>)
    ensures r.Success? ==>
              && |r.value| == |dumps|
              && forall i :: 0 <= i < |dumps| ==> Defect(dumps[i]) == None && r.value[i] == Flatten(Read(dumps[i]))
    ensures r.Failure? ==>
              exists i :: && 0 <= i < |dumps| && Defect(dumps[i]) == Some(r.error)
                          && forall j :: 0 <= j < i ==> Defect(dumps[j]) == None
  {
    var out := [];
    for i := 0 to |dumps|
      invariant |out| == i
      invariant forall j :: 0 <= j < i ==> Defect(dumps[j]) == None && out[j] == Flatten(Read(dumps[j]))
    {
      var b := new Builder();
      var root := b.Walk(dumps[i]);
      if root.Failure? {
        return Failure(root.error);
      }
      ContentsFilled(b.nodes, Rows(Read(dumps[i]), 0, 0));
      var nodes := Contents(b.nodes);
      if root.value < 0 {
        nodes := [];
      }
      out := out + [Table(nodes, b.leaves)];
    }
    return Success(out);
  }

  // ----- the evaluator

  /** Which way an exported row sends an input. */
  predicate GoesLeft(x: int -> Float, n: Rule) {
    var v := if x(n.f) == NaN && n.m != 2 then Fin(0.0) else x(n.f);
    if (n.m == 1 && CountsAsZero(v)) || (n.m == 2 && v == NaN) then n.d else AtMost(v, n.t)
  }

  function Route(x: int -> Float): Rule -> bool {
    n => GoesLeft(x, n)
  }

  /**
   The exported rule in numbers: code 1 sends zeros and NaN by default, code 2 NaN alone, code 0 takes NaN for
   zero.
   */
  lemma {:induction false} GoesLeftInNumbers(x: int -> Float, n: Rule)
    requires 0 <= n.m <= 2
    ensures x(n.f).Fin? && n.t.Fin? && n.m != 1 ==> (GoesLeft(x, n) <==> x(n.f).r <= n.t.r)
    ensures x(n.f).Fin? && n.t.Fin? && n.m == 1 ==>
              GoesLeft(x, n) ==
              if -0.00000000000000000000000000000000001 <= x(n.f).r <= 0.00000000000000000000000000000000001 then n.d
              else x(n.f).r <= n.t.r
    ensures x(n.f) == NaN && n.m != 0 ==> GoesLeft(x, n) == n.d
    ensures x(n.f) == NaN && n.m == 0 && n.t.Fin? ==> (GoesLeft(x, n) <==> 0.0 <= n.t.r)
    ensures x(n.f) == PosInf ==> (GoesLeft(x, n) <==> n.t == PosInf)
    ensures x(n.f) == NegInf ==> (GoesLeft(x, n) <==> n.t != NaN)
  {
  }

  datatype RuntimeError = NoSuchNode | NoLeaf

  /**
   `leaf_of`, on every table on which its loop ends: the leaf the walk comes to,
   or the error of indexing a row that is not there.
   */
  method LeafOf(nodes: seq<Node<Rule>>, x: int -> Float) returns (r: Result<nat, RuntimeError>)
    requires Ends(nodes, Route(x))
    ensures match Walk(nodes, Route(x), Root(nodes), |nodes|)
            case AtLeaf(leaf) => r == Success(leaf)
            case NoSuchRow => r == Failure(NoSuchNode)
            case StillGoing => false
  {
    if nodes == [] {
      return Success(0);
    }
    ghost var goLeft := Route(x);
    EndsOrNever(nodes, goLeft);
    assert Walk(nodes, goLeft, 0, |nodes|) != StillGoing;
    var at := 0;
    ghost var rows: nat := |nodes|;
    while true
      invariant at >= 0
      invariant Walk(nodes, goLeft, at, rows) == Walk(nodes, goLeft, 0, |nodes|)
      decreases rows
    {
      if at >= |nodes| {
        return Failure(NoSuchNode);
      }
      var n := nodes[at];
      var v := x(n.rule.f);
      if v == NaN && n.rule.m != 2 {
        v := Fin(0.0);
      }
      var left := AtMost(v, n.rule.t);
      if (n.rule.m == 1 && CountsAsZero(v)) || (n.rule.m == 2 && v == NaN) {
        left := n.rule.d;
      }
      assert left == goLeft(n.rule);
      var next := if left then n.l else n.r;
      assert next == Child(n, goLeft);
      if next < 0 {
        return Success(-next - 1);
      }
      at := next;
      rows := rows - 1;
    }
  }

  /** On a forward table it returns the leaf the recursive reading of the table picks. */
  lemma {:induction false} ForwardEnds(nodes: seq<Node<Rule>>, x: int -> Float)
    requires Forward(nodes)
    ensures Ends(nodes, Route(x))
    ensures Walk(nodes, Route(x), Root(nodes), |nodes|) == AtLeaf(LeafNumber(Meaning(nodes), Route(x)))
  {
    ForwardWalk(nodes, Route(x), Root(nodes), |nodes|);
  }

  /**
   One split: a finite value no greater than the threshold gets the leaf its row names as `l`, a greater one that
   of `r`.
   */
  lemma {:induction false} OneSplit(n: Node<Rule>, x: int -> Float)
    requires n.l < 0 && n.r < 0 && x(n.rule.f).Fin? && n.rule.t.Fin? && n.rule.m == 0
    ensures Ends([n], Route(x))
    ensures Walk([n], Route(x), Root([n]), 1) == AtLeaf(if x(n.rule.f).r <= n.rule.t.r then -n.l - 1 else -n.r - 1)
  {
    GoesLeftInNumbers(x, n.rule);
    assert Route(x)(n.rule) == GoesLeft(x, n.rule);
    assert Child([n][0], Route(x)) < 0;
    assert Walk([n], Route(x), Root([n]), 1) != StillGoing;
  }

  /** The leaf values one input reaches, tree by tree. */
  ghost function Reached(tables: seq<Table<Rule, Float>>, x: int -> Float): seq<Float>
    requires forall i :: 0 <= i < |tables| ==> Sound(tables[i])
  {
    seq(|tables|, i requires 0 <= i < |tables| => Answer(tables[i], Route(x)))
  }

  lemma {:induction false} ReachedAt(tables: seq<Table<Rule, Float>>, x: int -> Float, i: nat)
    requires i < |tables| && Sound(tables[i]) && forall j :: 0 <= j < |tables| ==> Sound(tables[j])
    ensures var leaf := LeafNumber(Meaning(tables[i].nodes), Route(x));
            leaf < |tables[i].leaves| && Reached(tables, x)[i] == tables[i].leaves[leaf]
  {
    AnswerIsLeaf(tables[i], Route(x));
  }

  /** `boosted`: the leaf values, added up by Python's `sum`, whatever that does with floats. */
  method Boosted(tables: seq<Table<Rule, Float>>, x: int -> Float, sum: seq<Float> -> Float) returns (score: Float)
    requires forall i :: 0 <= i < |tables| ==> Sound(tables[i])
    ensures score == sum(Reached(tables, x))
  {
    var values := [];
    for i := 0 to |tables|
      invariant values == Reached(tables, x)[..i]
    {
      ForwardEnds(tables[i].nodes, x);
      ReachedAt(tables, x, i);
      var leaf := LeafOf(tables[i].nodes, x);
      values := values + [tables[i].leaves[leaf.value]];
    }
    assert values == Reached(tables, x);
    return sum(values);
  }

  // ----- exporting preserves meaning

  lemma {:induction false} ReadEvaluates(node: Dump, x: int -> Float)
    requires Defect(node) == None
    ensures Pick(Read(node), Route(x)) == Evaluate(node, x)
  {
    if node.DumpSplit? {
      ReadEvaluates(node.left, x);
      ReadEvaluates(node.right, x);
    }
  }

  /** Every exportable tree, every input: the leaf found in the table holds the value LightGBM's rule gives. */
  lemma {:induction false} ExportPreservesTree(node: Dump, x: int -> Float)
    requires Defect(node) == None
    ensures Sound(Flatten(Read(node)))
    ensures Answer(Flatten(Read(node)), Route(x)) == Evaluate(node, x)
  {
    FlattenAnswers(Read(node), Route(x));
    ReadEvaluates(node, x);
  }

  function Evaluations(dumps: seq<Dump>, x: int -> Float): seq<Float> {
    seq(|dumps|, i requires 0 <= i < |dumps| => Evaluate(dumps[i], x))
  }

  /**
   The exported trees reach the values the recursive evaluations give, so every way of summing them gives the same
   score.
   */
  lemma {:induction false} ExportPreservesScore(dumps: seq<Dump>, tables: seq<Table<Rule, Float>>, x: int -> Float,
                                                sum: seq<Float> -> Float)
    requires |tables| == |dumps|
    requires forall i :: 0 <= i < |dumps| ==> Defect(dumps[i]) == None && tables[i] == Flatten(Read(dumps[i]))
    ensures forall i :: 0 <= i < |tables| ==> Sound(tables[i])
    ensures Reached(tables, x) == Evaluations(dumps, x)
    ensures sum(Reached(tables, x)) == sum(Evaluations(dumps, x))
  {
    forall i | 0 <= i < |tables|
      ensures Sound(tables[i]) && Answer(tables[i], Route(x)) == Evaluate(dumps[i], x)
    {
      ExportPreservesTree(dumps[i], x);
    }
    assert Reached(tables, x) == Evaluations(dumps, x);
  }

  // ----- the portal's gate and evaluator

  const NODES_PER_TREE := 1024

  /** `checkTree`, on a well-typed upload. */
  predicate CheckTree(table: Table<Rule, Float>, features: int) {
    var Table(nodes, leaves) := table;
    && 1 <= |leaves| <= NODES_PER_TREE + 1
    && (forall k :: 0 <= k < |leaves| ==> leaves[k].Fin?)
    && |nodes| <= NODES_PER_TREE
    && (forall i :: 0 <= i < |nodes| ==>
          && CheckRule(nodes[i].rule, features)
          && CheckChild(table, i, nodes[i].l) && CheckChild(table, i, nodes[i].r))
    && (nodes == [] ==> |leaves| == 1)
  }

  predicate CheckChild(table: Table<Rule, Float>, i: nat, c: int) {
    && -|table.leaves| <= c <= NODES_PER_TREE - 1
    && (c >= 0 ==> i < c < |table.nodes|)
  }

  /** Whatever passes the gate can be evaluated: the walk ends, at a leaf that exists. */
  lemma {:induction false} GateIsSafe(table: Table<Rule, Float>, features: int, x: int -> Float)
    requires CheckTree(table, features)
    ensures Sound(table)
    ensures LeafNumber(Meaning(table.nodes), Route(x)) < |table.leaves|
  {
    forall i | 0 <= i < |table.nodes|
      ensures PointsAhead(table.nodes, i, table.nodes[i].l) && PointsAhead(table.nodes, i, table.nodes[i].r)
    {
      assert CheckChild(table, i, table.nodes[i].l) && CheckChild(table, i, table.nodes[i].r);
    }
    AnswerIsLeaf(table, Route(x));
  }

  /**
   The gate takes exactly the tables that can be evaluated safely and have no
   more than 1,024 rows and 1,025 leaves, finite numbers, known features and
   missing codes 0 to 2.
   */
  lemma {:induction false} GateTakesExactly(table: Table<Rule, Float>, features: int)
    ensures CheckTree(table, features) <==>
              && Sound(table) && |table.nodes| <= 1024 && |table.leaves| <= 1025
              && (table.nodes == [] ==> |table.leaves| == 1)
              && (forall k :: 0 <= k < |table.leaves| ==> table.leaves[k].Fin?)
              && (forall i :: 0 <= i < |table.nodes| ==> RuleInNumbers(table.nodes[i].rule, features))
  {
    if CheckTree(table, features) {
      GateIsSafe(table, features, _ => NaN);
    } else if Sound(table) && |table.nodes| <= 1024 {
      forall i | 0 <= i < |table.nodes|
        ensures CheckChild(table, i, table.nodes[i].l) && CheckChild(table, i, table.nodes[i].r)
      {
        assert PointsAhead(table.nodes, i, table.nodes[i].l) && PointsAhead(table.nodes, i, table.nodes[i].r);
      }
    }
  }

  predicate RuleInNumbers(s: Rule, features: int) {
    0 <= s.f < features && s.t.Fin? && s.m in {0, 1, 2}
  }

  lemma {:induction false} CodesInRange(node: Dump, i: nat)
    requires Defect(node) == None && i < |Rules(Read(node))|
    ensures 0 <= Rules(Read(node))[i].m <= 2
    decreases node
  {
    var a := |Rules(Read(node.left))|;
    if 1 <= i <= a {
      CodesInRange(node.left, i - 1);
    } else if i > a {
      CodesInRange(node.right, i - 1 - a);
    }
  }

  /** What the gate asks of a split's own fields. */
  predicate CheckRule(s: Rule, features: int) {
    0 <= s.f <= features - 1 && s.t.Fin? && 0 <= s.m <= 2
  }

  /**
   An exported tree is accepted exactly when it has at most 1,024 splits, its numbers are finite and its features
   exist.
   */
  lemma {:induction false} GateAcceptsExports(node: Dump, features: int)
    requires Defect(node) == None
    ensures var t := Read(node);
            CheckTree(Flatten(t), features) <==>
            && Splits(t) <= NODES_PER_TREE
            && (forall k :: 0 <= k < |Leaves(t)| ==> Leaves(t)[k].Fin?)
            && (forall k :: 0 <= k < |Rules(t)| ==> 0 <= Rules(t)[k].f < features && Rules(t)[k].t.Fin?)
  {
    var t := Read(node);
    var nodes := Flatten(t).nodes;
    RowsPointAhead(t, 0, 0);
    OneMoreLeafThanSplits(t);
    RowsKeepRules(t, 0, 0);
    forall i | 0 <= i < Splits(t)
      ensures CheckRule(nodes[i].rule, features) <==> 0 <= Rules(t)[i].f < features && Rules(t)[i].t.Fin?
    {
      CodesInRange(node, i);
    }
    forall i | 0 <= i < Splits(t) && Splits(t) <= NODES_PER_TREE
      ensures CheckChild(Flatten(t), i, nodes[i].l) && CheckChild(Flatten(t), i, nodes[i].r)
    {
      assert ChildOf(nodes[i].l, 0 + i, Splits(t), 0, |Leaves(t)|)
             && ChildOf(nodes[i].r, 0 + i, Splits(t), 0, |Leaves(t)|);
    }
  }

  /**
   The portal's `leafOf`, on every table: its guard of one step more than there
   are nodes stops exactly the walks that would never end, and no other.
   */
  method PortalLeafOf(nodes: seq<Node<Rule>>, x: int -> Float) returns (r: Result<nat, RuntimeError>)
    ensures match Walk(nodes, Route(x), Root(nodes), |nodes|)
            case AtLeaf(leaf) => r == Success(leaf)
            case NoSuchRow => r == Failure(NoSuchNode)
            case StillGoing => r == Failure(NoLeaf)
    ensures r == Failure(NoLeaf) <==> !Ends(nodes, Route(x))
  {
    EndsOrNever(nodes, Route(x));
    if |nodes| == 0 {
      return Success(0);
    }
    ghost var goLeft := Route(x);
    var at := 0;
    var guard := 0;
    while guard <= |nodes|
      invariant 0 <= guard <= |nodes| + 1 && at >= 0
      invariant guard <= |nodes| ==> Walk(nodes, goLeft, at, |nodes| - guard) == Walk(nodes, goLeft, 0, |nodes|)
      invariant Walk(nodes, goLeft, at, |nodes| + 1 - guard) == Walk(nodes, goLeft, 0, |nodes| + 1)
      invariant guard > |nodes| ==> Walk(nodes, goLeft, 0, |nodes|) == StillGoing
    {
      if at >= |nodes| {
        EndsWithinRows(nodes, goLeft, 0, |nodes| + 1);
        return Failure(NoSuchNode);
      }
      var n := nodes[at];
      var v := x(n.rule.f);
      if v == NaN && n.rule.m != 2 {
        v := Fin(0.0);
      }
      var left;
      if (n.rule.m == 1 && CountsAsZero(v)) || (n.rule.m == 2 && v == NaN) {
        left := n.rule.d;
      } else {
        left := AtMost(v, n.rule.t);
      }
      assert left == goLeft(n.rule);
      var next := if left then n.l else n.r;
      assert next == Child(n, goLeft);
      if next < 0 {
        EndsWithinRows(nodes, goLeft, 0, |nodes| + 1);
        return Success(-next - 1);
      }
      at := next;
      guard := guard + 1;
    }
    return Failure(NoLeaf);
  }

  /** The portal's `boosted`: from 0, tree by tree, with whatever rounding `add` has. */
  function Sum(add: (Float, Float) -> Float, values: seq<Float>): Float {
    if values == [] then Fin(0.0)
    else add(Sum(add, values[..|values| - 1]), values[|values| - 1])
  }

  method PortalBoosted(tables: seq<Table<Rule, Float>>, x: int -> Float, add: (Float, Float) -> Float)
    returns (score: Float)
    requires forall i :: 0 <= i < |tables| ==> Sound(tables[i])
    ensures score == Sum(add, Reached(tables, x))
  {
    score := Fin(0.0);
    ghost var values := Reached(tables, x);
    for i := 0 to |tables|
      invariant score == Sum(add, values[..i])
    {
      ForwardEnds(tables[i].nodes, x);
      ReachedAt(tables, x, i);
      var leaf := PortalLeafOf(tables[i].nodes, x);
      score := add(score, tables[i].leaves[leaf.value]);
      assert values[..i + 1][..i] == values[..i];
    }
    assert values[..|tables|] == values;
  }

  function RealSum(values: seq<Float>): real
    requires forall i :: 0 <= i < |values| ==> values[i].Fin?
  {
    if values == [] then 0.0 else values[0].r + RealSum(values[1..])
  }

  lemma {:induction false} RealSumAnd(values: seq<Float>, v: Float)
    requires v.Fin? && forall i :: 0 <= i < |values| ==> values[i].Fin?
    ensures RealSum(values + [v]) == RealSum(values) + v.r
  {
    if values == [] {
      assert values + [v] == [v];
    } else {
      assert (values + [v])[1..] == values[1..] + [v];
      RealSumAnd(values[1..], v);
    }
  }

  lemma {:induction false} SumAnd(add: (Float, Float) -> Float, values: seq<Float>, v: Float)
    ensures Sum(add, values + [v]) == add(Sum(add, values), v)
  {
    assert (values + [v])[..|values|] == values;
  }

  lemma {:induction false} ExactScoreAnd(add: (Float, Float) -> Float, values: seq<Float>, v: Float)
    requires v.Fin? && forall i :: 0 <= i < |values| ==> values[i].Fin?
    requires Sum(add, values) == Fin(RealSum(values)) && add(Sum(add, values), v) == Fin(RealSum(values) + v.r)
    ensures Sum(add, values + [v]) == Fin(RealSum(values + [v]))
  {
    RealSumAnd(values, v);
    SumAnd(add, values, v);
  }

  /** With exact addition the score of finite leaves is their sum. */
  lemma {:induction false} ExactScore(add: (Float, Float) -> Float, values: seq<Float>)
    requires forall i :: 0 <= i < |values| ==> values[i].Fin?
    requires forall a: real, b: real :: add(Fin(a), Fin(b)) == Fin(a + b)
    ensures Sum(add, values) == Fin(RealSum(values))
  {
    if values != [] {
      var init, v := values[..|values| - 1], values[|values| - 1];
      ExactScore(add, init);
      assert v == Fin(v.r);
      ExactScoreAnd(add, init, v);
      assert values == init + [v];
    }
  }
}
