/**
 Binary decision trees and the flat node tables they are exported to.

 A table lists the splits in pre-order. A child reference is the index of
 another row, or -(k + 1) for the k-th leaf. `Flatten` says which table a tree
 becomes, `Decode` reads any forward-pointing table back; everything the
 exporters and the evaluators promise is proved through these two.
 */
module FlatTrees {
  import opened Wrappers

  datatype Tree<+S, +L> = Leaf(value: L) | Split(rule: S, left: Tree<S, L>, right: Tree<S, L>)

  datatype Node<+S> = Node(rule: S, l: int, r: int)

  datatype Table<+S, +L> = Table(nodes: seq<Node<S>>, leaves: seq<L>)

  // ----- recursive meaning of a tree

  /** The leaf an input reaches, the input being given as the answer to each split. */
  function Pick<S, L>(t: Tree<S, L>, goLeft: S -> bool): L {
    match t
    case Leaf(v) => v
    case Split(s, l, r) => if goLeft(s) then Pick(l, goLeft) else Pick(r, goLeft)
  }

  /** How many splits that input passes on its way. */
  function PathLength<S, L>(t: Tree<S, L>, goLeft: S -> bool): nat {
    match t
    case Leaf(_) => 0
    case Split(s, l, r) => 1 + if goLeft(s) then PathLength(l, goLeft) else PathLength(r, goLeft)
  }

  function Splits<S, L>(t: Tree<S, L>): nat {
    match t
    case Leaf(_) => 0
    case Split(_, l, r) => 1 + Splits(l) + Splits(r)
  }

  function Leaves<S, L>(t: Tree<S, L>): seq<L> {
    match t
    case Leaf(v) => [v]
    case Split(_, l, r) => Leaves(l) + Leaves(r)
  }

  function Rules<S, L>(t: Tree<S, L>): seq<S> {
    match t
    case Leaf(_) => []
    case Split(s, l, r) => [s] + Rules(l) + Rules(r)
  }

  // ----- the table of a tree

  /** The reference to `t` when `n` rows and `k` leaves precede it. */
  function Ref<S, L>(t: Tree<S, L>, n: nat, k: nat): int {
    if t.Leaf? then -1 - k else n
  }

  /** The rows of `t`, placed after `n` rows and `k` leaves. */
  function Rows<S, L>(t: Tree<S, L>, n: nat, k: nat): (rows: seq<Node<S>>)
    ensures |rows| == Splits(t)
  {
    match t
    case Leaf(_) => []
    case Split(s, l, r) =>
      var n' := n + 1 + Splits(l);
      var k' := k + |Leaves(l)|;
      [Node(s, Ref(l, n + 1, k), Ref(r, n', k'))] + Rows(l, n + 1, k) + Rows(r, n', k')
  }

  function Flatten<S, L>(t: Tree<S, L>): Table<S, L> {
    Table(Rows(t, 0, 0), Leaves(t))
  }

  // ----- reading a table back

  /** Children are leaves or later rows: the reason every evaluator's loop ends. */
  ghost predicate Forward<S>(nodes: seq<Node<S>>) {
    forall i :: 0 <= i < |nodes| ==> PointsAhead(nodes, i, nodes[i].l) && PointsAhead(nodes, i, nodes[i].r)
  }

  ghost predicate PointsAhead<S>(nodes: seq<Node<S>>, i: int, ref: int) {
    ref < 0 || i < ref < |nodes|
  }

  /** The tree below `ref`; its leaves are leaf numbers. */
  ghost function Decode<S>(nodes: seq<Node<S>>, ref: int): Tree<S, nat>
    requires Forward(nodes) && ref < |nodes|
    decreases if ref < 0 then 0 else |nodes| - ref
  {
    if ref < 0 then Leaf(-ref - 1)
    else
      assert PointsAhead(nodes, ref, nodes[ref].l) && PointsAhead(nodes, ref, nodes[ref].r);
      Split(nodes[ref].rule, Decode(nodes, nodes[ref].l), Decode(nodes, nodes[ref].r))
  }

  /** The tree a whole table stands for: with no rows it is leaf 0. */
  ghost function Meaning<S>(nodes: seq<Node<S>>): Tree<S, nat>
    requires Forward(nodes)
  {
    Decode(nodes, if nodes == [] then -1 else 0)
  }

  /** The leaf number a decoded table gives. */
  function LeafNumber<S>(m: Tree<S, nat>, goLeft: S -> bool): nat {
    Pick<S, nat>(m, goLeft)
  }

  /** `t` with its leaves replaced by their numbers, counting from `k`. */
  function Numbered<S, L>(t: Tree<S, L>, k: nat): Tree<S, nat> {
    match t
    case Leaf(_) => Leaf(k)
    case Split(s, l, r) => Split(s, Numbered(l, k), Numbered(r, k + |Leaves(l)|))
  }

  // ----- the exported table is well formed

  lemma {:induction false} OneMoreLeafThanSplits<S, L>(t: Tree<S, L>)
    ensures |Leaves(t)| == Splits(t) + 1
  {
    if t.Split? {
      OneMoreLeafThanSplits(t.left);
      OneMoreLeafThanSplits(t.right);
    }
  }

  /** A row's children lie strictly between the row and the end of the table, or are leaves of the tree. */
  lemma {:induction false} RowsPointAhead<S, L>(t: Tree<S, L>, n: nat, k: nat)
    ensures forall i :: 0 <= i < Splits(t) ==>
              ChildOf(Rows(t, n, k)[i].l, n + i, n + Splits(t), k, |Leaves(t)|) &&
              ChildOf(Rows(t, n, k)[i].r, n + i, n + Splits(t), k, |Leaves(t)|)
  {
    if t.Split? {
      var n' := n + 1 + Splits(t.left);
      var k' := k + |Leaves(t.left)|;
      RowsPointAhead(t.left, n + 1, k);
      RowsPointAhead(t.right, n', k');
      OneMoreLeafThanSplits(t.left);
      OneMoreLeafThanSplits(t.right);
      var rows, a, b := Rows(t, n, k), Rows(t.left, n + 1, k), Rows(t.right, n', k');
      forall i | 0 <= i < Splits(t)
        ensures ChildOf(rows[i].l, n + i, n + Splits(t), k, |Leaves(t)|) &&
                ChildOf(rows[i].r, n + i, n + Splits(t), k, |Leaves(t)|)
      {
        if 1 <= i <= |a| {
          assert rows[i] == a[i - 1];
        } else if i > |a| {
          assert rows[i] == b[i - 1 - |a|];
        }
      }
    }
  }

  predicate ChildOf(ref: int, row: int, end: int, k: nat, count: nat) {
    row < ref < end || k < -ref <= k + count
  }

  /** How often a table refers to `ref`. */
  function References<S>(nodes: seq<Node<S>>, ref: int): nat {
    if nodes == [] then 0
    else (if nodes[0].l == ref then 1 else 0) + (if nodes[0].r == ref then 1 else 0) + References(nodes[1..], ref)
  }

  lemma {:induction false} ReferencesConcat<S>(a: seq<Node<S>>, b: seq<Node<S>>, ref: int)
    ensures References(a + b, ref) == References(a, ref) + References(b, ref)
  {
    if a == [] {
      assert a + b == b;
    } else {
      assert (a + b)[1..] == a[1..] + b;
      ReferencesConcat(a[1..], b, ref);
    }
  }

  lemma {:induction false} ReferencesOfSplit<S>(x: Node<S>, a: seq<Node<S>>, b: seq<Node<S>>, ref: int)
    ensures References([x] + a + b, ref)
         == (if x.l == ref then 1 else 0) + (if x.r == ref then 1 else 0) + References(a, ref) + References(b, ref)
  {
    ReferencesConcat([x] + a, b, ref);
    ReferencesConcat([x], a, ref);
    assert [x][1..] == [];
  }

  /** 1 for a row among `splits` rows from `n` on or a leaf among `leaves` leaves from `k` on, else 0. */
  function Belongs(ref: int, n: nat, splits: nat, k: nat, leaves: nat): nat {
    if n <= ref < n + splits || k < -ref <= k + leaves then 1 else 0
  }

  lemma {:induction false} BelongsToPart(ref: int, n: nat, a: nat, b: nat, k: nat, c: nat, d: nat)
    ensures Belongs(ref, n, 1 + a + b, k, c + d)
         == (if ref == n then 1 else 0) + Belongs(ref, n + 1, a, k, c) + Belongs(ref, n + 1 + a, b, k + c, d)
  {
  }

  /** The rows of `t` and the reference to it name each of its rows and leaves once, and nothing else. */
  ghost predicate NamesOnce<S, L>(t: Tree<S, L>, n: nat, k: nat, ref: int) {
    References(Rows(t, n, k), ref) + (if ref == Ref(t, n, k) then 1 else 0)
    == Belongs(ref, n, Splits(t), k, |Leaves(t)|)
  }

  lemma {:induction false} SplitNamesOnce<S, L>(s: S, l: Tree<S, L>, r: Tree<S, L>, n: nat, k: nat, ref: int)
    requires NamesOnce(l, n + 1, k, ref)
    requires NamesOnce(r, n + 1 + Splits(l), k + |Leaves(l)|, ref)
    ensures NamesOnce(Split(s, l, r), n, k, ref)
  {
    var n', k' := n + 1 + Splits(l), k + |Leaves(l)|;
    ReferencesOfSplit(Node(s, Ref(l, n + 1, k), Ref(r, n', k')), Rows(l, n + 1, k), Rows(r, n', k'), ref);
    BelongsToPart(ref, n, Splits(l), Splits(r), k, |Leaves(l)|, |Leaves(r)|);
  }

  lemma {:induction false} RowsReferences<S, L>(t: Tree<S, L>, n: nat, k: nat, ref: int)
    ensures NamesOnce(t, n, k, ref)
  {
    match t
    case Leaf(_) =>
    case Split(s, l, r) =>
      RowsReferences(l, n + 1, k, ref);
      RowsReferences(r, n + 1 + Splits(l), k + |Leaves(l)|, ref);
      SplitNamesOnce(s, l, r, n, k, ref);
  }

  /** Every row but the root, and every leaf when there is a row, is some row's child exactly once; nothing else is. */
  lemma {:induction false} EachReferencedOnce<S, L>(t: Tree<S, L>, ref: int)
    requires t.Split?
    ensures References(Flatten(t).nodes, ref) ==
            if 1 <= ref < |Flatten(t).nodes| || 1 <= -ref <= |Flatten(t).leaves| then 1 else 0
  {
    RowsReferences(t, 0, 0, ref);
  }

  lemma {:induction false} FlattenForward<S, L>(t: Tree<S, L>)
    ensures Forward(Flatten(t).nodes)
    ensures |Flatten(t).leaves| == |Flatten(t).nodes| + 1
  {
    RowsPointAhead(t, 0, 0);
    OneMoreLeafThanSplits(t);
  }

  // ----- flattening loses nothing

  /** `rows` stand in the table from row `n` on. */
  ghost predicate Stands<S>(rows: seq<Node<S>>, nodes: seq<Node<S>>, n: nat) {
    && n + |rows| <= |nodes|
    && forall i :: 0 <= i < |rows| ==> nodes[n + i] == rows[i]
  }

  lemma {:induction false} StandParts<S>(x: Node<S>, a: seq<Node<S>>, b: seq<Node<S>>, nodes: seq<Node<S>>, n: nat)
    requires Stands([x] + a + b, nodes, n)
    ensures nodes[n] == x
    ensures Stands(a, nodes, n + 1)
    ensures Stands(b, nodes, n + 1 + |a|)
  {
    var rows := [x] + a + b;
    assert nodes[n + 0] == rows[0];
    forall i | 0 <= i < |a| ensures nodes[n + 1 + i] == a[i] {
      assert nodes[n + (1 + i)] == rows[1 + i];
    }
    forall i | 0 <= i < |b| ensures nodes[n + 1 + |a| + i] == b[i] {
      assert nodes[n + (1 + |a| + i)] == rows[1 + |a| + i];
    }
  }

  lemma {:induction false} DecodeSplit<S>(nodes: seq<Node<S>>, i: nat)
    requires Forward(nodes) && i < |nodes|
    ensures nodes[i].l < |nodes| && nodes[i].r < |nodes|
    ensures Decode(nodes, i) == Split(nodes[i].rule, Decode(nodes, nodes[i].l), Decode(nodes, nodes[i].r))
  {
    assert PointsAhead(nodes, i, nodes[i].l) && PointsAhead(nodes, i, nodes[i].r);
  }

  /** Wherever the rows of `t` sit in a table, decoding their reference gives `t` back. */
  lemma {:induction false} DecodeRows<S, L>(nodes: seq<Node<S>>, t: Tree<S, L>, n: nat, k: nat)
    requires Forward(nodes)
    requires Stands(Rows(t, n, k), nodes, n)
    ensures Decode(nodes, Ref(t, n, k)) == Numbered(t, k)
    decreases t
  {
    if t.Split? {
      var n', k' := n + 1 + Splits(t.left), k + |Leaves(t.left)|;
      StandParts(Node(t.rule, Ref(t.left, n + 1, k), Ref(t.right, n', k')), Rows(t.left, n + 1, k),
                 Rows(t.right, n', k'), nodes, n);
      DecodeRows(nodes, t.left, n + 1, k);
      DecodeRows(nodes, t.right, n', k');
      DecodeSplit(nodes, n);
    }
  }

  lemma {:induction false} RoundTrip<S, L>(t: Tree<S, L>)
    ensures Forward(Flatten(t).nodes)
    ensures Meaning(Flatten(t).nodes) == Numbered(t, 0)
  {
    FlattenForward(t);
    DecodeRows(Rows(t, 0, 0), t, 0, 0);
  }

  /** `m` leads to the number, counting from `k`, of the leaf `t` leads to, over as many splits. */
  ghost predicate SameWalk<S, L>(m: Tree<S, nat>, t: Tree<S, L>, k: nat, goLeft: S -> bool) {
    && k <= LeafNumber(m, goLeft) < k + |Leaves(t)|
    && Leaves(t)[LeafNumber(m, goLeft) - k] == Pick(t, goLeft)
    && PathLength(m, goLeft) == PathLength(t, goLeft)
  }

  lemma {:induction false} NumberedPicks<S, L>(t: Tree<S, L>, k: nat, goLeft: S -> bool)
    ensures SameWalk(Numbered(t, k), t, k, goLeft)
  {
    if t.Split? {
      NumberedPicks(t.left, k, goLeft);
      NumberedPicks(t.right, k + |Leaves(t.left)|, goLeft);
    }
  }

  /** The table picks the leaf the tree picks, at the same depth, for every way of answering the splits. */
  lemma {:induction false} FlattenPreservesMeaning<S, L>(t: Tree<S, L>, goLeft: S -> bool)
    ensures Forward(Flatten(t).nodes)
    ensures SameWalk(Meaning(Flatten(t).nodes), t, 0, goLeft)
  {
    RoundTrip(t);
    NumberedPicks(t, 0, goLeft);
  }

  /** The root's row comes first: `l` leads to the left subtree, the next row or leaf 0, and `r` past it. */
  lemma {:induction false} RootRow<S, L>(t: Tree<S, L>)
    requires t.Split?
    ensures var root := Flatten(t).nodes[0];
            && root.rule == t.rule
            && root.l == (if t.left.Leaf? then -1 else 1)
            && root.r == if t.right.Leaf? then -1 - |Leaves(t.left)| else 1 + Splits(t.left)
  {
  }

  /** The rules of the rows are the tree's splits in pre-order. */
  lemma {:induction false} RowsKeepRules<S, L>(t: Tree<S, L>, n: nat, k: nat)
    ensures |Rules(t)| == Splits(t)
    ensures forall i :: 0 <= i < Splits(t) ==> Rows(t, n, k)[i].rule == Rules(t)[i]
  {
    if t.Split? {
      RowsKeepRules(t.left, n + 1, k);
      RowsKeepRules(t.right, n + 1 + Splits(t.left), k + |Leaves(t.left)|);
    }
  }

  // ----- tables from anywhere

  /** What an evaluator needs of a table: forward rows, and leaf references that exist. */
  ghost predicate Sound<S, L>(table: Table<S, L>) {
    && Forward(table.nodes)
    && table.leaves != []
    && forall i :: 0 <= i < |table.nodes| ==>
         -table.nodes[i].l <= |table.leaves| && -table.nodes[i].r <= |table.leaves|
  }

  lemma {:induction false} PickInRange<S>(nodes: seq<Node<S>>, leaves: nat, ref: int, goLeft: S -> bool)
    requires Forward(nodes) && -ref <= leaves && ref < |nodes|
    requires forall i :: 0 <= i < |nodes| ==> -nodes[i].l <= leaves && -nodes[i].r <= leaves
    ensures LeafNumber(Decode(nodes, ref), goLeft) < leaves
    decreases if ref < 0 then 0 else |nodes| - ref
  {
    if ref >= 0 {
      assert PointsAhead(nodes, ref, nodes[ref].l) && PointsAhead(nodes, ref, nodes[ref].r);
      PickInRange(nodes, leaves, nodes[ref].l, goLeft);
      PickInRange(nodes, leaves, nodes[ref].r, goLeft);
    }
  }

  /** The leaf a sound table gives an input. */
  ghost function Answer<S, L>(table: Table<S, L>, goLeft: S -> bool): L
    requires Sound(table)
  {
    PickInRange(table.nodes, |table.leaves|, if table.nodes == [] then -1 else 0, goLeft);
    table.leaves[LeafNumber(Meaning(table.nodes), goLeft)]
  }

  lemma {:induction false} AnswerIsLeaf<S, L>(table: Table<S, L>, goLeft: S -> bool)
    requires Sound(table)
    ensures LeafNumber(Meaning(table.nodes), goLeft) < |table.leaves|
    ensures Answer(table, goLeft) == table.leaves[LeafNumber(Meaning(table.nodes), goLeft)]
  {
    PickInRange(table.nodes, |table.leaves|, if table.nodes == [] then -1 else 0, goLeft);
  }

  /** An exported table is sound, and gives every input the leaf the tree gives it. */
  lemma {:induction false} FlattenAnswers<S, L>(t: Tree<S, L>, goLeft: S -> bool)
    ensures Sound(Flatten(t))
    ensures Answer(Flatten(t), goLeft) == Pick(t, goLeft)
  {
    FlattenForward(t);
    RowsPointAhead(t, 0, 0);
    FlattenPreservesMeaning(t, goLeft);
  }

  // ----- the slots a builder fills

  /** Rows as filled slots; a builder's `None` is a place it has yet to fill. */
  function Filled<S>(rows: seq<Node<S>>): (slots: seq<Option<Node<S>>>)
    ensures |slots| == |rows|
    ensures forall i :: 0 <= i < |rows| ==> slots[i] == Some(rows[i])
  {
    seq(|rows|, i requires 0 <= i < |rows| => Some(rows[i]))
  }

  /** The finished rows, once no slot is empty. */
  function Contents<S>(slots: seq<Option<Node<S>>>): (rows: seq<Node<S>>)
    requires forall i :: 0 <= i < |slots| ==> slots[i].Some?
    ensures Filled(rows) == slots
  {
    seq(|slots|, i requires 0 <= i < |slots| => slots[i].value)
  }

  lemma {:induction false} ContentsFilled<S>(slots: seq<Option<Node<S>>>, rows: seq<Node<S>>)
    requires slots == Filled(rows)
    ensures Contents(slots) == rows
  {
  }

  /** A builder holding `slots` and `leaves` has added exactly `t` to them, and answered with the reference to it. */
  ghost predicate Added<S, L>(slots: seq<Option<Node<S>>>, leaves: seq<L>, t: Tree<S, L>,
                              slots': seq<Option<Node<S>>>, leaves': seq<L>, ref: int) {
    && slots' == slots + Filled(Rows(t, |slots|, |leaves|))
    && leaves' == leaves + Leaves(t)
    && ref == Ref(t, |slots|, |leaves|)
  }

  lemma {:induction false} FillFirst<S>(slots: seq<Option<Node<S>>>, x: Node<S>, a: seq<Node<S>>, b: seq<Node<S>>)
    ensures (slots + [None] + Filled(a) + Filled(b))[|slots| := Some(x)] == slots + Filled([x] + a + b)
  {
  }

  /** Filling the slot kept for the parent, after both subtrees have added theirs, adds the whole tree. */
  lemma {:induction false} FillSlot<S, L>(slots: seq<Option<Node<S>>>, leaves: seq<L>, t: Tree<S, L>,
                       slots1: seq<Option<Node<S>>>, leaves1: seq<L>, l: int,
                       slots2: seq<Option<Node<S>>>, leaves2: seq<L>, r: int)
    requires t.Split?
    requires Added(slots + [None], leaves, t.left, slots1, leaves1, l)
    requires Added(slots1, leaves1, t.right, slots2, leaves2, r)
    ensures Added(slots, leaves, t, slots2[|slots| := Some(Node(t.rule, l, r))], leaves2, |slots|)
  {
    var n, k := |slots|, |leaves|;
    var a, b := Rows(t.left, n + 1, k), Rows(t.right, |slots1|, |leaves1|);
    assert |slots1| == n + 1 + |a| && |leaves1| == k + |Leaves(t.left)|;
    assert Rows(t, n, k) == [Node(t.rule, l, r)] + a + b;
    assert leaves2 == leaves + Leaves(t);
    FillFirst(slots, Node(t.rule, l, r), a, b);
  }
}
