/**
 The evaluators' walk on a node table that may come from anywhere: it ends at a
 leaf, leaves the table, or goes round for ever. How a walk is followed from
 row to row is shared by `leaf_of` (ml/ejo_ml/export.py) and the portal's
 `leafOf` (apps/portal/lib/enyo/ml/runtime-core.ts).
 */
module TableWalks {
  import opened FlatTrees

  datatype Outcome = AtLeaf(leaf: nat) | NoSuchRow | StillGoing

  function Child<S>(n: Node<S>, goLeft: S -> bool): int {
    if goLeft(n.rule) then n.l else n.r
  }

  /** Where the walk from `ref` stands after so many rows. */
  function Walk<S>(nodes: seq<Node<S>>, goLeft: S -> bool, ref: int, rows: nat): Outcome
    decreases rows
  {
    if ref < 0 then AtLeaf(-ref - 1)
    else if ref >= |nodes| then NoSuchRow
    else if rows == 0 then StillGoing
    else Walk(nodes, goLeft, Child(nodes[ref], goLeft), rows - 1)
  }

  /** Evaluation starts at row 0; a table without rows is leaf 0. */
  function Root<S>(nodes: seq<Node<S>>): int {
    if nodes == [] then -1 else 0
  }

  ghost predicate Ends<S>(nodes: seq<Node<S>>, goLeft: S -> bool) {
    exists rows: nat :: Walk(nodes, goLeft, Root(nodes), rows) != StillGoing
  }

  lemma {:induction false} WalkStays<S>(nodes: seq<Node<S>>, goLeft: S -> bool, ref: int, rows: nat, more: nat)
    requires rows <= more && Walk(nodes, goLeft, ref, rows) != StillGoing
    ensures Walk(nodes, goLeft, ref, more) == Walk(nodes, goLeft, ref, rows)
    decreases rows
  {
    if 0 <= ref < |nodes| {
      WalkStays(nodes, goLeft, Child(nodes[ref], goLeft), rows - 1, more - 1);
    }
  }

  lemma {:induction false} RowsCounted(seen: set<int>, count: nat)
    requires forall i :: i in seen ==> 0 <= i < count
    ensures |seen| <= count
  {
    if count > 0 {
      RowsCounted(seen - {count - 1}, count - 1);
    } else {
      assert forall i :: i !in seen;
      assert seen == {};
    }
  }

  /**
   Rows from which the walk is longer than what is left of it cannot come again: a walk that ends has room for them
   all.
   */
  lemma {:induction false} NoRowTwice<S>(nodes: seq<Node<S>>, goLeft: S -> bool, ref: int, rows: nat, seen: set<int>)
    requires Walk(nodes, goLeft, ref, rows) != StillGoing
    requires rows > 0 ==> Walk(nodes, goLeft, ref, rows - 1) == StillGoing
    requires forall i :: i in seen ==> 0 <= i < |nodes| && Walk(nodes, goLeft, i, rows) == StillGoing
    ensures rows + |seen| <= |nodes|
    decreases rows
  {
    if rows == 0 {
      RowsCounted(seen, |nodes|);
    } else {
      forall i | i in seen + {ref} ensures Walk(nodes, goLeft, i, rows - 1) == StillGoing {
        if Walk(nodes, goLeft, i, rows - 1) != StillGoing {
          WalkStays(nodes, goLeft, i, rows - 1, rows);
        }
      }
      NoRowTwice(nodes, goLeft, Child(nodes[ref], goLeft), rows - 1, seen + {ref});
    }
  }

  /** A walk that ends at all does so within as many rows as the table has. */
  lemma {:induction false} EndsWithinRows<S>(nodes: seq<Node<S>>, goLeft: S -> bool, ref: int, rows: nat)
    requires Walk(nodes, goLeft, ref, rows) != StillGoing
    ensures Walk(nodes, goLeft, ref, |nodes|) == Walk(nodes, goLeft, ref, rows)
    decreases rows
  {
    if rows > 0 && Walk(nodes, goLeft, ref, rows - 1) != StillGoing {
      EndsWithinRows(nodes, goLeft, ref, rows - 1);
      WalkStays(nodes, goLeft, ref, rows - 1, rows);
    } else {
      NoRowTwice(nodes, goLeft, ref, rows, {});
      WalkStays(nodes, goLeft, ref, rows, |nodes|);
    }
  }

  /** So the outcome after that many rows is the outcome, or the walk never ends. */
  lemma {:induction false} EndsOrNever<S>(nodes: seq<Node<S>>, goLeft: S -> bool)
    ensures Ends(nodes, goLeft) <==> Walk(nodes, goLeft, Root(nodes), |nodes|) != StillGoing
  {
    forall rows: nat | Walk(nodes, goLeft, Root(nodes), rows) != StillGoing
      ensures Walk(nodes, goLeft, Root(nodes), |nodes|) != StillGoing
    {
      EndsWithinRows(nodes, goLeft, Root(nodes), rows);
    }
  }

  /** On a forward table the walk ends at the leaf of the tree the table stands for. */
  lemma {:induction false} ForwardWalk<S>(nodes: seq<Node<S>>, goLeft: S -> bool, ref: int, rows: nat)
    requires Forward(nodes) && ref < |nodes| && (ref < 0 || |nodes| - ref <= rows)
    ensures Walk(nodes, goLeft, ref, rows) == AtLeaf(LeafNumber(Decode(nodes, ref), goLeft))
    decreases rows
  {
    if ref >= 0 {
      DecodeSplit(nodes, ref);
      var n := nodes[ref];
      assert PointsAhead(nodes, ref, n.l) && PointsAhead(nodes, ref, n.r);
      ForwardWalk(nodes, goLeft, Child(n, goLeft), rows - 1);
    }
  }
}
