/**
 * The paths `getPath` returns follow relationships of the graph.
 *
 * The predecessor matrix is only ever written with the near endpoint of a
 * relationship (when the relationships are put in) or with a copy of another
 * cell of the same column (during relaxation).  So a predecessor `p` recorded
 * for column `j`, in any row, always names a relationship from node `p` to
 * node `j` in a direction the engine follows, and every step of a walk back
 * along a row is such a relationship.
 */
module EnginePaths {
  import opened Wrappers
  import opened Matrices
  import opened FloydWarshallEngine

  /** `r` leads from `a` to `b` in a direction that `d` makes the engine follow. */
  predicate Joins<V(==)>(d: Direction, r: Relationship<V>, a: V, b: V) {
    || (WritesOutgoing(d) && r.startNode == a && r.endNode == b)
    || (WritesIncoming(d) && r.endNode == a && r.startNode == b)
  }

  /** Some relationship of `rels` leads from `a` to `b`. */
  ghost predicate Linked<V>(d: Direction, rels: seq<Relationship<V>>, a: V, b: V) {
    exists q :: 0 <= q < |rels| && Joins(d, rels[q], a, b)
  }

  /** Every predecessor `p` recorded in `row` for vertex `x` is linked to `x`. */
  ghost predicate RowLinked<V>(row: seq<Option<nat>>, nodes: seq<V>, d: Direction, rels: seq<Relationship<V>>)
    requires |row| == |nodes| && RowBounded(row, |nodes|)
  {
    forall x {:trigger row[x]} :: 0 <= x < |row| && row[x].Some? ==> Linked(d, rels, nodes[row[x].value], nodes[x])
  }

  /** Every row of the predecessor matrix is linked. */
  ghost predicate PredLinked<V, C>(t: Tables<C>, nodes: seq<V>, d: Direction, rels: seq<Relationship<V>>)
    requires Shaped(t, |nodes|)
  {
    forall i, j {:trigger t.pred[i][j]} :: 0 <= i < |nodes| && 0 <= j < |nodes| && t.pred[i][j].Some? ==>
      Linked(d, rels, nodes[t.pred[i][j].value], nodes[j])
  }

  // ---------------------------------------------------------------------
  // The predecessor matrix stays linked
  // ---------------------------------------------------------------------

  /**
   * Writing a relationship of `rels` records its near endpoint as the
   * predecessor of its far endpoint, which it links.
   */
  lemma PutRelationshipLinked<V, C>(cm: CostModel<V, C>, nodes: seq<V>, t: Tables<C>, r: Relationship<V>, rels: seq<Relationship<V>>)
    requires Shaped(t, |nodes|) && r in rels
    requires PredLinked(t, nodes, cm.relationDirection, rels)
    ensures PredLinked(PutRelationship(cm, IndexNodes(nodes), t, r), nodes, cm.relationDirection, rels)
  {
    var index, d, n := IndexNodes(nodes), cm.relationDirection, |nodes|;
    PutRelationshipWrites(cm, index, t, r);
    if r.startNode in index && r.endNode in index {
      IndexNodesPositions(nodes);
      var t', i1, i2 := PutRelationship(cm, index, t, r), index[r.startNode], index[r.endNode];
      assert nodes[i1] == r.startNode && nodes[i2] == r.endNode;
      forall a, b | 0 <= a < n && 0 <= b < n && t'.pred[a][b].Some?
        ensures Linked(d, rels, nodes[t'.pred[a][b].value], nodes[b])
      {
        if WritesIncoming(d) && a == i2 && b == i1 {
          assert Joins(d, r, nodes[i2], nodes[i1]);
        } else if WritesOutgoing(d) && a == i1 && b == i2 {
          assert Joins(d, r, nodes[i1], nodes[i2]);
        }
      }
    }
  }

  /** Writing relationships drawn from `rels` keeps the predecessors linked. */
  lemma {:induction false} PutRelationshipsLinked<V, C>(cm: CostModel<V, C>, nodes: seq<V>, t: Tables<C>, rs: seq<Relationship<V>>, rels: seq<Relationship<V>>)
    requires Shaped(t, |nodes|) && forall r :: r in rs ==> r in rels
    requires PredLinked(t, nodes, cm.relationDirection, rels)
    ensures PredLinked(PutRelationships(cm, IndexNodes(nodes), t, rs), nodes, cm.relationDirection, rels)
    decreases |rs|
  {
    if rs != [] {
      var front := rs[..|rs| - 1];
      assert forall r :: r in front ==> r in rs;
      PutRelationshipsLinked(cm, nodes, t, front, rels);
      PutRelationshipLinked(cm, nodes, PutRelationships(cm, IndexNodes(nodes), t, front), rs[|rs| - 1], rels);
    }
  }

  /** A relaxation step copies a predecessor within its column, so it stays linked. */
  lemma RelaxCellLinked<V, C>(cm: CostModel<V, C>, nodes: seq<V>, t: Tables<C>, v: nat, i: nat, j: nat, rels: seq<Relationship<V>>)
    requires Shaped(t, |nodes|) && v < |nodes| && i < |nodes| && j < |nodes|
    requires PredLinked(t, nodes, cm.relationDirection, rels)
    ensures PredLinked(RelaxCell(cm, t, v, i, j), nodes, cm.relationDirection, rels)
  {
    RelaxCellImproves(cm, t, v, i, j);
  }

  lemma {:induction false} RowLinkedKept<V, C>(cm: CostModel<V, C>, nodes: seq<V>, t: Tables<C>, v: nat, i: nat, j: nat, rels: seq<Relationship<V>>)
    requires Shaped(t, |nodes|) && v < |nodes| && i < |nodes| && j <= |nodes|
    requires PredLinked(t, nodes, cm.relationDirection, rels)
    ensures PredLinked(RelaxRow(cm, t, v, i, j), nodes, cm.relationDirection, rels)
  {
    if j > 0 {
      var mid := RelaxRow(cm, t, v, i, j - 1);
      RowLinkedKept(cm, nodes, t, v, i, j - 1, rels);
      RelaxCellLinked(cm, nodes, mid, v, i, j - 1, rels);
      assert RelaxRow(cm, t, v, i, j) == RelaxCell(cm, mid, v, i, j - 1);
    }
  }

  lemma {:induction false} PivotLinkedKept<V, C>(cm: CostModel<V, C>, nodes: seq<V>, t: Tables<C>, v: nat, i: nat, rels: seq<Relationship<V>>)
    requires Shaped(t, |nodes|) && v < |nodes| && i <= |nodes|
    requires PredLinked(t, nodes, cm.relationDirection, rels)
    ensures PredLinked(RelaxPivot(cm, t, v, i), nodes, cm.relationDirection, rels)
  {
    if i > 0 {
      var mid := RelaxPivot(cm, t, v, i - 1);
      PivotLinkedKept(cm, nodes, t, v, i - 1, rels);
      RowLinkedKept(cm, nodes, mid, v, i - 1, |nodes|, rels);
      assert RelaxPivot(cm, t, v, i) == RelaxRow(cm, mid, v, i - 1, |nodes|);
    }
  }

  lemma {:induction false} RelaxationLinkedKept<V, C>(cm: CostModel<V, C>, nodes: seq<V>, t: Tables<C>, v: nat, rels: seq<Relationship<V>>)
    requires Shaped(t, |nodes|) && v <= |nodes|
    requires PredLinked(t, nodes, cm.relationDirection, rels)
    ensures PredLinked(RelaxPivots(cm, t, v), nodes, cm.relationDirection, rels)
  {
    if v > 0 {
      var mid := RelaxPivots(cm, t, v - 1);
      RelaxationLinkedKept(cm, nodes, t, v - 1, rels);
      PivotLinkedKept(cm, nodes, mid, v - 1, |nodes|, rels);
      assert RelaxPivots(cm, t, v) == RelaxPivot(cm, mid, v - 1, |nodes|);
    }
  }

  /** After `calculate`, every recorded predecessor is linked to its column's node. */
  lemma CalculatedLinked<V, C>(cm: CostModel<V, C>, nodes: seq<V>, rels: seq<Relationship<V>>)
    ensures PredLinked(Calculated(cm, nodes, rels), nodes, cm.relationDirection, rels)
  {
    var t0 := InitialTables(cm, |nodes|);
    assert PredLinked(t0, nodes, cm.relationDirection, rels);  // no predecessor is recorded yet
    PutRelationshipsLinked(cm, nodes, t0, rels, rels);
    RelaxationLinkedKept(cm, nodes, PutRelationships(cm, IndexNodes(nodes), t0, rels), |nodes|, rels);
  }

  // ---------------------------------------------------------------------
  // Walking back along a linked row
  // ---------------------------------------------------------------------

  /** Each step of a walk back along a linked row follows a relationship. */
  lemma {:induction false} WalkFollowsRelationships<V>(row: seq<Option<nat>>, nodes: seq<V>, start: V, index: nat, fuel: nat, d: Direction, rels: seq<Relationship<V>>)
    requires |row| == |nodes| && index < |nodes| && RowBounded(row, |nodes|)
    requires RowLinked(row, nodes, d, rels)
    ensures var r := WalkBack(row, nodes, start, index, fuel);
      r.Success? ==> forall t :: 0 <= t < |r.value| - 1 ==> Linked(d, rels, r.value[t], r.value[t + 1])
    decreases fuel
  {
    if nodes[index] != start && fuel > 0 && row[index].Some? {
      var p := row[index].value;
      WalkFollowsRelationships(row, nodes, start, p, fuel - 1, d, rels);
      var w := WalkBack(row, nodes, start, p, fuel - 1);
      if w.Success? {
        var path := w.value + [nodes[index]];
        assert WalkBack(row, nodes, start, index, fuel) == Success(path);
        forall t | 0 <= t < |path| - 1
          ensures Linked(d, rels, path[t], path[t + 1])
        {
          if t < |w.value| - 1 {
            assert path[t] == w.value[t] && path[t + 1] == w.value[t + 1];
          } else {
            assert path[t] == nodes[p] && path[t + 1] == nodes[index];
          }
        }
      }
    }
  }

  /**
   * Every two neighbouring nodes of a path `getPath` returns are joined by a
   * relationship of the relationship set, in a direction the engine follows.
   */
  lemma PathFollowsRelationships<V, C>(cm: CostModel<V, C>, nodes: seq<V>, rels: seq<Relationship<V>>, startNode: V, targetNode: V)
    ensures var r := PathBetween(cm, nodes, rels, startNode, targetNode);
      r.Success? ==> forall t :: 0 <= t < |r.value| - 1 ==> Linked(cm.relationDirection, rels, r.value[t], r.value[t + 1])
  {
    var index := IndexNodes(nodes);
    if startNode in index && targetNode in index {
      var t := Calculated(cm, nodes, rels);
      var row := t.pred[index[startNode]];
      CalculatedLinked(cm, nodes, rels);
      assert RowLinked(row, nodes, cm.relationDirection, rels);
      WalkFollowsRelationships(row, nodes, startNode, index[targetNode], |nodes|, cm.relationDirection, rels);
    }
  }
}
