/**
 * The costs `calculate` leaves behind are shortest.
 *
 * The engine itself knows nothing about its cost type: the cost model's
 * comparator, accumulator and evaluator are arbitrary.  The classical
 * argument for Floyd-Warshall needs four laws of them, and this module
 * states those laws and proves, under them, that the final cost matrix
 * satisfies the triangle inequality through every vertex.  It follows that no
 * walk over the relationships' own costs is better than the cost `getCost`
 * reports.  The laws:
 *   - `compare(a, b)` and `compare(b, a)` have opposite signs, and "no worse
 *     than" is transitive (a total preorder);
 *   - the accumulator is associative and monotone in both arguments;
 *   - no cost the engine starts from is "negative": accumulating it onto a
 *     cost, on either side, never makes that cost better.
 */
module EngineCosts {
  import opened Matrices
  import opened FloydWarshallEngine

  // ---------------------------------------------------------------------
  // Laws of a cost model
  // ---------------------------------------------------------------------

  /** `a` is no worse than `b`: the comparator does not rank `a` as worse. */
  ghost predicate Le<V, C>(cm: CostModel<V, C>, a: C, b: C) {
    cm.costComparator(a, b) <= 0
  }

  /** The comparator is a total preorder. */
  ghost predicate OrderLaws<V, C(!new)>(cm: CostModel<V, C>) {
    && (forall a, b :: cm.costComparator(a, b) > 0 <==> cm.costComparator(b, a) < 0)
    && (forall a, b, c :: Le(cm, a, b) && Le(cm, b, c) ==> Le(cm, a, c))
  }

  /** The accumulator is associative and monotone in both arguments. */
  ghost predicate AccumulatorLaws<V, C(!new)>(cm: CostModel<V, C>) {
    && (forall a, b, c {:trigger cm.costAccumulator(cm.costAccumulator(a, b), c)} ::
          cm.costAccumulator(cm.costAccumulator(a, b), c) == cm.costAccumulator(a, cm.costAccumulator(b, c)))
    && (forall a, a', b {:trigger cm.costAccumulator(a, b), cm.costAccumulator(a', b)} ::
          Le(cm, a, a') ==> Le(cm, cm.costAccumulator(a, b), cm.costAccumulator(a', b)))
    && (forall a, b, b' {:trigger cm.costAccumulator(a, b), cm.costAccumulator(a, b')} ::
          Le(cm, b, b') ==> Le(cm, cm.costAccumulator(a, b), cm.costAccumulator(a, b')))
  }

  /** Accumulating `a` onto any cost, on either side, never makes that cost better. */
  ghost predicate NonNegative<V, C(!new)>(cm: CostModel<V, C>, a: C) {
    forall x :: Le(cm, x, cm.costAccumulator(x, a)) && Le(cm, x, cm.costAccumulator(a, x))
  }

  /** Every cell of the n-by-n matrix `c` is non-negative. */
  ghost predicate AllNonNegative<V, C(!new)>(cm: CostModel<V, C>, c: Matrix<C>, n: nat)
    requires IsSquare(c, n)
  {
    forall a, b {:trigger c[a][b]} :: 0 <= a < n && 0 <= b < n ==> NonNegative(cm, c[a][b])
  }

  /**
   * The laws under which the costs are shortest: a total preorder, an
   * associative monotone accumulator, and non-negative start, "infinitely
   * bad" and relationship costs.
   */
  ghost predicate ShortestPathLaws<V, C(!new)>(cm: CostModel<V, C>, rels: seq<Relationship<V>>) {
    && OrderLaws(cm)
    && AccumulatorLaws(cm)
    && NonNegative(cm, cm.startCost)
    && NonNegative(cm, cm.infinitelyBad)
    && forall q :: 0 <= q < |rels| ==>
         NonNegative(cm, cm.costEvaluator(rels[q], Outgoing)) && NonNegative(cm, cm.costEvaluator(rels[q], Incoming))
  }

  /** A total preorder is strictly transitive in the sense `RelaxationNeverWorsens` needs. */
  lemma OrderLawsTransitive<V, C(!new)>(cm: CostModel<V, C>)
    requires OrderLaws(cm)
    ensures ComparatorTransitive(cm)
  {
    forall a, b, c | cm.costComparator(a, b) > 0 && cm.costComparator(b, c) > 0
      ensures cm.costComparator(a, c) > 0
    {
      assert Le(cm, c, b);
      if Le(cm, a, c) {
        assert false;
      }
    }
  }

  lemma NoWorseIsLe<V, C(!new)>(cm: CostModel<V, C>, a: C, b: C)
    requires OrderLaws(cm) && NoWorse(cm, a, b)
    ensures Le(cm, a, b)
  {
    if a != b {
      assert cm.costComparator(b, a) > 0;
    }
  }

  /** Accumulating two non-negative costs gives a non-negative cost. */
  lemma NonNegativeAccumulate<V, C(!new)>(cm: CostModel<V, C>, a: C, b: C)
    requires OrderLaws(cm) && AccumulatorLaws(cm) && NonNegative(cm, a) && NonNegative(cm, b)
    ensures NonNegative(cm, cm.costAccumulator(a, b))
  {
    var acc := cm.costAccumulator;
    forall x
      ensures Le(cm, x, acc(x, acc(a, b))) && Le(cm, x, acc(acc(a, b), x))
    {
      assert acc(acc(x, a), b) == acc(x, acc(a, b));
      assert Le(cm, x, acc(x, a)) && Le(cm, acc(x, a), acc(acc(x, a), b));
      assert acc(acc(a, b), x) == acc(a, acc(b, x));
      assert Le(cm, x, acc(b, x)) && Le(cm, acc(b, x), acc(a, acc(b, x)));
    }
  }

  // ---------------------------------------------------------------------
  // Every cost stays non-negative
  // ---------------------------------------------------------------------

  /** The cost matrix once the relationships have been written, before relaxation. */
  function DirectCosts<V(==), C>(cm: CostModel<V, C>, nodes: seq<V>, rels: seq<Relationship<V>>): (c: Matrix<C>)
    ensures IsSquare(c, |nodes|)
  {
    PutRelationships(cm, IndexNodes(nodes), InitialTables(cm, |nodes|), rels).cost
  }

  lemma {:induction false} PutRelationshipsNonNegative<V, C(!new)>(cm: CostModel<V, C>, index: map<V, nat>, t: Tables<C>, rs: seq<Relationship<V>>)
    requires Shaped(t, |t.cost|) && IndexBounded(index, |t.cost|) && AllNonNegative(cm, t.cost, |t.cost|)
    requires forall q :: 0 <= q < |rs| ==>
               NonNegative(cm, cm.costEvaluator(rs[q], Outgoing)) && NonNegative(cm, cm.costEvaluator(rs[q], Incoming))
    ensures AllNonNegative(cm, PutRelationships(cm, index, t, rs).cost, |t.cost|)
    decreases |rs|
  {
    if rs != [] {
      var front, last := rs[..|rs| - 1], rs[|rs| - 1];
      PutRelationshipsNonNegative(cm, index, t, front);
      PutRelationshipWrites(cm, index, PutRelationships(cm, index, t, front), last);
    }
  }

  /** Every cell of the n-by-n matrix `c` satisfies `p`. */
  ghost predicate AllCells<C>(p: C -> bool, c: Matrix<C>, n: nat)
    requires IsSquare(c, n)
  {
    forall a, b {:trigger c[a][b]} :: 0 <= a < n && 0 <= b < n ==> p(c[a][b])
  }

  /** `p` holds of the accumulation of any two costs it holds of. */
  ghost predicate Closed<V, C(!new)>(cm: CostModel<V, C>, p: C -> bool) {
    forall a, b {:trigger cm.costAccumulator(a, b)} :: p(a) && p(b) ==> p(cm.costAccumulator(a, b))
  }

  /** Non-negativity as a property of costs. */
  ghost function IsNonNegative<V, C(!new)>(cm: CostModel<V, C>): C -> bool {
    x => NonNegative(cm, x)
  }

  lemma LawsCloseNonNegative<V, C(!new)>(cm: CostModel<V, C>)
    requires OrderLaws(cm) && AccumulatorLaws(cm)
    ensures Closed(cm, IsNonNegative(cm))
  {
    forall a, b | NonNegative(cm, a) && NonNegative(cm, b)
      ensures NonNegative(cm, cm.costAccumulator(a, b))
    {
      NonNegativeAccumulate(cm, a, b);
    }
  }

  /** A relaxation step writes the accumulation of two cells, so it keeps a closed property. */
  lemma RelaxCellKeeps<V, C(!new)>(cm: CostModel<V, C>, p: C -> bool, t: Tables<C>, v: nat, i: nat, j: nat)
    requires Closed(cm, p)
    requires Shaped(t, |t.cost|) && v < |t.cost| && i < |t.cost| && j < |t.cost| && AllCells(p, t.cost, |t.cost|)
    ensures AllCells(p, RelaxCell(cm, t, v, i, j).cost, |t.cost|)
  {
    RelaxCellImproves(cm, t, v, i, j);
  }

  lemma {:induction false} RowKeeps<V, C(!new)>(cm: CostModel<V, C>, p: C -> bool, t: Tables<C>, v: nat, i: nat, j: nat)
    requires Closed(cm, p)
    requires Shaped(t, |t.cost|) && v < |t.cost| && i < |t.cost| && j <= |t.cost| && AllCells(p, t.cost, |t.cost|)
    ensures AllCells(p, RelaxRow(cm, t, v, i, j).cost, |t.cost|)
  {
    if j > 0 {
      var mid := RelaxRow(cm, t, v, i, j - 1);
      RowKeeps(cm, p, t, v, i, j - 1);
      RelaxCellKeeps(cm, p, mid, v, i, j - 1);
      assert RelaxRow(cm, t, v, i, j) == RelaxCell(cm, mid, v, i, j - 1);
    }
  }

  lemma {:induction false} PivotKeeps<V, C(!new)>(cm: CostModel<V, C>, p: C -> bool, t: Tables<C>, v: nat, i: nat)
    requires Closed(cm, p)
    requires Shaped(t, |t.cost|) && v < |t.cost| && i <= |t.cost| && AllCells(p, t.cost, |t.cost|)
    ensures AllCells(p, RelaxPivot(cm, t, v, i).cost, |t.cost|)
  {
    if i > 0 {
      var mid := RelaxPivot(cm, t, v, i - 1);
      PivotKeeps(cm, p, t, v, i - 1);
      RowKeeps(cm, p, mid, v, i - 1, |t.cost|);
      assert RelaxPivot(cm, t, v, i) == RelaxRow(cm, mid, v, i - 1, |t.cost|);
    }
  }

  /** Relaxation keeps every property of costs that accumulation preserves. */
  lemma {:induction false} RelaxationKeeps<V, C(!new)>(cm: CostModel<V, C>, p: C -> bool, t: Tables<C>, v: nat)
    requires Closed(cm, p)
    requires Shaped(t, |t.cost|) && v <= |t.cost| && AllCells(p, t.cost, |t.cost|)
    ensures AllCells(p, RelaxPivots(cm, t, v).cost, |t.cost|)
  {
    if v > 0 {
      var mid := RelaxPivots(cm, t, v - 1);
      RelaxationKeeps(cm, p, t, v - 1);
      PivotKeeps(cm, p, mid, v - 1, |t.cost|);
      assert RelaxPivots(cm, t, v) == RelaxPivot(cm, mid, v - 1, |t.cost|);
    }
  }

  // ---------------------------------------------------------------------
  // One pivot, all cells at once
  // ---------------------------------------------------------------------

  /** Going through pivot v is strictly better than cell (i, j) of `c`. */
  ghost predicate Improves<V, C>(cm: CostModel<V, C>, c: Matrix<C>, v: nat, i: nat, j: nat)
    requires IsSquare(c, |c|) && v < |c| && i < |c| && j < |c|
  {
    cm.costComparator(c[i][j], cm.costAccumulator(c[i][v], c[v][j])) > 0
  }

  /** Cell (i, j) after pivot v, computed from the costs before it. */
  ghost function PhaseCost<V, C>(cm: CostModel<V, C>, c: Matrix<C>, v: nat, i: nat, j: nat): C
    requires IsSquare(c, |c|) && v < |c| && i < |c| && j < |c|
  {
    if Improves(cm, c, v, i, j) then cm.costAccumulator(c[i][v], c[v][j]) else c[i][j]
  }

  /** Pivot v applied to every cell of `c` from the costs before it. */
  ghost function Phase<V, C>(cm: CostModel<V, C>, c: Matrix<C>, v: nat): (p: Matrix<C>)
    requires IsSquare(c, |c|) && v < |c|
    ensures IsSquare(p, |c|)
  {
    var n := |c|;
    seq(n, (i: int) requires 0 <= i < n => seq(n, (j: int) requires 0 <= j < n => PhaseCost(cm, c, v, i, j)))
  }

  /** Rows before i, and the cells of row i before column j, are done; the rest are as in c0. */
  ghost predicate Mixed<V, C>(cm: CostModel<V, C>, c0: Matrix<C>, c: Matrix<C>, v: nat, i: nat, j: nat)
    requires IsSquare(c0, |c0|) && IsSquare(c, |c0|) && v < |c0|
  {
    forall a, b {:trigger c[a][b]} :: 0 <= a < |c0| && 0 <= b < |c0| ==>
      c[a][b] == if a < i || (a == i && b < j) then PhaseCost(cm, c0, v, a, b) else c0[a][b]
  }

  lemma {:induction false} RowMixed<V, C(!new)>(cm: CostModel<V, C>, t0: Tables<C>, t: Tables<C>, v: nat, i: nat, j: nat)
    requires Shaped(t0, |t0.cost|) && Shaped(t, |t0.cost|) && v < |t0.cost| && i < |t0.cost| && j <= |t0.cost|
    requires NonNegative(cm, t0.cost[v][v]) && Mixed(cm, t0.cost, t.cost, v, i, 0)
    ensures Mixed(cm, t0.cost, RelaxRow(cm, t, v, i, j).cost, v, i, j)
  {
    if j > 0 {
      var c0, c := t0.cost, j - 1;
      RowMixed(cm, t0, t, v, i, c);
      var s := RelaxRow(cm, t, v, i, c);
      assert RelaxRow(cm, t, v, i, j) == RelaxCell(cm, s, v, i, c);
      assert s.cost[i][v] == c0[i][v] by {
        if v < c {
          assert Le(cm, c0[i][v], cm.costAccumulator(c0[i][v], c0[v][v]));
        }
      }
      assert s.cost[v][c] == c0[v][c] by {
        if v < i {
          assert Le(cm, c0[v][c], cm.costAccumulator(c0[v][v], c0[v][c]));
        }
      }
      assert s.cost[i][c] == c0[i][c];
      RelaxCellImproves(cm, s, v, i, c);
    }
  }

  lemma {:induction false} PivotMixed<V, C(!new)>(cm: CostModel<V, C>, t0: Tables<C>, v: nat, i: nat)
    requires Shaped(t0, |t0.cost|) && v < |t0.cost| && i <= |t0.cost| && NonNegative(cm, t0.cost[v][v])
    ensures Mixed(cm, t0.cost, RelaxPivot(cm, t0, v, i).cost, v, i, 0)
  {
    if i > 0 {
      var s := RelaxPivot(cm, t0, v, i - 1);
      assert RelaxPivot(cm, t0, v, i) == RelaxRow(cm, s, v, i - 1, |t0.cost|);
      PivotMixed(cm, t0, v, i - 1);
      RowMixed(cm, t0, s, v, i - 1, |t0.cost|);
    }
  }

  /**
   * While the pivot's diagonal cost is non-negative, relaxing in place row
   * by row gives the same costs as relaxing every cell from the costs before
   * the pivot: the pivot's row and column do not change.
   */
  lemma PivotIsPhase<V, C(!new)>(cm: CostModel<V, C>, t: Tables<C>, v: nat)
    requires Shaped(t, |t.cost|) && v < |t.cost| && NonNegative(cm, t.cost[v][v])
    ensures RelaxPivot(cm, t, v, |t.cost|).cost == Phase(cm, t.cost, v)
  {
    var n := |t.cost|;
    PivotMixed(cm, t, v, n);
    SameMatrix(RelaxPivot(cm, t, v, n).cost, Phase(cm, t.cost, v), n);
  }

  // ---------------------------------------------------------------------
  // The triangle inequality
  // ---------------------------------------------------------------------

  /** Going through any of the pivots 0 .. m - 1 is never better than the cell itself. */
  ghost predicate TriangleThrough<V, C>(cm: CostModel<V, C>, c: Matrix<C>, m: nat)
    requires IsSquare(c, |c|)
  {
    forall i, j, k {:trigger c[i][j], c[i][k], c[k][j]} :: 0 <= i < |c| && 0 <= j < |c| && 0 <= k < m && k < |c| ==>
      Le(cm, c[i][j], cm.costAccumulator(c[i][k], c[k][j]))
  }

  /** A cell after the pivot is no worse than before it, and no worse than the way through the pivot. */
  lemma PhaseCostBounds<V, C(!new)>(cm: CostModel<V, C>, c: Matrix<C>, k: nat, i: nat, j: nat)
    requires OrderLaws(cm) && IsSquare(c, |c|) && k < |c| && i < |c| && j < |c|
    ensures Le(cm, PhaseCost(cm, c, k, i, j), c[i][j])
    ensures Le(cm, PhaseCost(cm, c, k, i, j), cm.costAccumulator(c[i][k], c[k][j]))
  {
    var p, alternative := PhaseCost(cm, c, k, i, j), cm.costAccumulator(c[i][k], c[k][j]);
    if Improves(cm, c, k, i, j) {
      assert cm.costComparator(alternative, c[i][j]) < 0;
      assert !(cm.costComparator(alternative, alternative) > 0);
    } else {
      assert !(cm.costComparator(c[i][j], c[i][j]) > 0);
    }
  }

  /** The triangle through pivot m for one cell of the phase of pivot k. */
  lemma PhaseTriangleCell<V, C(!new)>(cm: CostModel<V, C>, c: Matrix<C>, k: nat, i: nat, j: nat, m: nat)
    requires OrderLaws(cm) && AccumulatorLaws(cm)
    requires IsSquare(c, |c|) && k < |c| && i < |c| && j < |c| && m <= k
    requires AllNonNegative(cm, c, |c|) && TriangleThrough(cm, c, k)
    ensures var p := Phase(cm, c, k);
      Le(cm, p[i][j], cm.costAccumulator(p[i][m], p[m][j]))
  {
    var p, acc := Phase(cm, c, k), cm.costAccumulator;
    assert p[i][m] == PhaseCost(cm, c, k, i, m) && p[m][j] == PhaseCost(cm, c, k, m, j) && p[i][j] == PhaseCost(cm, c, k, i, j);
    PhaseCostBounds(cm, c, k, i, j);
    var through := acc(c[i][k], c[k][j]);
    if m == k {
      assert Le(cm, c[i][k], acc(c[i][k], c[k][k])) && Le(cm, c[k][j], acc(c[k][k], c[k][j]));
    } else if Improves(cm, c, k, i, m) && Improves(cm, c, k, m, j) {
      var cycle, rest := acc(c[k][m], c[m][k]), acc(c[m][k], c[k][j]);
      NonNegativeAccumulate(cm, c[k][m], c[m][k]);
      assert acc(acc(c[i][k], c[k][m]), rest) == acc(c[i][k], acc(c[k][m], rest));
      assert acc(cycle, c[k][j]) == acc(c[k][m], rest);
      assert Le(cm, c[k][j], acc(cycle, c[k][j]));
      assert Le(cm, through, acc(c[i][k], acc(cycle, c[k][j])));
    } else if Improves(cm, c, k, i, m) {
      assert acc(acc(c[i][k], c[k][m]), c[m][j]) == acc(c[i][k], acc(c[k][m], c[m][j]));
      assert Le(cm, c[k][j], acc(c[k][m], c[m][j]));
      assert Le(cm, through, acc(c[i][k], acc(c[k][m], c[m][j])));
    } else if Improves(cm, c, k, m, j) {
      assert acc(acc(c[i][m], c[m][k]), c[k][j]) == acc(c[i][m], acc(c[m][k], c[k][j]));
      assert Le(cm, c[i][k], acc(c[i][m], c[m][k]));
      assert Le(cm, through, acc(acc(c[i][m], c[m][k]), c[k][j]));
    } else {
      assert Le(cm, c[i][j], acc(c[i][m], c[m][j]));
    }
  }

  lemma PhaseTriangle<V, C(!new)>(cm: CostModel<V, C>, c: Matrix<C>, k: nat)
    requires OrderLaws(cm) && AccumulatorLaws(cm)
    requires IsSquare(c, |c|) && k < |c| && AllNonNegative(cm, c, |c|) && TriangleThrough(cm, c, k)
    ensures TriangleThrough(cm, Phase(cm, c, k), k + 1)
  {
    var p, n := Phase(cm, c, k), |c|;
    forall i, j, m | 0 <= i < n && 0 <= j < n && 0 <= m < k + 1
      ensures Le(cm, p[i][j], cm.costAccumulator(p[i][m], p[m][j]))
    {
      PhaseTriangleCell(cm, c, k, i, j, m);
    }
  }

  /** Relaxation keeps every cost non-negative. */
  lemma RelaxationNonNegative<V, C(!new)>(cm: CostModel<V, C>, t: Tables<C>, v: nat)
    requires OrderLaws(cm) && AccumulatorLaws(cm)
    requires Shaped(t, |t.cost|) && v <= |t.cost| && AllNonNegative(cm, t.cost, |t.cost|)
    ensures AllNonNegative(cm, RelaxPivots(cm, t, v).cost, |t.cost|)
  {
    LawsCloseNonNegative(cm);
    assert AllCells(IsNonNegative(cm), t.cost, |t.cost|);
    RelaxationKeeps(cm, IsNonNegative(cm), t, v);
    assert AllCells(IsNonNegative(cm), RelaxPivots(cm, t, v).cost, |t.cost|);
  }

  /** Pivot k, relaxed in place, extends the triangle inequality to pivot k. */
  lemma PivotTriangle<V, C(!new)>(cm: CostModel<V, C>, s: Tables<C>, k: nat)
    requires OrderLaws(cm) && AccumulatorLaws(cm)
    requires Shaped(s, |s.cost|) && k < |s.cost| && AllNonNegative(cm, s.cost, |s.cost|) && TriangleThrough(cm, s.cost, k)
    ensures TriangleThrough(cm, RelaxPivot(cm, s, k, |s.cost|).cost, k + 1)
  {
    PivotIsPhase(cm, s, k);
    PhaseTriangle(cm, s.cost, k);
  }

  lemma {:induction false} TriangleUpTo<V, C(!new)>(cm: CostModel<V, C>, t: Tables<C>, m: nat)
    requires OrderLaws(cm) && AccumulatorLaws(cm)
    requires Shaped(t, |t.cost|) && m <= |t.cost| && AllNonNegative(cm, t.cost, |t.cost|)
    ensures TriangleThrough(cm, RelaxPivots(cm, t, m).cost, m)
  {
    if m > 0 {
      var s, k, n := RelaxPivots(cm, t, m - 1), m - 1, |t.cost|;
      assert |s.cost| == n;
      var r := RelaxPivot(cm, s, k, |s.cost|);
      assert RelaxPivots(cm, t, m) == r;
      TriangleUpTo(cm, t, k);
      RelaxationNonNegative(cm, t, k);
      assert AllNonNegative(cm, s.cost, |s.cost|) && TriangleThrough(cm, s.cost, k);
      PivotTriangle(cm, s, k);
      assert TriangleThrough(cm, r.cost, m);
    }
  }

  /** Under the laws, the costs `calculate` leaves satisfy the triangle inequality through every vertex. */
  lemma CalculatedTriangle<V, C(!new)>(cm: CostModel<V, C>, nodes: seq<V>, rels: seq<Relationship<V>>)
    requires ShortestPathLaws(cm, rels)
    ensures TriangleThrough(cm, Calculated(cm, nodes, rels).cost, |nodes|)
  {
    var n, t0 := |nodes|, InitialTables(cm, |nodes|);
    assert AllNonNegative(cm, t0.cost, n);
    PutRelationshipsNonNegative(cm, IndexNodes(nodes), t0, rels);
    TriangleUpTo(cm, PutRelationships(cm, IndexNodes(nodes), t0, rels), n);
  }

  /**
   * `getCost(u, w)` is no worse than `getCost(u, v)` accumulated with
   * `getCost(v, w)`, for every three known nodes.
   */
  lemma CostTriangle<V, C(!new)>(cm: CostModel<V, C>, nodes: seq<V>, rels: seq<Relationship<V>>, u: V, v: V, w: V)
    requires ShortestPathLaws(cm, rels)
    ensures var uw, uv, vw := CostBetween(cm, nodes, rels, u, w), CostBetween(cm, nodes, rels, u, v), CostBetween(cm, nodes, rels, v, w);
      uw.Success? && uv.Success? && vw.Success? ==> Le(cm, uw.value, cm.costAccumulator(uv.value, vw.value))
  {
    var index, c := IndexNodes(nodes), Calculated(cm, nodes, rels).cost;
    if u in index && v in index && w in index {
      CalculatedTriangle(cm, nodes, rels);
      assert Le(cm, c[index[u]][index[w]], cm.costAccumulator(c[index[u]][index[v]], c[index[v]][index[w]]));
    }
  }

  // ---------------------------------------------------------------------
  // No walk is better
  // ---------------------------------------------------------------------

  /** Every entry of `p` is a vertex index of `c`. */
  ghost predicate Vertices<C>(c: Matrix<C>, p: seq<nat>) {
    forall t :: 0 <= t < |p| ==> p[t] < |c|
  }

  /** The accumulated cost of walking the vertices `p` through the cells of `c`. */
  function WalkCost<V, C>(cm: CostModel<V, C>, c: Matrix<C>, p: seq<nat>): C
    requires IsSquare(c, |c|) && |p| >= 2 && Vertices(c, p)
    decreases |p|
  {
    if |p| == 2 then c[p[0]][p[1]] else cm.costAccumulator(c[p[0]][p[1]], WalkCost(cm, c, p[1..]))
  }

  /** With the triangle inequality, a cell is no worse than any walk between its vertices. */
  lemma {:induction false} TriangleBoundsWalk<V, C(!new)>(cm: CostModel<V, C>, c: Matrix<C>, p: seq<nat>)
    requires OrderLaws(cm) && AccumulatorLaws(cm)
    requires IsSquare(c, |c|) && |p| >= 2 && Vertices(c, p) && TriangleThrough(cm, c, |c|)
    ensures Le(cm, c[p[0]][p[|p| - 1]], WalkCost(cm, c, p))
    decreases |p|
  {
    var acc, last := cm.costAccumulator, p[|p| - 1];
    if |p| == 2 {
      assert !(cm.costComparator(c[p[0]][p[1]], c[p[0]][p[1]]) > 0);
    } else {
      var rest := WalkCost(cm, c, p[1..]);
      TriangleBoundsWalk(cm, c, p[1..]);
      assert p[1..][0] == p[1] && p[1..][|p| - 2] == last;
      assert Le(cm, c[p[0]][last], acc(c[p[0]][p[1]], c[p[1]][last]));
      assert Le(cm, acc(c[p[0]][p[1]], c[p[1]][last]), acc(c[p[0]][p[1]], rest));
    }
  }

  /** A walk through cells that are each no worse costs no worse. */
  lemma {:induction false} WalkCostMonotone<V, C(!new)>(cm: CostModel<V, C>, c: Matrix<C>, c': Matrix<C>, p: seq<nat>)
    requires OrderLaws(cm) && AccumulatorLaws(cm)
    requires IsSquare(c, |c|) && IsSquare(c', |c|) && |p| >= 2 && Vertices(c, p)
    requires forall a, b :: 0 <= a < |c| && 0 <= b < |c| ==> Le(cm, c[a][b], c'[a][b])
    ensures Le(cm, WalkCost(cm, c, p), WalkCost(cm, c', p))
    decreases |p|
  {
    if |p| > 2 {
      var acc, x, x', w, w' := cm.costAccumulator, c[p[0]][p[1]], c'[p[0]][p[1]], WalkCost(cm, c, p[1..]), WalkCost(cm, c', p[1..]);
      WalkCostMonotone(cm, c, c', p[1..]);
      assert Le(cm, acc(x, w), acc(x', w)) && Le(cm, acc(x', w), acc(x', w'));
    }
  }

  /**
   * Under the laws, the cost `calculate` leaves for vertices i and j is no
   * worse than the accumulated direct cost of any walk from i to j: the
   * cost of each step is what the relationships wrote into the matrix.
   */
  lemma CalculatedIsShortest<V, C(!new)>(cm: CostModel<V, C>, nodes: seq<V>, rels: seq<Relationship<V>>, p: seq<nat>)
    requires ShortestPathLaws(cm, rels)
    requires |p| >= 2 && forall t :: 0 <= t < |p| ==> p[t] < |nodes|
    ensures var c := Calculated(cm, nodes, rels).cost;
      Le(cm, c[p[0]][p[|p| - 1]], WalkCost(cm, DirectCosts(cm, nodes, rels), p))
  {
    var n, t0 := |nodes|, InitialTables(cm, |nodes|);
    var direct, c := DirectCosts(cm, nodes, rels), Calculated(cm, nodes, rels).cost;
    CalculatedTriangle(cm, nodes, rels);
    TriangleBoundsWalk(cm, c, p);
    OrderLawsTransitive(cm);
    RelaxationNeverWorsens(cm, PutRelationships(cm, IndexNodes(nodes), t0, rels), n);
    forall a, b | 0 <= a < n && 0 <= b < n
      ensures Le(cm, c[a][b], direct[a][b])
    {
      NoWorseIsLe(cm, c[a][b], direct[a][b]);
    }
    WalkCostMonotone(cm, c, direct, p);
  }
}
