/**
 * The plain all-pairs shortest-path search of MinimaxFloydWarshall.java
 * (findAllPairsShortestPaths), as functions on value matrices.
 *
 * The k / i / j triple loop relaxes the distance matrix `ds` in place: cell
 * (i, j) takes the sum through pivot k when both legs have a path and the
 * sum is strictly smaller, and the next-vertex matrix `ns` records k.  The
 * folds below follow that order cell by cell; Phase says what one pivot does
 * to every cell at once, and PivotIsPhase shows that the in-place order
 * makes no difference while the diagonal stays non-negative.
 */
module ShortestPaths {
  import opened Wrappers
  import opened Matrices
  import opened AllPairsPaths

  /** The distance matrix `ds` and the next-vertex matrix `ns`. */
  datatype Tables = Tables(dist: Matrix<int>, next: Matrix<int>)

  ghost predicate Shaped(t: Tables) {
    Tabled(t.dist, t.next)
  }

  /** The matrices before relaxation. */
  function Initial(links: Links): (t: Tables)
    ensures Shaped(t) && |t.dist| == |links|
  {
    Tables(InitialWeights(links), InitialNext(|links|))
  }

  /** The test of the source for cell (i, j) and pivot k: both legs have a path and their sum is strictly shorter. */
  predicate Improves(d: Matrix<int>, k: nat, i: nat, j: nat)
    requires IsSquare(d, |d|) && k < |d| && i < |d| && j < |d|
  {
    d[i][k] != INF && d[k][j] != INF && d[i][k] + d[k][j] < d[i][j]
  }

  /** One relaxation step: cell (i, j) through pivot k. */
  function RelaxCell(t: Tables, k: nat, i: nat, j: nat): (r: Tables)
    requires Shaped(t) && k < |t.dist| && i < |t.dist| && j < |t.dist|
    ensures Shaped(r) && |r.dist| == |t.dist|
  {
    if Improves(t.dist, k, i, j)
    then Tables(t.dist[i := t.dist[i][j := t.dist[i][k] + t.dist[k][j]]], t.next[i := t.next[i][j := k]])
    else t
  }

  /** Cells (i, 0) .. (i, j - 1) relaxed through pivot k, in that order. */
  function RelaxRow(t: Tables, k: nat, i: nat, j: nat): (r: Tables)
    requires Shaped(t) && k < |t.dist| && i < |t.dist| && j <= |t.dist|
    ensures Shaped(r) && |r.dist| == |t.dist|
  {
    if j == 0 then t else RelaxCell(RelaxRow(t, k, i, j - 1), k, i, j - 1)
  }

  /** Rows 0 .. i - 1 relaxed through pivot k. */
  function RelaxPivot(t: Tables, k: nat, i: nat): (r: Tables)
    requires Shaped(t) && k < |t.dist| && i <= |t.dist|
    ensures Shaped(r) && |r.dist| == |t.dist|
  {
    if i == 0 then t else RelaxRow(RelaxPivot(t, k, i - 1), k, i - 1, |t.dist|)
  }

  /** Pivots 0 .. k - 1 applied in turn. */
  function RelaxPivots(t: Tables, k: nat): (r: Tables)
    requires Shaped(t) && k <= |t.dist|
    ensures Shaped(r) && |r.dist| == |t.dist|
  {
    if k == 0 then t else RelaxPivot(RelaxPivots(t, k - 1), k - 1, |t.dist|)
  }

  /** The matrices after the triple loop. */
  function Final(links: Links): (t: Tables)
    ensures Shaped(t) && |t.dist| == |links|
  {
    RelaxPivots(Initial(links), |links|)
  }

  /** What findAllPairsShortestPaths returns, or `None` when extracting some path never returns. */
  function AllPairsShortestPaths(links: Links): Option<Matrix<Option<seq<nat>>>> {
    var t := Final(links);
    Paths(t.dist, t.next)
  }

  // ---------------------------------------------------------------------
  // One relaxation step
  // ---------------------------------------------------------------------

  /**
   * A step changes cell (i, j) alone, and only when both legs have a path
   * and their sum is strictly shorter; it then holds that sum and next
   * vertex k.  Otherwise nothing changes.
   */
  lemma RelaxCellEffect(t: Tables, k: nat, i: nat, j: nat)
    requires Shaped(t) && k < |t.dist| && i < |t.dist| && j < |t.dist|
    ensures var r, n := RelaxCell(t, k, i, j), |t.dist|;
      && (forall a, b :: 0 <= a < n && 0 <= b < n && (a != i || b != j) ==>
            r.dist[a][b] == t.dist[a][b] && r.next[a][b] == t.next[a][b])
      && (r.dist[i][j] != t.dist[i][j] <==> t.dist[i][k] != INF && t.dist[k][j] != INF && t.dist[i][k] + t.dist[k][j] < t.dist[i][j])
      && (r.dist[i][j] != t.dist[i][j] ==> r.dist[i][j] == t.dist[i][k] + t.dist[k][j] && r.next[i][j] == k)
      && (r.dist[i][j] == t.dist[i][j] ==> r == t)
  {
  }

  /** `r` has no cell longer than the same cell of `t`. */
  ghost predicate NoLonger(r: Tables, t: Tables)
    requires Shaped(r) && Shaped(t) && |r.dist| == |t.dist|
  {
    forall a, b :: 0 <= a < |t.dist| && 0 <= b < |t.dist| ==> r.dist[a][b] <= t.dist[a][b]
  }

  lemma NoLongerTransitive(r: Tables, s: Tables, t: Tables)
    requires Shaped(r) && Shaped(s) && Shaped(t) && |r.dist| == |s.dist| == |t.dist|
    requires NoLonger(r, s) && NoLonger(s, t)
    ensures NoLonger(r, t)
  {
    forall a, b | 0 <= a < |t.dist| && 0 <= b < |t.dist|
      ensures r.dist[a][b] <= t.dist[a][b]
    {
      assert r.dist[a][b] <= s.dist[a][b] <= t.dist[a][b];
    }
  }

  lemma {:induction false} RowNeverLengthens(t: Tables, k: nat, i: nat, j: nat)
    requires Shaped(t) && k < |t.dist| && i < |t.dist| && j <= |t.dist|
    ensures NoLonger(RelaxRow(t, k, i, j), t)
  {
    if j > 0 {
      var mid := RelaxRow(t, k, i, j - 1);
      var r := RelaxCell(mid, k, i, j - 1);
      assert RelaxRow(t, k, i, j) == r;
      RowNeverLengthens(t, k, i, j - 1);
      RelaxCellEffect(mid, k, i, j - 1);
      NoLongerTransitive(r, mid, t);
    }
  }

  lemma {:induction false} PivotNeverLengthens(t: Tables, k: nat, i: nat)
    requires Shaped(t) && k < |t.dist| && i <= |t.dist|
    ensures NoLonger(RelaxPivot(t, k, i), t)
  {
    if i > 0 {
      var mid := RelaxPivot(t, k, i - 1);
      var r := RelaxRow(mid, k, i - 1, |t.dist|);
      assert RelaxPivot(t, k, i) == r;
      PivotNeverLengthens(t, k, i - 1);
      RowNeverLengthens(mid, k, i - 1, |t.dist|);
      NoLongerTransitive(r, mid, t);
    }
  }

  /** The triple loop never lengthens a cell. */
  lemma {:induction false} RelaxationNeverLengthens(t: Tables, k: nat)
    requires Shaped(t) && k <= |t.dist|
    ensures NoLonger(RelaxPivots(t, k), t)
  {
    if k > 0 {
      var mid := RelaxPivots(t, k - 1);
      var r := RelaxPivot(mid, k - 1, |t.dist|);
      assert RelaxPivots(t, k) == r;
      RelaxationNeverLengthens(t, k - 1);
      PivotNeverLengthens(mid, k - 1, |t.dist|);
      NoLongerTransitive(r, mid, t);
    }
  }

  /** No final distance exceeds the weight of the direct link, and none on the diagonal exceeds 0 (absent a self-loop). */
  lemma FinalNoLongerThanLinks(links: Links)
    ensures var d, n := Final(links).dist, |links|;
      && (forall i, j :: 0 <= i < n && 0 <= j < n && j in links[i] ==> d[i][j] <= links[i][j])
      && (forall i :: 0 <= i < n && i !in links[i] ==> d[i][i] <= 0)
  {
    RelaxationNeverLengthens(Initial(links), |links|);
  }

  // ---------------------------------------------------------------------
  // What the relaxation keeps, for non-negative weights
  // ---------------------------------------------------------------------

  /** Every distance lies between 0 and INF. */
  ghost predicate Bounded(d: Matrix<int>)
    requires IsSquare(d, |d|)
  {
    forall a, b :: 0 <= a < |d| && 0 <= b < |d| ==> 0 <= d[a][b] <= INF
  }

  /**
   * The invariant of the triple loop for non-negative weights: distances
   * stay within [0, INF], a cell without a next vertex keeps its initial
   * distance, and every next vertex is a proper intermediate vertex.
   */
  ghost predicate Sound(t: Tables, init: Matrix<int>) {
    && Shaped(t) && IsSquare(init, |t.dist|)
    && Bounded(t.dist)
    && Untouched(t.dist, t.next, init)
    && ViaSound(t.dist, t.next)
  }

  lemma InitialSound(links: Links)
    requires WellFormed(links) && NonNegative(links)
    ensures Sound(Initial(links), InitialWeights(links))
  {
  }

  lemma CellSound(t: Tables, init: Matrix<int>, k: nat, i: nat, j: nat)
    requires Sound(t, init) && k < |t.dist| && i < |t.dist| && j < |t.dist|
    ensures Sound(RelaxCell(t, k, i, j), init)
  {
    var r, n := RelaxCell(t, k, i, j), |t.dist|;
    if Improves(t.dist, k, i, j) {
      assert k != i && k != j;
      forall a, b | 0 <= a < n && 0 <= b < n && r.next[a][b] != -1
        ensures r.dist[a][r.next[a][b]] != INF && r.dist[r.next[a][b]][b] != INF
      {
        var c := r.next[a][b];
        assert r.dist[a][c] <= t.dist[a][c] && r.dist[c][b] <= t.dist[c][b];
      }
    }
  }

  lemma {:induction false} RowSound(t: Tables, init: Matrix<int>, k: nat, i: nat, j: nat)
    requires Sound(t, init) && k < |t.dist| && i < |t.dist| && j <= |t.dist|
    ensures Sound(RelaxRow(t, k, i, j), init)
  {
    if j > 0 {
      var s := RelaxRow(t, k, i, j - 1);
      RowSound(t, init, k, i, j - 1);
      CellSound(s, init, k, i, j - 1);
      assert RelaxRow(t, k, i, j) == RelaxCell(s, k, i, j - 1);
    }
  }

  lemma {:induction false} PivotSound(t: Tables, init: Matrix<int>, k: nat, i: nat)
    requires Sound(t, init) && k < |t.dist| && i <= |t.dist|
    ensures Sound(RelaxPivot(t, k, i), init)
  {
    if i > 0 {
      PivotSound(t, init, k, i - 1);
      RowSound(RelaxPivot(t, k, i - 1), init, k, i - 1, |t.dist|);
    }
  }

  /** The triple loop keeps Sound. */
  lemma {:induction false} RelaxationSound(t: Tables, init: Matrix<int>, k: nat)
    requires Sound(t, init) && k <= |t.dist|
    ensures Sound(RelaxPivots(t, k), init)
  {
    if k > 0 {
      RelaxationSound(t, init, k - 1);
      PivotSound(RelaxPivots(t, k - 1), init, k - 1, |t.dist|);
    }
  }

  lemma FinalSound(links: Links)
    requires WellFormed(links) && NonNegative(links)
    ensures Sound(Final(links), InitialWeights(links))
  {
    InitialSound(links);
    RelaxationSound(Initial(links), InitialWeights(links), |links|);
  }

  // ---------------------------------------------------------------------
  // One pivot, all cells at once
  // ---------------------------------------------------------------------

  /** Cell (i, j) after pivot k, computed from the matrices before it. */
  function PhaseDist(d: Matrix<int>, k: nat, i: nat, j: nat): int
    requires IsSquare(d, |d|) && k < |d| && i < |d| && j < |d|
  {
    if Improves(d, k, i, j) then d[i][k] + d[k][j] else d[i][j]
  }

  function PhaseNext(t: Tables, k: nat, i: nat, j: nat): int
    requires Shaped(t) && k < |t.dist| && i < |t.dist| && j < |t.dist|
  {
    if Improves(t.dist, k, i, j) then k else t.next[i][j]
  }

  /** Pivot k applied to every cell of `t` from the values before it. */
  function Phase(t: Tables, k: nat): (r: Tables)
    requires Shaped(t) && k < |t.dist|
  {
    var n := |t.dist|;
    Tables(seq(n, (i: int) requires 0 <= i < n => seq(n, (j: int) requires 0 <= j < n => PhaseDist(t.dist, k, i, j))),
           seq(n, (i: int) requires 0 <= i < n => seq(n, (j: int) requires 0 <= j < n => PhaseNext(t, k, i, j))))
  }

  /** Rows before i, and the cells of row i before column j, are done; the rest are as in t0. */
  ghost predicate Mixed(t0: Tables, t: Tables, k: nat, i: nat, j: nat)
    requires Shaped(t0) && Shaped(t) && |t.dist| == |t0.dist| && k < |t0.dist|
  {
    forall a, b {:trigger t.dist[a][b]} {:trigger t.next[a][b]} :: 0 <= a < |t0.dist| && 0 <= b < |t0.dist| ==>
      if a < i || (a == i && b < j)
      then t.dist[a][b] == PhaseDist(t0.dist, k, a, b) && t.next[a][b] == PhaseNext(t0, k, a, b)
      else t.dist[a][b] == t0.dist[a][b] && t.next[a][b] == t0.next[a][b]
  }

  lemma {:induction false} RowMixed(t0: Tables, t: Tables, k: nat, i: nat, j: nat)
    requires Shaped(t0) && Shaped(t) && |t.dist| == |t0.dist| && k < |t0.dist| && i < |t0.dist| && j <= |t0.dist|
    requires t0.dist[k][k] >= 0 && Mixed(t0, t, k, i, 0)
    ensures Mixed(t0, RelaxRow(t, k, i, j), k, i, j)
  {
    if j > 0 {
      var c := j - 1;
      RowMixed(t0, t, k, i, c);
      var s := RelaxRow(t, k, i, c);
      assert RelaxRow(t, k, i, j) == RelaxCell(s, k, i, c);
      assert s.dist[i][k] == t0.dist[i][k] by {
        if k < c { assert !Improves(t0.dist, k, i, k); }
      }
      assert s.dist[k][c] == t0.dist[k][c] by {
        if k < i { assert !Improves(t0.dist, k, k, c); }
      }
      assert s.dist[i][c] == t0.dist[i][c];
      RelaxCellEffect(s, k, i, c);
    }
  }

  lemma {:induction false} PivotMixed(t0: Tables, k: nat, i: nat)
    requires Shaped(t0) && k < |t0.dist| && i <= |t0.dist| && t0.dist[k][k] >= 0
    ensures Mixed(t0, RelaxPivot(t0, k, i), k, i, 0)
  {
    if i > 0 {
      var s := RelaxPivot(t0, k, i - 1);
      assert RelaxPivot(t0, k, i) == RelaxRow(s, k, i - 1, |t0.dist|);
      PivotMixed(t0, k, i - 1);
      RowMixed(t0, s, k, i - 1, |t0.dist|);
    }
  }

  /**
   * While the diagonal cell of the pivot is non-negative, relaxing in place
   * row by row gives the same matrices as relaxing every cell from the
   * values before the pivot: row k and column k do not change.
   */
  lemma PivotIsPhase(t: Tables, k: nat)
    requires Shaped(t) && k < |t.dist| && t.dist[k][k] >= 0
    ensures RelaxPivot(t, k, |t.dist|) == Phase(t, k)
  {
    var n, r, p := |t.dist|, RelaxPivot(t, k, |t.dist|), Phase(t, k);
    PivotMixed(t, k, n);
    SameMatrix(r.dist, p.dist, n);
    SameMatrix(r.next, p.next, n);
  }

  // ---------------------------------------------------------------------
  // The triangle inequality
  // ---------------------------------------------------------------------

  /** Going through any of the pivots 0 .. m - 1 is never shorter than the cell itself. */
  ghost predicate TriangleThrough(d: Matrix<int>, m: nat)
    requires IsSquare(d, |d|)
  {
    forall i, j, k {:trigger d[i][j], d[i][k], d[k][j]} :: 0 <= i < |d| && 0 <= j < |d| && 0 <= k < m && k < |d| && d[i][k] != INF && d[k][j] != INF ==>
      d[i][j] <= d[i][k] + d[k][j]
  }

  lemma PhaseTriangle(t: Tables, k: nat)
    requires Shaped(t) && k < |t.dist| && Bounded(t.dist) && TriangleThrough(t.dist, k)
    ensures TriangleThrough(Phase(t, k).dist, k + 1)
  {
    var d, p, n := t.dist, Phase(t, k).dist, |t.dist|;
    forall i, j, m | 0 <= i < n && 0 <= j < n && 0 <= m < k + 1 && p[i][m] != INF && p[m][j] != INF
      ensures p[i][j] <= p[i][m] + p[m][j]
    {
      assert p[i][m] == PhaseDist(d, k, i, m) && p[m][j] == PhaseDist(d, k, m, j) && p[i][j] == PhaseDist(d, k, i, j);
      if m == k {
        assert !Improves(d, k, i, k) && !Improves(d, k, k, j);
      } else if Improves(d, k, i, m) && Improves(d, k, m, j) {
        assert d[k][m] + d[m][k] >= 0;
      } else if Improves(d, k, i, m) {
        assert d[k][j] <= d[k][m] + d[m][j];
      } else if Improves(d, k, m, j) {
        assert d[i][k] <= d[i][m] + d[m][k];
      } else {
        assert d[i][j] <= d[i][m] + d[m][j];
      }
    }
  }

  lemma {:induction false} TriangleUpTo(t: Tables, init: Matrix<int>, m: nat)
    requires Sound(t, init) && m <= |t.dist|
    ensures TriangleThrough(RelaxPivots(t, m).dist, m)
  {
    if m > 0 {
      var s, k := RelaxPivots(t, m - 1), m - 1;
      assert RelaxPivots(t, m) == RelaxPivot(s, k, |t.dist|);
      TriangleUpTo(t, init, k);
      RelaxationSound(t, init, k);
      assert s.dist[k][k] >= 0;
      PivotIsPhase(s, k);
      PhaseTriangle(s, k);
    }
  }

  /**
   * With non-negative weights the final distances satisfy the triangle
   * inequality through every vertex whose two legs have a path.
   */
  lemma FinalTriangle(links: Links)
    requires WellFormed(links) && NonNegative(links)
    ensures var d, n := Final(links).dist, |links|;
      forall i, j, k {:trigger d[i][j], d[i][k], d[k][j]} :: 0 <= i < n && 0 <= j < n && 0 <= k < n && d[i][k] != INF && d[k][j] != INF ==>
        d[i][j] <= d[i][k] + d[k][j]
  {
    InitialSound(links);
    TriangleUpTo(Initial(links), InitialWeights(links), |links|);
  }

  // ---------------------------------------------------------------------
  // The returned paths
  // ---------------------------------------------------------------------

  /**
   * With non-negative weights, a cell of the result is null exactly when its
   * distance is INF, a path runs from i to j, from i to itself it is [i],
   * and every step of it is a link of the graph.
   */
  lemma ShortestPathsFollowLinks(links: Links)
    requires WellFormed(links) && NonNegative(links)
    ensures var r, d, n := AllPairsShortestPaths(links), Final(links).dist, |links|;
      r.Some? ==>
        && IsSquare(r.value, n)
        && forall i, j :: 0 <= i < n && 0 <= j < n ==>
             && (r.value[i][j].None? <==> d[i][j] == INF)
             && (r.value[i][j].Some? ==>
                   var p := r.value[i][j].value;
                   && |p| > 0 && p[0] == i && p[|p| - 1] == j
                   && (i == j ==> p == [i])
                   && forall t :: 0 <= t < |p| - 1 ==> IsLink(links, p[t], p[t + 1]))
  {
    var t := Final(links);
    FinalSound(links);
    PathsShape(t.dist, t.next);
    PathsFollowLinks(links, t.dist, t.next);
  }

  // ---------------------------------------------------------------------
  // The returned paths are shortest
  // ---------------------------------------------------------------------

  /** The sum of the link weights along the walk `p`. */
  function PathWeight(links: Links, p: seq<nat>): int
    requires IsWalk(links, p)
    decreases |p|
  {
    if |p| <= 1 then 0
    else
      assert IsLink(links, p[0], p[1]);
      links[p[0]][p[1]] + PathWeight(links, p[1..])
  }

  /** Joining two walks at a shared vertex adds their weights. */
  lemma {:induction false} PathWeightJoin(links: Links, u: seq<nat>, v: seq<nat>)
    requires |u| > 0 && |v| > 0 && u[|u| - 1] == v[0] && IsWalk(links, u) && IsWalk(links, v)
    ensures IsWalk(links, u + v[1..]) && PathWeight(links, u + v[1..]) == PathWeight(links, u) + PathWeight(links, v)
    decreases |u|
  {
    if |u| == 1 {
      assert u + v[1..] == v;
    } else {
      var w := u + v[1..];
      PathWeightJoin(links, u[1..], v);
      assert w[1..] == u[1..] + v[1..];
      assert IsLink(links, w[0], w[1]);
    }
  }

  /** Every next vertex k of (a, b) splits the cell into two legs whose distances add up to at most its own. */
  ghost predicate LegsWithin(t: Tables)
    requires Shaped(t)
  {
    forall a, b {:trigger t.next[a][b]} :: 0 <= a < |t.dist| && 0 <= b < |t.dist| && t.next[a][b] != -1 ==>
      t.dist[a][t.next[a][b]] + t.dist[t.next[a][b]][b] <= t.dist[a][b]
  }

  /** ... and to exactly its own. */
  ghost predicate LegsExact(t: Tables)
    requires Shaped(t)
  {
    forall a, b {:trigger t.next[a][b]} :: 0 <= a < |t.dist| && 0 <= b < |t.dist| && t.next[a][b] != -1 ==>
      t.dist[a][t.next[a][b]] + t.dist[t.next[a][b]][b] == t.dist[a][b]
  }

  /**
   * A step records k only with the sum of the two legs through k, and
   * otherwise only shortens cells, so the legs of every next vertex stay
   * within their cell.
   */
  lemma CellLegs(t: Tables, init: Matrix<int>, k: nat, i: nat, j: nat)
    requires Sound(t, init) && LegsWithin(t) && k < |t.dist| && i < |t.dist| && j < |t.dist|
    ensures LegsWithin(RelaxCell(t, k, i, j))
  {
    var r, n := RelaxCell(t, k, i, j), |t.dist|;
    if Improves(t.dist, k, i, j) {
      assert k != i && k != j;
      forall a, b | 0 <= a < n && 0 <= b < n && r.next[a][b] != -1
        ensures r.dist[a][r.next[a][b]] + r.dist[r.next[a][b]][b] <= r.dist[a][b]
      {
        var c := r.next[a][b];
        if a == i && b == j {
          assert c == k && r.dist[i][k] == t.dist[i][k] && r.dist[k][j] == t.dist[k][j];
        } else {
          assert c == t.next[a][b] && r.dist[a][b] == t.dist[a][b];
          assert r.dist[a][c] <= t.dist[a][c] && r.dist[c][b] <= t.dist[c][b];
        }
      }
    }
  }

  lemma {:induction false} RowLegs(t: Tables, init: Matrix<int>, k: nat, i: nat, j: nat)
    requires Sound(t, init) && LegsWithin(t) && k < |t.dist| && i < |t.dist| && j <= |t.dist|
    ensures LegsWithin(RelaxRow(t, k, i, j))
  {
    if j > 0 {
      var s := RelaxRow(t, k, i, j - 1);
      RowLegs(t, init, k, i, j - 1);
      RowSound(t, init, k, i, j - 1);
      CellLegs(s, init, k, i, j - 1);
      assert RelaxRow(t, k, i, j) == RelaxCell(s, k, i, j - 1);
    }
  }

  lemma {:induction false} PivotLegs(t: Tables, init: Matrix<int>, k: nat, i: nat)
    requires Sound(t, init) && LegsWithin(t) && k < |t.dist| && i <= |t.dist|
    ensures LegsWithin(RelaxPivot(t, k, i))
  {
    if i > 0 {
      var s := RelaxPivot(t, k, i - 1);
      PivotLegs(t, init, k, i - 1);
      PivotSound(t, init, k, i - 1);
      RowLegs(s, init, k, i - 1, |t.dist|);
      assert RelaxPivot(t, k, i) == RelaxRow(s, k, i - 1, |t.dist|);
    }
  }

  /** The triple loop keeps the legs of every next vertex within their cell. */
  lemma {:induction false} RelaxationLegs(t: Tables, init: Matrix<int>, k: nat)
    requires Sound(t, init) && LegsWithin(t) && k <= |t.dist|
    ensures LegsWithin(RelaxPivots(t, k))
  {
    if k > 0 {
      var s := RelaxPivots(t, k - 1);
      RelaxationLegs(t, init, k - 1);
      RelaxationSound(t, init, k - 1);
      PivotLegs(s, init, k - 1, |t.dist|);
      assert RelaxPivots(t, k) == RelaxPivot(s, k - 1, |t.dist|);
    }
  }

  /** With non-negative weights the legs of every final next vertex add up to its cell exactly. */
  lemma FinalLegsExact(links: Links)
    requires WellFormed(links) && NonNegative(links)
    ensures LegsExact(Final(links))
  {
    var t := Final(links);
    InitialSound(links);
    assert LegsWithin(Initial(links));  // no next vertex is recorded yet
    RelaxationLegs(Initial(links), InitialWeights(links), |links|);
    FinalSound(links);
    FinalTriangle(links);
  }

  /** When the legs add up exactly, an extracted path weighs exactly its cell's distance. */
  lemma {:induction false} ExtractWeight(links: Links, t: Tables, i: nat, j: nat, onStack: set<(nat, nat)>)
    requires Shaped(t) && ViaSound(t.dist, t.next) && DirectLinks(links, t.dist, t.next) && LegsExact(t)
    requires i < |t.dist| && j < |t.dist| && i != j && t.dist[i][j] != INF && onStack <= AllPairs(|t.dist|)
    requires Extract(t.dist, t.next, i, j, onStack).Some?
    ensures var p := [i] + Extract(t.dist, t.next, i, j, onStack).value + [j];
      IsWalk(links, p) && PathWeight(links, p) == t.dist[i][j]
    decreases AllPairs(|t.dist|) - onStack
  {
    var p := [i] + Extract(t.dist, t.next, i, j, onStack).value + [j];
    if t.next[i][j] == -1 {
      assert p == [i, j] && p[1..] == [j];
      assert Direct(t.dist, t.next, i, j);
    } else {
      var k: nat := t.next[i][j];
      assert (i, j) in AllPairs(|t.dist|);
      var inner := onStack + {(i, j)};
      var left, right := Extract(t.dist, t.next, i, k, inner).value, Extract(t.dist, t.next, k, j, inner).value;
      ExtractWeight(links, t, i, k, inner);
      ExtractWeight(links, t, k, j, inner);
      var u, v := [i] + left + [k], [k] + right + [j];
      PathWeightJoin(links, u, v);
      Splice(i, left, k, right, j);
    }
  }

  /**
   * The final matrices for non-negative weights: every next vertex is a
   * proper intermediate vertex whose legs add up to its cell, every direct
   * cell holds a link's weight, and the diagonal of a vertex without a
   * self-loop is 0.
   */
  lemma FinalPathFacts(links: Links)
    requires WellFormed(links) && NonNegative(links)
    ensures var t := Final(links);
      && ViaSound(t.dist, t.next) && LegsExact(t) && DirectLinks(links, t.dist, t.next)
      && forall i :: 0 <= i < |links| && i !in links[i] ==> t.dist[i][i] == 0
  {
    var t := Final(links);
    FinalSound(links);
    FinalLegsExact(links);
    UntouchedDirectLinks(links, t.dist, t.next);
    FinalNoLongerThanLinks(links);
  }

  /**
   * When the legs add up exactly and direct cells hold link weights, every
   * returned path is a walk that weighs its cell's distance, except on the
   * diagonal of a vertex whose distance to itself is not 0.
   */
  lemma PathsWeigh(links: Links, t: Tables)
    requires |t.dist| == |links| && Shaped(t) && ViaSound(t.dist, t.next) && DirectLinks(links, t.dist, t.next) && LegsExact(t)
    ensures var r, n := Paths(t.dist, t.next), |links|;
      r.Some? ==>
        && IsSquare(r.value, n)
        && forall i, j :: 0 <= i < n && 0 <= j < n && r.value[i][j].Some? ==>
             var p := r.value[i][j].value;
             && IsWalk(links, p)
             && ((i != j || t.dist[i][i] == 0) ==> PathWeight(links, p) == t.dist[i][j])
  {
    var r, n := Paths(t.dist, t.next), |links|;
    PathsShape(t.dist, t.next);
    if r.Some? {
      forall i, j | 0 <= i < n && 0 <= j < n && r.value[i][j].Some?
        ensures var p := r.value[i][j].value;
          IsWalk(links, p) && ((i != j || t.dist[i][i] == 0) ==> PathWeight(links, p) == t.dist[i][j])
      {
        if i != j {
          ExtractWeight(links, t, i, j, {});
        } else {
          assert r.value[i][j].value == [i];
        }
      }
    }
  }

  /**
   * With non-negative weights every returned path is a walk of the graph
   * whose weight is the distance of its cell.  On the diagonal this holds
   * when the vertex has no self-loop: the path is [i] alone, which weighs
   * 0, while a self-loop leaves its own weight in ds[i][i].
   */
  lemma ShortestPathWeights(links: Links)
    requires WellFormed(links) && NonNegative(links)
    ensures var r, d, n := AllPairsShortestPaths(links), Final(links).dist, |links|;
      r.Some? ==>
        && IsSquare(r.value, n)
        && forall i, j :: 0 <= i < n && 0 <= j < n && r.value[i][j].Some? ==>
             var p := r.value[i][j].value;
             && IsWalk(links, p)
             && ((i != j || i !in links[i]) ==> PathWeight(links, p) == d[i][j])
  {
    FinalPathFacts(links);
    PathsWeigh(links, Final(links));
  }

  /** A walk of at least one link weighs no less than the distance between its ends, when `d` keeps the triangle. */
  lemma {:induction false} WalkBound(links: Links, d: Matrix<int>, p: seq<nat>)
    requires WellFormed(links) && NonNegative(links) && IsSquare(d, |links|) && Bounded(d) && TriangleThrough(d, |d|)
    requires forall a, b :: 0 <= a < |links| && b in links[a] ==> d[a][b] <= links[a][b]
    requires IsWalk(links, p) && |p| >= 2
    ensures p[0] < |links| && p[|p| - 1] < |links| && d[p[0]][p[|p| - 1]] <= PathWeight(links, p)
    decreases |p|
  {
    var i, m, j := p[0], p[1], p[|p| - 1];
    assert IsLink(links, i, m) && IsLink(links, p[|p| - 2], j);
    if |p| > 2 {
      var rest := p[1..];
      assert IsWalk(links, rest);
      WalkBound(links, d, rest);
      assert rest[|rest| - 1] == j;
      if d[i][m] != INF && d[m][j] != INF {
        assert d[i][j] <= d[i][m] + d[m][j];
      }
    }
  }

  /**
   * With non-negative weights no walk of at least one link between two
   * vertices weighs less than the final distance between them.
   */
  lemma FinalIsLeast(links: Links, p: seq<nat>)
    requires WellFormed(links) && NonNegative(links)
    requires IsWalk(links, p) && |p| >= 2
    ensures p[0] < |links| && p[|p| - 1] < |links| && Final(links).dist[p[0]][p[|p| - 1]] <= PathWeight(links, p)
  {
    FinalSound(links);
    FinalTriangle(links);
    FinalNoLongerThanLinks(links);
    WalkBound(links, Final(links).dist, p);
  }
}
