/**
 * The all-pairs minimax (bottleneck) search of MinimaxFloydWarshall.java
 * (findAllPairsMinimaxPaths), as functions on value matrices.
 *
 * Each cell holds a pair: the largest link weight on the path, `ws`, and the
 * number of links on it, `ls`.  Relaxing (i, j) through pivot k forms the
 * candidate (max(ws[i][k], ws[k][j]), ls[i][k] + ls[k][j]) when both legs
 * have a path, and takes it when it is lexicographically smaller; `ns`
 * records k.  The structure follows ShortestPaths: cell-by-cell folds, the
 * all-cells-at-once Phase, and PivotIsPhase relating the two.
 *
 * `ls` is not the length of the path extraction returns: the halves through
 * a next vertex may be replaced after the next vertex was recorded, and the
 * extracted path may visit a vertex twice (MinimaxPathMayRepeatVertex).
 */
module MinimaxPaths {
  import opened Wrappers
  import opened Matrices
  import opened AllPairsPaths

  /** The weight matrix `ws`, the length matrix `ls` and the next-vertex matrix `ns`. */
  datatype Tables = Tables(weight: Matrix<int>, length: Matrix<int>, next: Matrix<int>)

  ghost predicate Shaped(t: Tables) {
    Tabled(t.weight, t.next) && IsSquare(t.length, |t.weight|)
  }

  /** The matrices before relaxation. */
  function Initial(links: Links): (t: Tables)
    ensures Shaped(t) && |t.weight| == |links|
  {
    Tables(InitialWeights(links), InitialLengths(links), InitialNext(|links|))
  }

  /** Math.max. */
  function Max(a: int, b: int): (m: int)
    ensures m >= a && m >= b && (m == a || m == b)
  {
    if a < b then b else a
  }

  /** (w, l) comes strictly before (w', l'): a smaller largest weight, or the same one over fewer links. */
  predicate LexLess(w: int, l: int, w': int, l': int) {
    w < w' || (w == w' && l < l')
  }

  /** The test of the source for cell (i, j) and pivot k: both legs have a path and the candidate comes first. */
  predicate Accepts(t: Tables, k: nat, i: nat, j: nat)
    requires Shaped(t) && k < |t.weight| && i < |t.weight| && j < |t.weight|
  {
    && t.weight[i][k] != INF && t.weight[k][j] != INF
    && LexLess(Max(t.weight[i][k], t.weight[k][j]), t.length[i][k] + t.length[k][j], t.weight[i][j], t.length[i][j])
  }

  /** One relaxation step: cell (i, j) through pivot k. */
  function RelaxCell(t: Tables, k: nat, i: nat, j: nat): (r: Tables)
    requires Shaped(t) && k < |t.weight| && i < |t.weight| && j < |t.weight|
    ensures Shaped(r) && |r.weight| == |t.weight|
  {
    if Accepts(t, k, i, j)
    then Tables(t.weight[i := t.weight[i][j := Max(t.weight[i][k], t.weight[k][j])]],
                t.length[i := t.length[i][j := t.length[i][k] + t.length[k][j]]],
                t.next[i := t.next[i][j := k]])
    else t
  }

  /** Cells (i, 0) .. (i, j - 1) relaxed through pivot k, in that order. */
  function RelaxRow(t: Tables, k: nat, i: nat, j: nat): (r: Tables)
    requires Shaped(t) && k < |t.weight| && i < |t.weight| && j <= |t.weight|
    ensures Shaped(r) && |r.weight| == |t.weight|
  {
    if j == 0 then t else RelaxCell(RelaxRow(t, k, i, j - 1), k, i, j - 1)
  }

  /** Rows 0 .. i - 1 relaxed through pivot k. */
  function RelaxPivot(t: Tables, k: nat, i: nat): (r: Tables)
    requires Shaped(t) && k < |t.weight| && i <= |t.weight|
    ensures Shaped(r) && |r.weight| == |t.weight|
  {
    if i == 0 then t else RelaxRow(RelaxPivot(t, k, i - 1), k, i - 1, |t.weight|)
  }

  /** Pivots 0 .. k - 1 applied in turn. */
  function RelaxPivots(t: Tables, k: nat): (r: Tables)
    requires Shaped(t) && k <= |t.weight|
    ensures Shaped(r) && |r.weight| == |t.weight|
  {
    if k == 0 then t else RelaxPivot(RelaxPivots(t, k - 1), k - 1, |t.weight|)
  }

  /** The matrices after the triple loop. */
  function Final(links: Links): (t: Tables)
    ensures Shaped(t) && |t.weight| == |links|
  {
    RelaxPivots(Initial(links), |links|)
  }

  /** What findAllPairsMinimaxPaths returns, or `None` when extracting some path never returns. */
  function AllPairsMinimaxPaths(links: Links): Option<Matrix<Option<seq<nat>>>> {
    var t := Final(links);
    Paths(t.weight, t.next)
  }

  // ---------------------------------------------------------------------
  // One relaxation step
  // ---------------------------------------------------------------------

  /**
   * A step changes cell (i, j) alone, and only when both legs have a path
   * and the candidate comes lexicographically first; the cell then holds
   * the candidate and next vertex k.  Otherwise nothing changes.
   */
  lemma RelaxCellEffect(t: Tables, k: nat, i: nat, j: nat)
    requires Shaped(t) && k < |t.weight| && i < |t.weight| && j < |t.weight|
    ensures var r, n := RelaxCell(t, k, i, j), |t.weight|;
      var w, l := Max(t.weight[i][k], t.weight[k][j]), t.length[i][k] + t.length[k][j];
      && (forall a, b :: 0 <= a < n && 0 <= b < n && (a != i || b != j) ==>
            r.weight[a][b] == t.weight[a][b] && r.length[a][b] == t.length[a][b] && r.next[a][b] == t.next[a][b])
      && (r != t <==> t.weight[i][k] != INF && t.weight[k][j] != INF && LexLess(w, l, t.weight[i][j], t.length[i][j]))
      && (r != t ==> r.weight[i][j] == w && r.length[i][j] == l && r.next[i][j] == k)
  {
    var r := RelaxCell(t, k, i, j);
    if Accepts(t, k, i, j) {
      assert r.weight[i][j] != t.weight[i][j] || r.length[i][j] != t.length[i][j];
    }
  }

  /** No cell of `r` comes after the same cell of `t` in the (weight, length) order. */
  ghost predicate NoWorse(r: Tables, t: Tables)
    requires Shaped(r) && Shaped(t) && |r.weight| == |t.weight|
  {
    forall a, b :: 0 <= a < |t.weight| && 0 <= b < |t.weight| ==>
      LexLess(r.weight[a][b], r.length[a][b], t.weight[a][b], t.length[a][b])
      || (r.weight[a][b] == t.weight[a][b] && r.length[a][b] == t.length[a][b])
  }

  lemma NoWorseTransitive(r: Tables, s: Tables, t: Tables)
    requires Shaped(r) && Shaped(s) && Shaped(t) && |r.weight| == |s.weight| == |t.weight|
    requires NoWorse(r, s) && NoWorse(s, t)
    ensures NoWorse(r, t)
  {
    forall a, b | 0 <= a < |t.weight| && 0 <= b < |t.weight|
      ensures LexLess(r.weight[a][b], r.length[a][b], t.weight[a][b], t.length[a][b])
              || (r.weight[a][b] == t.weight[a][b] && r.length[a][b] == t.length[a][b])
    {
      assert LexLess(r.weight[a][b], r.length[a][b], s.weight[a][b], s.length[a][b])
             || (r.weight[a][b] == s.weight[a][b] && r.length[a][b] == s.length[a][b]);
      assert LexLess(s.weight[a][b], s.length[a][b], t.weight[a][b], t.length[a][b])
             || (s.weight[a][b] == t.weight[a][b] && s.length[a][b] == t.length[a][b]);
    }
  }

  // ---------------------------------------------------------------------
  // What the relaxation keeps
  // ---------------------------------------------------------------------

  /**
   * The invariant of the triple loop: weights are at most INF, lengths are
   * non-negative, a cell without a next vertex keeps its initial weight,
   * and every next vertex is a proper intermediate vertex.
   */
  ghost predicate Sound(t: Tables, init: Matrix<int>) {
    && Shaped(t) && IsSquare(init, |t.weight|)
    && (forall a, b :: 0 <= a < |t.weight| && 0 <= b < |t.weight| ==> t.weight[a][b] <= INF && t.length[a][b] >= 0)
    && Untouched(t.weight, t.next, init)
    && ViaSound(t.weight, t.next)
  }

  /** Sound carries over to an equal value. */
  lemma SoundEqual(r: Tables, s: Tables, init: Matrix<int>)
    requires r == s && Sound(s, init)
    ensures Sound(r, init)
  {
  }

  lemma InitialSound(links: Links)
    requires WellFormed(links)
    ensures Sound(Initial(links), InitialWeights(links))
  {
  }

  lemma CellSound(t: Tables, init: Matrix<int>, k: nat, i: nat, j: nat)
    requires Sound(t, init) && k < |t.weight| && i < |t.weight| && j < |t.weight|
    ensures Sound(RelaxCell(t, k, i, j), init)
  {
    var r, n := RelaxCell(t, k, i, j), |t.weight|;
    if Accepts(t, k, i, j) {
      assert k != i && k != j;
      assert r.weight[i][j] < INF;
      forall a, b | 0 <= a < n && 0 <= b < n && r.next[a][b] != -1
        ensures r.weight[a][r.next[a][b]] != INF && r.weight[r.next[a][b]][b] != INF
      {
        var c := r.next[a][b];
        assert r.weight[a][c] <= t.weight[a][c] && r.weight[c][b] <= t.weight[c][b];
      }
    }
  }

  lemma {:induction false} RowSound(t: Tables, init: Matrix<int>, k: nat, i: nat, j: nat)
    requires Sound(t, init) && k < |t.weight| && i < |t.weight| && j <= |t.weight|
    ensures Sound(RelaxRow(t, k, i, j), init)
  {
    var s, c := t, 0;
    while c < j
      invariant c <= j && s == RelaxRow(t, k, i, c) && Sound(s, init)
    {
      CellSound(s, init, k, i, c);
      s, c := RelaxCell(s, k, i, c), c + 1;
    }
  }

  lemma {:induction false} PivotSound(t: Tables, init: Matrix<int>, k: nat, i: nat)
    requires Sound(t, init) && k < |t.weight| && i <= |t.weight|
    ensures Sound(RelaxPivot(t, k, i), init)
  {
    if i > 0 {
      var s := RelaxPivot(t, k, i - 1);
      PivotSound(t, init, k, i - 1);
      RowSound(s, init, k, i - 1, |t.weight|);
      assert RelaxPivot(t, k, i) == RelaxRow(s, k, i - 1, |t.weight|);
    }
  }

  /** The triple loop keeps Sound, for any weights. */
  lemma {:induction false} RelaxationSound(t: Tables, init: Matrix<int>, k: nat)
    requires Sound(t, init) && k <= |t.weight|
    ensures Sound(RelaxPivots(t, k), init)
  {
    if k > 0 {
      RelaxationSound(t, init, k - 1);
      PivotSound(RelaxPivots(t, k - 1), init, k - 1, |t.weight|);
    }
  }

  lemma FinalSound(links: Links)
    requires WellFormed(links)
    ensures Sound(Final(links), InitialWeights(links))
  {
    InitialSound(links);
    RelaxationSound(Initial(links), InitialWeights(links), |links|);
  }

  // ---------------------------------------------------------------------
  // One pivot, all cells at once
  // ---------------------------------------------------------------------

  function PhaseWeight(t: Tables, k: nat, i: nat, j: nat): int
    requires Shaped(t) && k < |t.weight| && i < |t.weight| && j < |t.weight|
  {
    if Accepts(t, k, i, j) then Max(t.weight[i][k], t.weight[k][j]) else t.weight[i][j]
  }

  function PhaseLength(t: Tables, k: nat, i: nat, j: nat): int
    requires Shaped(t) && k < |t.weight| && i < |t.weight| && j < |t.weight|
  {
    if Accepts(t, k, i, j) then t.length[i][k] + t.length[k][j] else t.length[i][j]
  }

  function PhaseNext(t: Tables, k: nat, i: nat, j: nat): int
    requires Shaped(t) && k < |t.weight| && i < |t.weight| && j < |t.weight|
  {
    if Accepts(t, k, i, j) then k else t.next[i][j]
  }

  /** Pivot k applied to every cell of `t` from the values before it. */
  function Phase(t: Tables, k: nat): (r: Tables)
    requires Shaped(t) && k < |t.weight|
  {
    var n := |t.weight|;
    Tables(seq(n, (i: int) requires 0 <= i < n => seq(n, (j: int) requires 0 <= j < n => PhaseWeight(t, k, i, j))),
           seq(n, (i: int) requires 0 <= i < n => seq(n, (j: int) requires 0 <= j < n => PhaseLength(t, k, i, j))),
           seq(n, (i: int) requires 0 <= i < n => seq(n, (j: int) requires 0 <= j < n => PhaseNext(t, k, i, j))))
  }

  /** Rows before i, and the cells of row i before column j, are done; the rest are as in t0. */
  ghost predicate Mixed(t0: Tables, t: Tables, k: nat, i: nat, j: nat)
    requires Shaped(t0) && Shaped(t) && |t.weight| == |t0.weight| && k < |t0.weight|
  {
    forall a, b {:trigger t.weight[a][b]} {:trigger t.length[a][b]} {:trigger t.next[a][b]} :: 0 <= a < |t0.weight| && 0 <= b < |t0.weight| ==>
      if a < i || (a == i && b < j)
      then t.weight[a][b] == PhaseWeight(t0, k, a, b) && t.length[a][b] == PhaseLength(t0, k, a, b)
           && t.next[a][b] == PhaseNext(t0, k, a, b)
      else t.weight[a][b] == t0.weight[a][b] && t.length[a][b] == t0.length[a][b] && t.next[a][b] == t0.next[a][b]
  }

  lemma {:induction false} RowMixed(t0: Tables, t: Tables, k: nat, i: nat, j: nat)
    requires Shaped(t0) && Shaped(t) && |t.weight| == |t0.weight| && k < |t0.weight| && i < |t0.weight| && j <= |t0.weight|
    requires t0.length[k][k] >= 0 && Mixed(t0, t, k, i, 0)
    ensures Mixed(t0, RelaxRow(t, k, i, j), k, i, j)
  {
    if j > 0 {
      var c := j - 1;
      RowMixed(t0, t, k, i, c);
      var s := RelaxRow(t, k, i, c);
      assert RelaxRow(t, k, i, j) == RelaxCell(s, k, i, c);
      assert s.weight[i][k] == t0.weight[i][k] && s.length[i][k] == t0.length[i][k] by {
        if k < c { assert !Accepts(t0, k, i, k); }
      }
      assert s.weight[k][c] == t0.weight[k][c] && s.length[k][c] == t0.length[k][c] by {
        if k < i { assert !Accepts(t0, k, k, c); }
      }
      assert s.weight[i][c] == t0.weight[i][c] && s.length[i][c] == t0.length[i][c];
      RelaxCellEffect(s, k, i, c);
    }
  }

  lemma {:induction false} PivotMixed(t0: Tables, k: nat, i: nat)
    requires Shaped(t0) && k < |t0.weight| && i <= |t0.weight| && t0.length[k][k] >= 0
    ensures Mixed(t0, RelaxPivot(t0, k, i), k, i, 0)
  {
    if i > 0 {
      var s := RelaxPivot(t0, k, i - 1);
      assert RelaxPivot(t0, k, i) == RelaxRow(s, k, i - 1, |t0.weight|);
      PivotMixed(t0, k, i - 1);
      RowMixed(t0, s, k, i - 1, |t0.weight|);
    }
  }

  /**
   * While the diagonal length of the pivot is non-negative, relaxing in
   * place row by row gives the same matrices as relaxing every cell from
   * the values before the pivot: row k and column k do not change.
   */
  lemma PivotIsPhase(t: Tables, k: nat)
    requires Shaped(t) && k < |t.weight| && t.length[k][k] >= 0
    ensures RelaxPivot(t, k, |t.weight|) == Phase(t, k)
  {
    var n, r, p := |t.weight|, RelaxPivot(t, k, |t.weight|), Phase(t, k);
    PivotMixed(t, k, n);
    SameMatrix(r.weight, p.weight, n);
    SameMatrix(r.length, p.length, n);
    SameMatrix(r.next, p.next, n);
  }

  // ---------------------------------------------------------------------
  // Monotonicity
  // ---------------------------------------------------------------------

  /** A pivot whose own length is non-negative moves no cell later in the (weight, length) order. */
  lemma PivotNeverWorsens(t: Tables, k: nat)
    requires Shaped(t) && k < |t.weight| && t.length[k][k] >= 0
    ensures NoWorse(RelaxPivot(t, k, |t.weight|), t)
  {
    PivotIsPhase(t, k);
    var p, n := Phase(t, k), |t.weight|;
    forall a, b | 0 <= a < n && 0 <= b < n
      ensures LexLess(p.weight[a][b], p.length[a][b], t.weight[a][b], t.length[a][b])
              || (p.weight[a][b] == t.weight[a][b] && p.length[a][b] == t.length[a][b])
    {
      assert p.weight[a][b] == PhaseWeight(t, k, a, b) && p.length[a][b] == PhaseLength(t, k, a, b);
    }
  }

  /** The triple loop never moves a cell later in the (weight, length) order. */
  lemma {:induction false} RelaxationNeverWorsens(t: Tables, init: Matrix<int>, k: nat)
    requires Sound(t, init) && k <= |t.weight|
    ensures NoWorse(RelaxPivots(t, k), t)
  {
    if k > 0 {
      var mid, m := RelaxPivots(t, k - 1), k - 1;
      var r := RelaxPivot(mid, m, |t.weight|);
      assert RelaxPivots(t, k) == r;
      RelaxationNeverWorsens(t, init, m);
      RelaxationSound(t, init, m);
      assert mid.length[m][m] >= 0;
      PivotNeverWorsens(mid, m);
      NoWorseTransitive(r, mid, t);
    }
  }

  /** No final weight exceeds the weight of the direct link, and none on the diagonal exceeds 0 (absent a self-loop). */
  lemma FinalNoWorseThanLinks(links: Links)
    requires WellFormed(links)
    ensures var w, n := Final(links).weight, |links|;
      && (forall i, j :: 0 <= i < n && 0 <= j < n && j in links[i] ==> w[i][j] <= links[i][j])
      && (forall i :: 0 <= i < n && i !in links[i] ==> w[i][i] <= 0)
  {
    InitialSound(links);
    RelaxationNeverWorsens(Initial(links), InitialWeights(links), |links|);
  }

  // ---------------------------------------------------------------------
  // The bottleneck inequality
  // ---------------------------------------------------------------------

  /** Going through any of the pivots 0 .. m - 1 never has a smaller largest weight than the cell itself. */
  ghost predicate BottleneckThrough(w: Matrix<int>, m: nat)
    requires IsSquare(w, |w|)
  {
    forall i, j, k {:trigger w[i][j], w[i][k], w[k][j]} :: 0 <= i < |w| && 0 <= j < |w| && 0 <= k < m && k < |w| && w[i][k] != INF && w[k][j] != INF ==>
      w[i][j] <= Max(w[i][k], w[k][j])
  }

  lemma PhaseBottleneck(t: Tables, k: nat)
    requires Shaped(t) && k < |t.weight| && t.length[k][k] >= 0
    requires forall a, b :: 0 <= a < |t.weight| && 0 <= b < |t.weight| ==> t.weight[a][b] <= INF
    requires BottleneckThrough(t.weight, k)
    ensures BottleneckThrough(Phase(t, k).weight, k + 1)
  {
    var w, p, n := t.weight, Phase(t, k).weight, |t.weight|;
    forall i, j, m | 0 <= i < n && 0 <= j < n && 0 <= m < k + 1 && p[i][m] != INF && p[m][j] != INF
      ensures p[i][j] <= Max(p[i][m], p[m][j])
    {
      assert p[i][m] == PhaseWeight(t, k, i, m) && p[m][j] == PhaseWeight(t, k, m, j) && p[i][j] == PhaseWeight(t, k, i, j);
      if m == k {
        assert !Accepts(t, k, i, k) && !Accepts(t, k, k, j);
      } else if Accepts(t, k, i, m) && Accepts(t, k, m, j) {
      } else if Accepts(t, k, i, m) {
        assert w[k][j] <= Max(w[k][m], w[m][j]);
      } else if Accepts(t, k, m, j) {
        assert w[i][k] <= Max(w[i][m], w[m][k]);
      } else {
        assert w[i][j] <= Max(w[i][m], w[m][j]);
      }
    }
  }

  lemma {:induction false} BottleneckUpTo(t: Tables, init: Matrix<int>, m: nat)
    requires Sound(t, init) && m <= |t.weight|
    ensures BottleneckThrough(RelaxPivots(t, m).weight, m)
  {
    if m > 0 {
      var s, k := RelaxPivots(t, m - 1), m - 1;
      BottleneckUpTo(t, init, k);
      RelaxationSound(t, init, k);
      assert s.length[k][k] >= 0;
      PivotIsPhase(s, k);
      PhaseBottleneck(s, k);
      assert RelaxPivots(t, m) == RelaxPivot(s, k, |t.weight|);
    }
  }

  /**
   * The final weights satisfy the bottleneck inequality through every
   * vertex whose two legs have a path: ws[i][j] <= max(ws[i][k], ws[k][j]).
   */
  lemma FinalBottleneck(links: Links)
    requires WellFormed(links)
    ensures var w, n := Final(links).weight, |links|;
      forall i, j, k {:trigger w[i][j], w[i][k], w[k][j]} :: 0 <= i < n && 0 <= j < n && 0 <= k < n && w[i][k] != INF && w[k][j] != INF ==>
        w[i][j] <= Max(w[i][k], w[k][j])
  {
    InitialSound(links);
    BottleneckUpTo(Initial(links), InitialWeights(links), |links|);
  }

  // ---------------------------------------------------------------------
  // The returned paths
  // ---------------------------------------------------------------------

  /**
   * A cell of the result is null exactly when its weight is INF, a path runs
   * from i to j, from i to itself it is [i], and every step of it is a link
   * of the graph.  Nothing here says a path visits each vertex once.
   */
  lemma MinimaxPathsFollowLinks(links: Links)
    requires WellFormed(links)
    ensures var r, w, n := AllPairsMinimaxPaths(links), Final(links).weight, |links|;
      r.Some? ==>
        && IsSquare(r.value, n)
        && forall i, j :: 0 <= i < n && 0 <= j < n ==>
             && (r.value[i][j].None? <==> w[i][j] == INF)
             && (r.value[i][j].Some? ==>
                   var p := r.value[i][j].value;
                   && |p| > 0 && p[0] == i && p[|p| - 1] == j
                   && (i == j ==> p == [i])
                   && forall t :: 0 <= t < |p| - 1 ==> IsLink(links, p[t], p[t + 1]))
  {
    var t := Final(links);
    FinalSound(links);
    PathsShape(t.weight, t.next);
    PathsFollowLinks(links, t.weight, t.next);
  }

  // ---------------------------------------------------------------------
  // The returned paths are minimax paths
  // ---------------------------------------------------------------------

  /** The largest link weight along the walk `p` of at least one link. */
  function PathBottleneck(links: Links, p: seq<nat>): int
    requires IsWalk(links, p) && |p| >= 2
    decreases |p|
  {
    assert IsLink(links, p[0], p[1]);
    if |p| == 2 then links[p[0]][p[1]] else Max(links[p[0]][p[1]], PathBottleneck(links, p[1..]))
  }

  /** Joining two walks at a shared vertex takes the larger of their largest weights. */
  lemma {:induction false} BottleneckJoin(links: Links, u: seq<nat>, v: seq<nat>)
    requires |u| >= 2 && |v| >= 2 && u[|u| - 1] == v[0] && IsWalk(links, u) && IsWalk(links, v)
    ensures IsWalk(links, u + v[1..])
    ensures PathBottleneck(links, u + v[1..]) == Max(PathBottleneck(links, u), PathBottleneck(links, v))
    decreases |u|
  {
    var w := u + v[1..];
    assert IsLink(links, w[0], w[1]);
    if |u| == 2 {
      assert w[1..] == v;
    } else {
      BottleneckJoin(links, u[1..], v);
      assert w[1..] == u[1..] + v[1..];
    }
  }

  /** Every next vertex k of (a, b) splits the cell into two legs whose larger weight is at most its own. */
  ghost predicate LegsWithin(t: Tables)
    requires Shaped(t)
  {
    forall a, b {:trigger t.next[a][b]} :: 0 <= a < |t.weight| && 0 <= b < |t.weight| && t.next[a][b] != -1 ==>
      Max(t.weight[a][t.next[a][b]], t.weight[t.next[a][b]][b]) <= t.weight[a][b]
  }

  /** ... and exactly its own. */
  ghost predicate LegsExact(t: Tables)
    requires Shaped(t)
  {
    forall a, b {:trigger t.next[a][b]} :: 0 <= a < |t.weight| && 0 <= b < |t.weight| && t.next[a][b] != -1 ==>
      Max(t.weight[a][t.next[a][b]], t.weight[t.next[a][b]][b]) == t.weight[a][b]
  }

  /**
   * A step records k only with the larger weight of the two legs through k,
   * and otherwise never raises a weight, so the legs of every next vertex
   * stay within their cell.
   */
  lemma CellLegs(t: Tables, init: Matrix<int>, k: nat, i: nat, j: nat)
    requires Sound(t, init) && LegsWithin(t) && k < |t.weight| && i < |t.weight| && j < |t.weight|
    ensures LegsWithin(RelaxCell(t, k, i, j))
  {
    var r, n := RelaxCell(t, k, i, j), |t.weight|;
    if Accepts(t, k, i, j) {
      assert k != i && k != j;
      forall a, b | 0 <= a < n && 0 <= b < n && r.next[a][b] != -1
        ensures Max(r.weight[a][r.next[a][b]], r.weight[r.next[a][b]][b]) <= r.weight[a][b]
      {
        var c := r.next[a][b];
        if a == i && b == j {
          assert c == k && r.weight[i][k] == t.weight[i][k] && r.weight[k][j] == t.weight[k][j];
        } else {
          assert c == t.next[a][b] && r.weight[a][b] == t.weight[a][b];
          assert r.weight[a][c] <= t.weight[a][c] && r.weight[c][b] <= t.weight[c][b];
        }
      }
    }
  }

  lemma {:induction false} RowLegs(t: Tables, init: Matrix<int>, k: nat, i: nat, j: nat)
    requires Sound(t, init) && LegsWithin(t) && k < |t.weight| && i < |t.weight| && j <= |t.weight|
    ensures LegsWithin(RelaxRow(t, k, i, j))
  {
    if j > 0 {
      var s := RelaxRow(t, k, i, j - 1);
      assert RelaxRow(t, k, i, j) == RelaxCell(s, k, i, j - 1);
      RowLegs(t, init, k, i, j - 1);
      RowSound(t, init, k, i, j - 1);
      CellLegs(s, init, k, i, j - 1);
    }
  }

  lemma {:induction false} PivotLegs(t: Tables, init: Matrix<int>, k: nat, i: nat)
    requires Sound(t, init) && LegsWithin(t) && k < |t.weight| && i <= |t.weight|
    ensures LegsWithin(RelaxPivot(t, k, i))
  {
    if i > 0 {
      var s := RelaxPivot(t, k, i - 1);
      assert RelaxPivot(t, k, i) == RelaxRow(s, k, i - 1, |t.weight|);
      PivotLegs(t, init, k, i - 1);
      PivotSound(t, init, k, i - 1);
      RowLegs(s, init, k, i - 1, |t.weight|);
    }
  }

  /** The triple loop keeps the legs of every next vertex within their cell. */
  lemma {:induction false} RelaxationLegs(t: Tables, init: Matrix<int>, k: nat)
    requires Sound(t, init) && LegsWithin(t) && k <= |t.weight|
    ensures LegsWithin(RelaxPivots(t, k))
  {
    if k > 0 {
      var s := RelaxPivots(t, k - 1);
      assert RelaxPivots(t, k) == RelaxPivot(s, k - 1, |t.weight|);
      RelaxationLegs(t, init, k - 1);
      RelaxationSound(t, init, k - 1);
      PivotLegs(s, init, k - 1, |t.weight|);
    }
  }

  /** The larger weight of the legs of every final next vertex is its cell's weight exactly. */
  lemma FinalLegsExact(links: Links)
    requires WellFormed(links)
    ensures LegsExact(Final(links))
  {
    InitialSound(links);
    assert LegsWithin(Initial(links));  // no next vertex is recorded yet
    RelaxationLegs(Initial(links), InitialWeights(links), |links|);
    FinalSound(links);
    FinalBottleneck(links);
  }

  /** When the legs are exact, the largest link weight of an extracted path is its cell's weight. */
  lemma {:induction false} ExtractBottleneck(links: Links, t: Tables, i: nat, j: nat, onStack: set<(nat, nat)>)
    requires Shaped(t) && ViaSound(t.weight, t.next) && DirectLinks(links, t.weight, t.next) && LegsExact(t)
    requires i < |t.weight| && j < |t.weight| && i != j && t.weight[i][j] != INF && onStack <= AllPairs(|t.weight|)
    requires Extract(t.weight, t.next, i, j, onStack).Some?
    ensures var p := [i] + Extract(t.weight, t.next, i, j, onStack).value + [j];
      IsWalk(links, p) && PathBottleneck(links, p) == t.weight[i][j]
    decreases AllPairs(|t.weight|) - onStack
  {
    var p := [i] + Extract(t.weight, t.next, i, j, onStack).value + [j];
    if t.next[i][j] == -1 {
      assert p == [i, j];
      assert Direct(t.weight, t.next, i, j);
    } else {
      var k: nat := t.next[i][j];
      assert (i, j) in AllPairs(|t.weight|);
      var inner := onStack + {(i, j)};
      var left, right := Extract(t.weight, t.next, i, k, inner).value, Extract(t.weight, t.next, k, j, inner).value;
      ExtractBottleneck(links, t, i, k, inner);
      ExtractBottleneck(links, t, k, j, inner);
      var u, v := [i] + left + [k], [k] + right + [j];
      BottleneckJoin(links, u, v);
      Splice(i, left, k, right, j);
    }
  }

  /** The final matrices: next vertices are proper with exact legs, and direct cells hold link weights. */
  lemma FinalPathFacts(links: Links)
    requires WellFormed(links)
    ensures var t := Final(links);
      ViaSound(t.weight, t.next) && LegsExact(t) && DirectLinks(links, t.weight, t.next)
  {
    var t := Final(links);
    FinalSound(links);
    FinalLegsExact(links);
    UntouchedDirectLinks(links, t.weight, t.next);
  }

  /**
   * When the legs are exact and direct cells hold link weights, every
   * returned path is a walk, and off the diagonal its largest link weight
   * is its cell's weight.
   */
  lemma PathsBottleneck(links: Links, t: Tables)
    requires |t.weight| == |links| && Shaped(t) && ViaSound(t.weight, t.next) && DirectLinks(links, t.weight, t.next) && LegsExact(t)
    ensures var r, n := Paths(t.weight, t.next), |links|;
      r.Some? ==>
        && IsSquare(r.value, n)
        && forall i, j :: 0 <= i < n && 0 <= j < n && r.value[i][j].Some? ==>
             var p := r.value[i][j].value;
             && IsWalk(links, p)
             && (i != j ==> |p| >= 2 && PathBottleneck(links, p) == t.weight[i][j])
  {
    var r, n := Paths(t.weight, t.next), |links|;
    PathsShape(t.weight, t.next);
    if r.Some? {
      forall i, j | 0 <= i < n && 0 <= j < n && r.value[i][j].Some?
        ensures var p := r.value[i][j].value;
          IsWalk(links, p) && (i != j ==> |p| >= 2 && PathBottleneck(links, p) == t.weight[i][j])
      {
        if i != j {
          ExtractBottleneck(links, t, i, j, {});
        } else {
          assert r.value[i][j].value == [i];
        }
      }
    }
  }

  /**
   * Every returned path is a walk of the graph, and between two different
   * vertices its largest link weight is the weight ws reports for them.
   */
  lemma MinimaxPathBottlenecks(links: Links)
    requires WellFormed(links)
    ensures var r, w, n := AllPairsMinimaxPaths(links), Final(links).weight, |links|;
      r.Some? ==>
        && IsSquare(r.value, n)
        && forall i, j :: 0 <= i < n && 0 <= j < n && r.value[i][j].Some? ==>
             var p := r.value[i][j].value;
             && IsWalk(links, p)
             && (i != j ==> |p| >= 2 && PathBottleneck(links, p) == w[i][j])
  {
    FinalPathFacts(links);
    PathsBottleneck(links, Final(links));
  }

  /** A walk of at least one link has a largest weight no smaller than the cell of its ends, when `w` keeps the bottleneck inequality. */
  lemma {:induction false} WalkBound(links: Links, w: Matrix<int>, p: seq<nat>)
    requires WellFormed(links) && IsSquare(w, |links|) && BottleneckThrough(w, |w|)
    requires forall a, b :: 0 <= a < |w| && 0 <= b < |w| ==> w[a][b] <= INF
    requires forall a, b :: 0 <= a < |links| && b in links[a] ==> w[a][b] <= links[a][b]
    requires IsWalk(links, p) && |p| >= 2
    ensures p[0] < |links| && p[|p| - 1] < |links| && w[p[0]][p[|p| - 1]] <= PathBottleneck(links, p)
    decreases |p|
  {
    var i, m, j := p[0], p[1], p[|p| - 1];
    assert IsLink(links, i, m) && IsLink(links, p[|p| - 2], j);
    if |p| > 2 {
      var rest := p[1..];
      assert IsWalk(links, rest);
      WalkBound(links, w, rest);
      assert rest[|rest| - 1] == j;
      if w[i][m] != INF && w[m][j] != INF {
        assert w[i][j] <= Max(w[i][m], w[m][j]);
      }
    }
  }

  /**
   * No walk of at least one link between two vertices has a smaller
   * largest weight than the final weight between them.
   */
  lemma FinalIsLeast(links: Links, p: seq<nat>)
    requires WellFormed(links)
    requires IsWalk(links, p) && |p| >= 2
    ensures p[0] < |links| && p[|p| - 1] < |links| && Final(links).weight[p[0]][p[|p| - 1]] <= PathBottleneck(links, p)
  {
    FinalSound(links);
    FinalBottleneck(links);
    FinalNoWorseThanLinks(links);
    WalkBound(links, Final(links).weight, p);
  }
}
