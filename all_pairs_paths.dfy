/**
 * What the two integer all-pairs searches of MinimaxFloydWarshall.java share:
 * the adjacency-list input, the initial matrices, and the extraction of paths
 * from the next-vertex matrix.
 *
 * A distance (or weight) of `INF` means "no path".  A next-vertex entry of -1
 * means "no intermediate vertex": the path is a direct link (or the lone
 * vertex on the diagonal).  Otherwise it is the vertex `k` through which the
 * path runs, and extraction recursively splices the paths i -> k and k -> j.
 */
module AllPairsPaths {
  import opened Wrappers
  import opened Matrices

  /** Integer.MAX_VALUE, the "no path" sentinel. */
  const INF: int := 0x7fff_ffff

  /** Integer.MIN_VALUE. */
  const MIN_INT: int := -0x8000_0000

  /** links[i] maps each direct successor of vertex i to the weight of the link. */
  type Links = seq<map<nat, int>>

  /** Every link ends at a vertex of the graph and carries a Java int. */
  ghost predicate WellFormed(links: Links) {
    forall i :: 0 <= i < |links| ==> forall j :: j in links[i] ==> j < |links| && MIN_INT <= links[i][j] <= INF
  }

  /** Every link weight is non-negative. */
  ghost predicate NonNegative(links: Links) {
    forall i :: 0 <= i < |links| ==> forall j :: j in links[i] ==> links[i][j] >= 0
  }

  /** The weight of the link i -> j, else 0 on the diagonal, else INF: ds and ws before relaxation. */
  function InitialWeights(links: Links): (m: Matrix<int>)
    ensures IsSquare(m, |links|)
  {
    Tabulate(|links|, (i: nat, j: nat) => if i < |links| && j in links[i] then links[i][j] else if i == j then 0 else INF)
  }

  /** 1 for a link i -> j, else 0 on the diagonal, else INF: ls before relaxation. */
  function InitialLengths(links: Links): (m: Matrix<int>)
    ensures IsSquare(m, |links|)
  {
    Tabulate(|links|, (i: nat, j: nat) => if i < |links| && j in links[i] then 1 else if i == j then 0 else INF)
  }

  /** -1 everywhere: ns before relaxation. */
  function InitialNext(n: nat): (m: Matrix<int>)
    ensures IsSquare(m, n)
  {
    Tabulate(n, (i, j) => -1)
  }

  /** The two matrices are n-by-n and every next vertex is -1 or a vertex. */
  ghost predicate Tabled(dist: Matrix<int>, next: Matrix<int>) {
    && IsSquare(dist, |dist|)
    && IsSquare(next, |dist|)
    && forall i, j :: 0 <= i < |dist| && 0 <= j < |dist| ==> -1 <= next[i][j] < |dist|
  }

  /** All pairs of vertices: the possible arguments of a call to `extract`. */
  ghost function AllPairs(n: nat): set<(nat, nat)> {
    set i, j | 0 <= i < n && 0 <= j < n :: (i, j)
  }

  // ---------------------------------------------------------------------
  // Path extraction
  // ---------------------------------------------------------------------

  /**
   * What `extract(path, i, j)` appends to `path`.  `onStack` holds the
   * argument pairs of the calls in progress.  A call whose own pair is
   * already in progress repeats that call's computation exactly, so the
   * recursion of the source never returns (a StackOverflowError): `None`.
   * Lemmas ExtractReturns and ExtractDiverges tie this to the source's
   * recursion with a bounded stack, ExtractByDepth.
   */
  function Extract(dist: Matrix<int>, next: Matrix<int>, i: nat, j: nat, onStack: set<(nat, nat)>): (r: Option<seq<nat>>)
    requires Tabled(dist, next) && i < |dist| && j < |dist| && onStack <= AllPairs(|dist|)
    ensures r.Some? ==> forall t :: 0 <= t < |r.value| ==> r.value[t] < |dist|
    decreases AllPairs(|dist|) - onStack
  {
    if dist[i][j] == INF || next[i][j] == -1 then Some([])
    else if (i, j) in onStack then None
    else
      var k := next[i][j];
      assert (i, j) in AllPairs(|dist|);
      var inner := onStack + {(i, j)};
      match Extract(dist, next, i, k, inner)
      case None => None
      case Some(left) =>
        match Extract(dist, next, k, j, inner)
        case None => None
        case Some(right) => Some(left + [k] + right)
  }

  /**
   * The recursion of the source run with room for `depth` nested calls:
   * `None` when it needs more.
   */
  ghost function ExtractByDepth(dist: Matrix<int>, next: Matrix<int>, i: nat, j: nat, depth: nat): Option<seq<nat>>
    requires Tabled(dist, next) && i < |dist| && j < |dist|
    decreases depth
  {
    if depth == 0 then None
    else if dist[i][j] == INF || next[i][j] == -1 then Some([])
    else
      var k := next[i][j];
      match ExtractByDepth(dist, next, i, k, depth - 1)
      case None => None
      case Some(left) =>
        match ExtractByDepth(dist, next, k, j, depth - 1)
        case None => None
        case Some(right) => Some(left + [k] + right)
  }

  /** The cell of `ps` for (i, j), or `None` when extracting it never returns. */
  function PathCell(dist: Matrix<int>, next: Matrix<int>, i: nat, j: nat): Option<Option<seq<nat>>>
    requires Tabled(dist, next) && i < |dist| && j < |dist|
  {
    if dist[i][j] == INF then Some(None)
    else if i == j then Some(Some([i]))
    else
      match Extract(dist, next, i, j, {})
      case None => None
      case Some(mid) => Some(Some([i] + mid + [j]))
  }

  /** The matrix `ps` the search returns, or `None` when some extraction never returns. */
  function Paths(dist: Matrix<int>, next: Matrix<int>): Option<Matrix<Option<seq<nat>>>>
    requires Tabled(dist, next)
  {
    var n := |dist|;
    if forall i, j :: 0 <= i < n && 0 <= j < n ==> PathCell(dist, next, i, j).Some?
    then Some(seq(n, (i: int) requires 0 <= i < n =>
                seq(n, (j: int) requires 0 <= j < n => PathCell(dist, next, i, j).value)))
    else None
  }

  // ---------------------------------------------------------------------
  // The recursion of the source and the model agree
  // ---------------------------------------------------------------------

  lemma CardinalityStep(n: nat, onStack: set<(nat, nat)>, c: (nat, nat))
    requires onStack <= AllPairs(n) && c in AllPairs(n) && c !in onStack
    ensures |AllPairs(n) - (onStack + {c})| + 1 == |AllPairs(n) - onStack|
  {
    var rest := AllPairs(n) - (onStack + {c});
    assert AllPairs(n) - onStack == rest + {c};
  }

  /** When the model returns a path, so does the source, given a stack as deep as the untried pairs. */
  lemma {:induction false} ExtractReturns(dist: Matrix<int>, next: Matrix<int>, i: nat, j: nat, onStack: set<(nat, nat)>, depth: nat)
    requires Tabled(dist, next) && i < |dist| && j < |dist| && onStack <= AllPairs(|dist|)
    requires Extract(dist, next, i, j, onStack).Some?
    requires depth > |AllPairs(|dist|) - onStack|
    ensures ExtractByDepth(dist, next, i, j, depth) == Extract(dist, next, i, j, onStack)
    decreases AllPairs(|dist|) - onStack
  {
    if dist[i][j] != INF && next[i][j] != -1 {
      var k := next[i][j];
      assert (i, j) in AllPairs(|dist|);
      var inner := onStack + {(i, j)};
      CardinalityStep(|dist|, onStack, (i, j));
      ExtractReturns(dist, next, i, k, inner, depth - 1);
      ExtractReturns(dist, next, k, j, inner, depth - 1);
    }
  }

  /**
   * When the model reports that extraction never returns and the source
   * nevertheless returns within `depth` nested calls, one of the calls in
   * progress returns within `depth` nested calls too.
   */
  lemma {:induction false} DivergenceBlamesStack(dist: Matrix<int>, next: Matrix<int>, i: nat, j: nat, onStack: set<(nat, nat)>, depth: nat)
    requires Tabled(dist, next) && i < |dist| && j < |dist| && onStack <= AllPairs(|dist|)
    requires Extract(dist, next, i, j, onStack).None?
    requires ExtractByDepth(dist, next, i, j, depth).Some?
    ensures exists c, d: nat :: c in onStack && d <= depth && ExtractByDepth(dist, next, c.0, c.1, d).Some?
    decreases depth
  {
    assert dist[i][j] != INF && next[i][j] != -1;
    if (i, j) in onStack {
      assert (i, j) in onStack && depth <= depth && ExtractByDepth(dist, next, i, j, depth).Some?;
    } else {
      var k := next[i][j];
      var inner := onStack + {(i, j)};
      assert ExtractByDepth(dist, next, i, k, depth - 1).Some? && ExtractByDepth(dist, next, k, j, depth - 1).Some?;
      var c: (nat, nat), d: nat;
      if Extract(dist, next, i, k, inner).None? {
        DivergenceBlamesStack(dist, next, i, k, inner, depth - 1);
        c, d :| c in inner && d <= depth - 1 && ExtractByDepth(dist, next, c.0, c.1, d).Some?;
      } else {
        DivergenceBlamesStack(dist, next, k, j, inner, depth - 1);
        c, d :| c in inner && d <= depth - 1 && ExtractByDepth(dist, next, c.0, c.1, d).Some?;
      }
      if c == (i, j) {
        DivergenceBlamesStack(dist, next, i, j, onStack, d);
      } else {
        assert c in onStack;
      }
    }
  }

  /** When the model reports that extraction never returns, the source returns with no stack depth at all. */
  lemma ExtractDiverges(dist: Matrix<int>, next: Matrix<int>, i: nat, j: nat, depth: nat)
    requires Tabled(dist, next) && i < |dist| && j < |dist|
    requires Extract(dist, next, i, j, {}).None?
    ensures ExtractByDepth(dist, next, i, j, depth).None?
  {
    if ExtractByDepth(dist, next, i, j, depth).Some? {
      DivergenceBlamesStack(dist, next, i, j, {}, depth);
    }
  }

  // ---------------------------------------------------------------------
  // Properties of the extracted paths
  // ---------------------------------------------------------------------

  /**
   * A cell of `ps` is null exactly when its distance is INF; a path runs from
   * i to j over vertices of the graph, and from i to itself it is [i] alone.
   */
  lemma PathsShape(dist: Matrix<int>, next: Matrix<int>)
    requires Tabled(dist, next)
    ensures var r, n := Paths(dist, next), |dist|;
      r.Some? ==>
        && IsSquare(r.value, n)
        && forall i, j :: 0 <= i < n && 0 <= j < n ==>
             && (r.value[i][j].None? <==> dist[i][j] == INF)
             && (r.value[i][j].Some? ==>
                   var p := r.value[i][j].value;
                   && |p| > 0 && p[0] == i && p[|p| - 1] == j
                   && (i == j ==> p == [i])
                   && forall t :: 0 <= t < |p| ==> p[t] < n)
  {
  }

  /**
   * Every next vertex names a proper intermediate vertex: it is neither end
   * of its pair, and both halves through it have a path.
   */
  ghost predicate ViaSound(dist: Matrix<int>, next: Matrix<int>)
    requires Tabled(dist, next)
  {
    forall i, j {:trigger next[i][j]} :: 0 <= i < |dist| && 0 <= j < |dist| && next[i][j] != -1 ==>
      next[i][j] != i && next[i][j] != j && dist[i][next[i][j]] != INF && dist[next[i][j]][j] != INF
  }

  /** Every cell without a next vertex still holds its initial value. */
  ghost predicate Untouched(dist: Matrix<int>, next: Matrix<int>, init: Matrix<int>)
    requires Tabled(dist, next) && IsSquare(init, |dist|)
  {
    forall i, j {:trigger next[i][j]} :: 0 <= i < |dist| && 0 <= j < |dist| && next[i][j] == -1 ==> dist[i][j] == init[i][j]
  }

  /** Vertices a and b differ, and their cell has a path and no next vertex. */
  ghost predicate Direct(dist: Matrix<int>, next: Matrix<int>, a: nat, b: nat)
    requires Tabled(dist, next)
  {
    a < |dist| && b < |dist| && a != b && next[a][b] == -1 && dist[a][b] != INF
  }

  /** Each step of `w` is direct. */
  ghost predicate DirectHops(dist: Matrix<int>, next: Matrix<int>, w: seq<nat>)
    requires Tabled(dist, next)
  {
    forall t :: 0 <= t < |w| - 1 ==> Direct(dist, next, w[t], w[t + 1])
  }

  lemma HopsJoin(dist: Matrix<int>, next: Matrix<int>, u: seq<nat>, v: seq<nat>)
    requires Tabled(dist, next) && |u| > 0 && |v| > 0 && u[|u| - 1] == v[0]
    requires DirectHops(dist, next, u) && DirectHops(dist, next, v)
    ensures DirectHops(dist, next, u + v[1..])
  {
    var w := u + v[1..];
    forall t | 0 <= t < |w| - 1
      ensures Direct(dist, next, w[t], w[t + 1])
    {
      if t < |u| - 1 {
        assert w[t] == u[t] && w[t + 1] == u[t + 1];
      } else {
        var s := t - (|u| - 1);
        assert w[t] == v[s] && w[t + 1] == v[s + 1];
      }
    }
  }

  /** The path through k is the path to k joined to the path from k. */
  lemma Splice(i: nat, left: seq<nat>, k: nat, right: seq<nat>, j: nat)
    ensures ([i] + left + [k]) + ([k] + right + [j])[1..] == [i] + (left + [k] + right) + [j]
  {
    assert ([k] + right + [j])[1..] == right + [j];
  }

  /** When every next vertex is sound, an extracted path steps only along cells with no next vertex. */
  lemma {:induction false} ExtractHops(dist: Matrix<int>, next: Matrix<int>, i: nat, j: nat, onStack: set<(nat, nat)>)
    requires Tabled(dist, next) && ViaSound(dist, next)
    requires i < |dist| && j < |dist| && i != j && dist[i][j] != INF && onStack <= AllPairs(|dist|)
    requires Extract(dist, next, i, j, onStack).Some?
    ensures DirectHops(dist, next, [i] + Extract(dist, next, i, j, onStack).value + [j])
    decreases AllPairs(|dist|) - onStack
  {
    if next[i][j] == -1 {
      assert [i] + Extract(dist, next, i, j, onStack).value + [j] == [i, j];
    } else {
      var k: nat := next[i][j];
      assert (i, j) in AllPairs(|dist|);
      var inner := onStack + {(i, j)};
      var left, right := Extract(dist, next, i, k, inner).value, Extract(dist, next, k, j, inner).value;
      ExtractHops(dist, next, i, k, inner);
      ExtractHops(dist, next, k, j, inner);
      var u, v := [i] + left + [k], [k] + right + [j];
      HopsJoin(dist, next, u, v);
      assert u + v[1..] == [i] + Extract(dist, next, i, j, onStack).value + [j];
    }
  }

  /** There is a link from a to b. */
  ghost predicate IsLink(links: Links, a: nat, b: nat) {
    a < |links| && b in links[a]
  }

  /** Every step of `p` is a link of the graph. */
  ghost predicate IsWalk(links: Links, p: seq<nat>) {
    forall t :: 0 <= t < |p| - 1 ==> IsLink(links, p[t], p[t + 1])
  }

  /** Every direct cell is a link of the graph and holds that link's weight. */
  ghost predicate DirectLinks(links: Links, dist: Matrix<int>, next: Matrix<int>)
    requires Tabled(dist, next)
  {
    forall a: nat, b: nat :: Direct(dist, next, a, b) ==> IsLink(links, a, b) && dist[a][b] == links[a][b]
  }

  /** When every cell without a next vertex holds its initial weight, every direct cell holds a link's weight. */
  lemma UntouchedDirectLinks(links: Links, dist: Matrix<int>, next: Matrix<int>)
    requires |dist| == |links| && Tabled(dist, next) && Untouched(dist, next, InitialWeights(links))
    ensures DirectLinks(links, dist, next)
  {
    forall a: nat, b: nat | Direct(dist, next, a, b)
      ensures IsLink(links, a, b) && dist[a][b] == links[a][b]
    {
      assert dist[a][b] == InitialWeights(links)[a][b];
    }
  }

  /**
   * When every next vertex is sound and every cell without one still holds
   * its initial weight, every step of every returned path is a link of the
   * graph.  Nothing here says the path visits each vertex once.
   */
  lemma PathsFollowLinks(links: Links, dist: Matrix<int>, next: Matrix<int>)
    requires |dist| == |links| && Tabled(dist, next) && ViaSound(dist, next)
    requires Untouched(dist, next, InitialWeights(links))
    ensures var r := Paths(dist, next);
      r.Some? ==> forall i, j :: 0 <= i < |links| && 0 <= j < |links| && r.value[i][j].Some? ==>
        var p := r.value[i][j].value;
        forall t :: 0 <= t < |p| - 1 ==> IsLink(links, p[t], p[t + 1])
  {
    var r := Paths(dist, next);
    if r.Some? {
      forall i, j | 0 <= i < |links| && 0 <= j < |links| && r.value[i][j].Some?
        ensures var p := r.value[i][j].value;
          forall t :: 0 <= t < |p| - 1 ==> IsLink(links, p[t], p[t + 1])
      {
        if i != j {
          ExtractHops(dist, next, i, j, {});
        }
      }
    }
  }
}
