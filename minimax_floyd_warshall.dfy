/**
 * The class MinimaxFloydWarshall on int arrays: both searches, step by
 * step, each proved to return what the value model of its module
 * (ShortestPaths, MinimaxPaths) computes from the same links.
 */
module IntegerFloydWarshall {
  import opened Wrappers
  import opened Matrices
  import opened AllPairsPaths
  import SP = ShortestPaths
  import MM = MinimaxPaths

  /** The `ps` matrix of a search: `None` for a pair with no path (the source's null). */
  type PathArray = array2<Option<seq<nat>>>

  class MinimaxFloydWarshall {
    /** The adjacency maps, one per vertex. */
    const links: Links

    constructor(links: Links)
      ensures this.links == links
    {
      this.links := links;
    }

    // -------------------------------------------------------------------
    // findAllPairsShortestPaths
    // -------------------------------------------------------------------

    /**
     * The shortest paths between all pairs.  `None` stands for a search
     * whose path extraction never returns.
     */
    method FindAllPairsShortestPaths() returns (ps: Option<PathArray>)
      requires WellFormed(links)
      ensures ps.None? <==> SP.AllPairsShortestPaths(links).None?
      ensures ps.Some? ==> fresh(ps.value) && Mirrors(ps.value, SP.AllPairsShortestPaths(links).value)
    {
      var ds := InitialDistances();
      var ns := InitialNextVertices();
      RelaxShortest(ds, ns, SP.Initial(links));
      ghost var t := SP.Final(links);
      ps := ExtractPaths(ds, ns, t.dist, t.next);
    }

    /** ds before relaxation: every row filled with INF, then 0 on the diagonal, then the links. */
    method InitialDistances() returns (ds: array2<int>)
      requires WellFormed(links)
      ensures fresh(ds) && Mirrors(ds, InitialWeights(links))
    {
      var n := |links|;
      ds := new int[n, n]((i, j) => INF);
      for i := 0 to n
        invariant forall a, b :: 0 <= a < n && 0 <= b < n ==>
                    ds[a, b] == if a < i then InitialWeights(links)[a][b] else INF
      {
        InitialDistanceRow(ds, i);
      }
    }

    /** Row i of ds: 0 on the diagonal, then the weight of each link of vertex i. */
    method InitialDistanceRow(ds: array2<int>, i: nat)
      requires WellFormed(links) && i < |links| && ds.Length0 == ds.Length1 == |links|
      requires forall b :: 0 <= b < |links| ==> ds[i, b] == INF
      modifies ds
      ensures forall a, b :: 0 <= a < |links| && 0 <= b < |links| && a != i ==> ds[a, b] == old(ds[a, b])
      ensures forall b :: 0 <= b < |links| ==> ds[i, b] == InitialWeights(links)[i][b]
    {
      ds[i, i] := 0;
      var keys := links[i].Keys;
      while keys != {}
        invariant keys <= links[i].Keys
        invariant forall a, b :: 0 <= a < |links| && 0 <= b < |links| && a != i ==> ds[a, b] == old(ds[a, b])
        invariant forall b :: 0 <= b < |links| ==>
                    ds[i, b] == if b in links[i] && b !in keys then links[i][b] else if b == i then 0 else INF
        decreases keys
      {
        var j :| j in keys;
        ds[i, j] := links[i][j];
        keys := keys - {j};
      }
    }

    /** ns before relaxation: -1 everywhere. */
    method InitialNextVertices() returns (ns: array2<int>)
      ensures fresh(ns) && Mirrors(ns, InitialNext(|links|))
    {
      var n := |links|;
      ns := new int[n, n];
      for i := 0 to n
        invariant forall a, b :: 0 <= a < i && 0 <= b < n ==> ns[a, b] == -1
      {
        for j := 0 to n
          invariant forall a, b :: 0 <= a < i && 0 <= b < n ==> ns[a, b] == -1
          invariant forall b :: 0 <= b < j ==> ns[i, b] == -1
        {
          ns[i, j] := -1;
        }
      }
    }

    /** The triple loop over pivot k, row i and column j. */
    method RelaxShortest(ds: array2<int>, ns: array2<int>, ghost t: SP.Tables)
      requires ds != ns && SP.Shaped(t) && Mirrors(ds, t.dist) && Mirrors(ns, t.next)
      modifies ds, ns
      ensures Mirrors(ds, SP.RelaxPivots(t, |t.dist|).dist) && Mirrors(ns, SP.RelaxPivots(t, |t.dist|).next)
    {
      var n := ds.Length0;
      for k := 0 to n
        invariant Mirrors(ds, SP.RelaxPivots(t, k).dist) && Mirrors(ns, SP.RelaxPivots(t, k).next)
      {
        RelaxShortestPivot(ds, ns, SP.RelaxPivots(t, k), k);
      }
    }

    /** Every row through pivot k. */
    method RelaxShortestPivot(ds: array2<int>, ns: array2<int>, ghost t: SP.Tables, k: nat)
      requires ds != ns && SP.Shaped(t) && Mirrors(ds, t.dist) && Mirrors(ns, t.next) && k < |t.dist|
      modifies ds, ns
      ensures Mirrors(ds, SP.RelaxPivot(t, k, |t.dist|).dist) && Mirrors(ns, SP.RelaxPivot(t, k, |t.dist|).next)
    {
      var n := ds.Length0;
      for i := 0 to n
        invariant Mirrors(ds, SP.RelaxPivot(t, k, i).dist) && Mirrors(ns, SP.RelaxPivot(t, k, i).next)
      {
        RelaxShortestRow(ds, ns, SP.RelaxPivot(t, k, i), k, i);
      }
    }

    /** Every cell of row i through pivot k. */
    method RelaxShortestRow(ds: array2<int>, ns: array2<int>, ghost t: SP.Tables, k: nat, i: nat)
      requires ds != ns && SP.Shaped(t) && Mirrors(ds, t.dist) && Mirrors(ns, t.next) && k < |t.dist| && i < |t.dist|
      modifies ds, ns
      ensures Mirrors(ds, SP.RelaxRow(t, k, i, |t.dist|).dist) && Mirrors(ns, SP.RelaxRow(t, k, i, |t.dist|).next)
    {
      var n := ds.Length0;
      for j := 0 to n
        invariant Mirrors(ds, SP.RelaxRow(t, k, i, j).dist) && Mirrors(ns, SP.RelaxRow(t, k, i, j).next)
      {
        RelaxShortestCell(ds, ns, SP.RelaxRow(t, k, i, j), k, i, j);
      }
    }

    /** Cell (i, j) through pivot k: the body of the triple loop. */
    method RelaxShortestCell(ds: array2<int>, ns: array2<int>, ghost t: SP.Tables, k: nat, i: nat, j: nat)
      requires ds != ns && SP.Shaped(t) && Mirrors(ds, t.dist) && Mirrors(ns, t.next)
      requires k < |t.dist| && i < |t.dist| && j < |t.dist|
      modifies ds, ns
      ensures Mirrors(ds, SP.RelaxCell(t, k, i, j).dist) && Mirrors(ns, SP.RelaxCell(t, k, i, j).next)
    {
      SP.RelaxCellEffect(t, k, i, j);
      if ds[i, k] != INF && ds[k, j] != INF {
        var d := ds[i, k] + ds[k, j];
        if d < ds[i, j] {
          ds[i, j] := d;
          ns[i, j] := k;
        }
      }
    }

    // -------------------------------------------------------------------
    // findAllPairsMinimaxPaths
    // -------------------------------------------------------------------

    /**
     * The minimax paths between all pairs.  `None` stands for a search
     * whose path extraction never returns.
     */
    method FindAllPairsMinimaxPaths() returns (ps: Option<PathArray>)
      requires WellFormed(links)
      ensures ps.None? <==> MM.AllPairsMinimaxPaths(links).None?
      ensures ps.Some? ==> fresh(ps.value) && Mirrors(ps.value, MM.AllPairsMinimaxPaths(links).value)
    {
      var ws, ls := InitialWeightsAndLengths();
      var ns := InitialNextVertices();
      RelaxMinimax(ws, ls, ns, MM.Initial(links));
      ghost var t := MM.Final(links);
      ps := ExtractPaths(ws, ns, t.weight, t.next);
    }

    /** ws and ls before relaxation: INF everywhere, then 0 on the diagonal, then each link with length 1. */
    method InitialWeightsAndLengths() returns (ws: array2<int>, ls: array2<int>)
      requires WellFormed(links)
      ensures fresh(ws) && fresh(ls) && ws != ls
      ensures Mirrors(ws, InitialWeights(links)) && Mirrors(ls, InitialLengths(links))
    {
      var n := |links|;
      ws := new int[n, n]((i, j) => INF);
      ls := new int[n, n]((i, j) => INF);
      for i := 0 to n
        invariant forall a, b :: 0 <= a < n && 0 <= b < n ==>
                    ws[a, b] == if a < i then InitialWeights(links)[a][b] else INF
        invariant forall a, b :: 0 <= a < n && 0 <= b < n ==>
                    ls[a, b] == if a < i then InitialLengths(links)[a][b] else INF
      {
        InitialWeightAndLengthRow(ws, ls, i);
      }
    }

    /** Row i of ws and ls: 0 on the diagonal, then each link of vertex i with length 1. */
    method InitialWeightAndLengthRow(ws: array2<int>, ls: array2<int>, i: nat)
      requires WellFormed(links) && ws != ls && i < |links|
      requires ws.Length0 == ws.Length1 == ls.Length0 == ls.Length1 == |links|
      requires forall b :: 0 <= b < |links| ==> ws[i, b] == INF && ls[i, b] == INF
      modifies ws, ls
      ensures forall a, b :: 0 <= a < |links| && 0 <= b < |links| && a != i ==>
                ws[a, b] == old(ws[a, b]) && ls[a, b] == old(ls[a, b])
      ensures forall b :: 0 <= b < |links| ==>
                ws[i, b] == InitialWeights(links)[i][b] && ls[i, b] == InitialLengths(links)[i][b]
    {
      ws[i, i] := 0;
      ls[i, i] := 0;
      var keys := links[i].Keys;
      while keys != {}
        invariant keys <= links[i].Keys
        invariant forall a, b :: 0 <= a < |links| && 0 <= b < |links| && a != i ==>
                    ws[a, b] == old(ws[a, b]) && ls[a, b] == old(ls[a, b])
        invariant forall b :: 0 <= b < |links| ==>
                    ws[i, b] == if b in links[i] && b !in keys then links[i][b] else if b == i then 0 else INF
        invariant forall b :: 0 <= b < |links| ==>
                    ls[i, b] == if b in links[i] && b !in keys then 1 else if b == i then 0 else INF
        decreases keys
      {
        var j :| j in keys;
        ws[i, j] := links[i][j];
        ls[i, j] := 1;
        keys := keys - {j};
      }
    }

    /** The triple loop over pivot k, row i and column j. */
    method RelaxMinimax(ws: array2<int>, ls: array2<int>, ns: array2<int>, ghost t: MM.Tables)
      requires ws != ls && ws != ns && ls != ns && MM.Shaped(t)
      requires Mirrors(ws, t.weight) && Mirrors(ls, t.length) && Mirrors(ns, t.next)
      modifies ws, ls, ns
      ensures var r := MM.RelaxPivots(t, |t.weight|);
        Mirrors(ws, r.weight) && Mirrors(ls, r.length) && Mirrors(ns, r.next)
    {
      var n := ws.Length0;
      for k := 0 to n
        invariant var r := MM.RelaxPivots(t, k);
          Mirrors(ws, r.weight) && Mirrors(ls, r.length) && Mirrors(ns, r.next)
      {
        RelaxMinimaxPivot(ws, ls, ns, MM.RelaxPivots(t, k), k);
      }
    }

    /** Every row through pivot k. */
    method RelaxMinimaxPivot(ws: array2<int>, ls: array2<int>, ns: array2<int>, ghost t: MM.Tables, k: nat)
      requires ws != ls && ws != ns && ls != ns && MM.Shaped(t) && k < |t.weight|
      requires Mirrors(ws, t.weight) && Mirrors(ls, t.length) && Mirrors(ns, t.next)
      modifies ws, ls, ns
      ensures var r := MM.RelaxPivot(t, k, |t.weight|);
        Mirrors(ws, r.weight) && Mirrors(ls, r.length) && Mirrors(ns, r.next)
    {
      var n := ws.Length0;
      for i := 0 to n
        invariant var r := MM.RelaxPivot(t, k, i);
          Mirrors(ws, r.weight) && Mirrors(ls, r.length) && Mirrors(ns, r.next)
      {
        RelaxMinimaxRow(ws, ls, ns, MM.RelaxPivot(t, k, i), k, i);
      }
    }

    /** Every cell of row i through pivot k. */
    method RelaxMinimaxRow(ws: array2<int>, ls: array2<int>, ns: array2<int>, ghost t: MM.Tables, k: nat, i: nat)
      requires ws != ls && ws != ns && ls != ns && MM.Shaped(t) && k < |t.weight| && i < |t.weight|
      requires Mirrors(ws, t.weight) && Mirrors(ls, t.length) && Mirrors(ns, t.next)
      modifies ws, ls, ns
      ensures var r := MM.RelaxRow(t, k, i, |t.weight|);
        Mirrors(ws, r.weight) && Mirrors(ls, r.length) && Mirrors(ns, r.next)
    {
      var n := ws.Length0;
      for j := 0 to n
        invariant var r := MM.RelaxRow(t, k, i, j);
          Mirrors(ws, r.weight) && Mirrors(ls, r.length) && Mirrors(ns, r.next)
      {
        RelaxMinimaxCell(ws, ls, ns, MM.RelaxRow(t, k, i, j), k, i, j);
      }
    }

    /** Cell (i, j) through pivot k: the body of the triple loop. */
    method RelaxMinimaxCell(ws: array2<int>, ls: array2<int>, ns: array2<int>, ghost t: MM.Tables, k: nat, i: nat, j: nat)
      requires ws != ls && ws != ns && ls != ns && MM.Shaped(t)
      requires k < |t.weight| && i < |t.weight| && j < |t.weight|
      requires Mirrors(ws, t.weight) && Mirrors(ls, t.length) && Mirrors(ns, t.next)
      modifies ws, ls, ns
      ensures var r := MM.RelaxCell(t, k, i, j);
        Mirrors(ws, r.weight) && Mirrors(ls, r.length) && Mirrors(ns, r.next)
    {
      MM.RelaxCellEffect(t, k, i, j);
      if ws[i, k] != INF && ws[k, j] != INF {
        var w := MM.Max(ws[i, k], ws[k, j]);
        var l := ls[i, k] + ls[k, j];
        if w < ws[i, j] || (w == ws[i, j] && l < ls[i, j]) {
          ws[i, j] := w;
          ls[i, j] := l;
          ns[i, j] := k;
        }
      }
    }

    // -------------------------------------------------------------------
    // Path extraction, shared by both searches
    // -------------------------------------------------------------------

    /**
     * The loop that fills `ps`: null where `dist` is INF, else i, then for
     * i != j what `extract` appends, then j.  `None` when some extraction
     * never returns.
     */
    method ExtractPaths(dist: array2<int>, next: array2<int>, ghost dm: Matrix<int>, ghost nm: Matrix<int>)
      returns (ps: Option<PathArray>)
      requires Tabled(dm, nm) && Mirrors(dist, dm) && Mirrors(next, nm)
      ensures ps.None? <==> Paths(dm, nm).None?
      ensures ps.Some? ==> fresh(ps.value) && Mirrors(ps.value, Paths(dm, nm).value)
    {
      var n := dist.Length0;
      var cells := new Option<seq<nat>>[n, n]((i, j) => None);
      for i := 0 to n
        invariant forall a, b :: 0 <= a < i && 0 <= b < n ==>
                    PathCell(dm, nm, a, b).Some? && cells[a, b] == PathCell(dm, nm, a, b).value
      {
        var ok := ExtractRow(dist, next, dm, nm, cells, i);
        if !ok {
          return None;
        }
      }
      return Some(cells);
    }

    /** Row i of `ps`; false when some extraction of the row never returns. */
    method ExtractRow(dist: array2<int>, next: array2<int>, ghost dm: Matrix<int>, ghost nm: Matrix<int>,
                      cells: PathArray, i: nat) returns (ok: bool)
      requires Tabled(dm, nm) && Mirrors(dist, dm) && Mirrors(next, nm)
      requires cells.Length0 == |dm| && cells.Length1 == |dm| && i < |dm|
      modifies cells
      ensures forall a, b :: 0 <= a < |dm| && 0 <= b < |dm| && a != i ==> cells[a, b] == old(cells[a, b])
      ensures ok ==> forall b :: 0 <= b < |dm| ==> PathCell(dm, nm, i, b).Some? && cells[i, b] == PathCell(dm, nm, i, b).value
      ensures !ok ==> exists b :: 0 <= b < |dm| && PathCell(dm, nm, i, b).None?
    {
      var n := dist.Length0;
      assert dist.Length1 == |dm[i]| == n;
      for j := 0 to n
        invariant forall a, b :: 0 <= a < n && 0 <= b < n && a != i ==> cells[a, b] == old(cells[a, b])
        invariant forall b :: 0 <= b < j ==> PathCell(dm, nm, i, b).Some? && cells[i, b] == PathCell(dm, nm, i, b).value
      {
        if dist[i, j] == INF {
          cells[i, j] := None;
        } else {
          var path := [i];
          if i != j {
            var r := Extract(dist, next, dm, nm, path, i, j, {});
            if r.None? {
              assert PathCell(dm, nm, i, j).None?;
              return false;
            }
            path := r.value + [j];
          }
          cells[i, j] := Some(path);
        }
      }
      return true;
    }

    /**
     * `extract(path, i, j)`: `path` followed by what the recursion appends,
     * or `None` when the call for (i, j) repeats one already on `onStack`
     * and so never returns.
     */
    method Extract(dist: array2<int>, next: array2<int>, ghost dm: Matrix<int>, ghost nm: Matrix<int>,
                   path: seq<nat>, i: nat, j: nat, onStack: set<(nat, nat)>) returns (r: Option<seq<nat>>)
      requires Tabled(dm, nm) && Mirrors(dist, dm) && Mirrors(next, nm)
      requires i < |dm| && j < |dm| && onStack <= AllPairs(|dm|)
      ensures r == match AllPairsPaths.Extract(dm, nm, i, j, onStack)
                   case None => None
                   case Some(mid) => Some(path + mid)
      decreases AllPairs(|dm|) - onStack
    {
      assert dist.Length1 == next.Length1 == |dm[i]| == |dm|;
      assert dist[i, j] == dm[i][j] && next[i, j] == nm[i][j];
      if dist[i, j] == INF {
        assert path + [] == path;
        return Some(path);
      }
      var k := next[i, j];
      if k == -1 {
        assert path + [] == path;
        return Some(path);
      }
      if (i, j) in onStack {
        return None;
      }
      assert (i, j) in AllPairs(|dm|);
      var inner := onStack + {(i, j)};
      var left := Extract(dist, next, dm, nm, path, i, k, inner);
      if left.None? {
        return None;
      }
      r := Extract(dist, next, dm, nm, left.value + [k], k, j, inner);
      ghost var e := AllPairsPaths.Extract(dm, nm, i, j, onStack);
      if r.Some? {
        ghost var mid := AllPairsPaths.Extract(dm, nm, i, k, inner).value;
        ghost var right := AllPairsPaths.Extract(dm, nm, k, j, inner).value;
        assert e == Some(mid + [k] + right);
        assert r.value == path + (mid + [k] + right);
      }
    }
  }
}
