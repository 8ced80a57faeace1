/**
 * A five-vertex graph on which the minimax search returns a path that
 * visits a vertex twice, as the doc comment of findAllPairsMinimaxPaths
 * warns.
 *
 * The members are the steps of this one worked example, with no source
 * lines of their own:
 *   - ExampleLinks is the graph and Stage0 .. Stage5 are the matrices
 *     before relaxation and after each pivot;
 *   - Pivot0 .. Pivot4 and After1 .. After4 check one pivot at a time;
 *   - SameTables and PhaseCells compare matrices cell by cell;
 *   - Stage5ExtractsFrom0And4, Stage5CellsReturn, ExampleWellFormed and
 *     RepeatedPathWalk are the facts the path lemmas at the end use.
 */
module MinimaxExample {
  import opened Wrappers
  import opened Matrices
  import opened AllPairsPaths
  import opened MinimaxPaths

  /** Links 0 -> 2 (weight 2), 0 -> 4 (1), 1 -> 0 (3), 2 -> 3 (1), 3 -> 2 (1) and 4 -> 3 (1). */
  function ExampleLinks(): Links {
    [map[2 := 2, 4 := 1], map[0 := 3], map[3 := 1], map[2 := 1], map[3 := 1]]
  }

  /** The matrices before relaxation. */
  function Stage0(): Tables {
    Tables([[0, INF, 2, INF, 1],
            [3, 0, INF, INF, INF],
            [INF, INF, 0, 1, INF],
            [INF, INF, 1, 0, INF],
            [INF, INF, INF, 1, 0]],
           [[0, INF, 1, INF, 1],
            [1, 0, INF, INF, INF],
            [INF, INF, 0, 1, INF],
            [INF, INF, 1, 0, INF],
            [INF, INF, INF, 1, 0]],
           [[-1, -1, -1, -1, -1],
            [-1, -1, -1, -1, -1],
            [-1, -1, -1, -1, -1],
            [-1, -1, -1, -1, -1],
            [-1, -1, -1, -1, -1]])
  }

  /** The matrices after pivots 0 .. 0. */
  function Stage1(): Tables {
    Tables([[0, INF, 2, INF, 1],
            [3, 0, 3, INF, 3],
            [INF, INF, 0, 1, INF],
            [INF, INF, 1, 0, INF],
            [INF, INF, INF, 1, 0]],
           [[0, INF, 1, INF, 1],
            [1, 0, 2, INF, 2],
            [INF, INF, 0, 1, INF],
            [INF, INF, 1, 0, INF],
            [INF, INF, INF, 1, 0]],
           [[-1, -1, -1, -1, -1],
            [-1, -1, 0, -1, 0],
            [-1, -1, -1, -1, -1],
            [-1, -1, -1, -1, -1],
            [-1, -1, -1, -1, -1]])
  }

  /** The matrices after pivots 0 .. 1. */
  function Stage2(): Tables {
    Tables([[0, INF, 2, INF, 1],
            [3, 0, 3, INF, 3],
            [INF, INF, 0, 1, INF],
            [INF, INF, 1, 0, INF],
            [INF, INF, INF, 1, 0]],
           [[0, INF, 1, INF, 1],
            [1, 0, 2, INF, 2],
            [INF, INF, 0, 1, INF],
            [INF, INF, 1, 0, INF],
            [INF, INF, INF, 1, 0]],
           [[-1, -1, -1, -1, -1],
            [-1, -1, 0, -1, 0],
            [-1, -1, -1, -1, -1],
            [-1, -1, -1, -1, -1],
            [-1, -1, -1, -1, -1]])
  }

  /** The matrices after pivots 0 .. 2. */
  function Stage3(): Tables {
    Tables([[0, INF, 2, 2, 1],
            [3, 0, 3, 3, 3],
            [INF, INF, 0, 1, INF],
            [INF, INF, 1, 0, INF],
            [INF, INF, INF, 1, 0]],
           [[0, INF, 1, 2, 1],
            [1, 0, 2, 3, 2],
            [INF, INF, 0, 1, INF],
            [INF, INF, 1, 0, INF],
            [INF, INF, INF, 1, 0]],
           [[-1, -1, -1, 2, -1],
            [-1, -1, 0, 2, 0],
            [-1, -1, -1, -1, -1],
            [-1, -1, -1, -1, -1],
            [-1, -1, -1, -1, -1]])
  }

  /** The matrices after pivots 0 .. 3. */
  function Stage4(): Tables {
    Tables([[0, INF, 2, 2, 1],
            [3, 0, 3, 3, 3],
            [INF, INF, 0, 1, INF],
            [INF, INF, 1, 0, INF],
            [INF, INF, 1, 1, 0]],
           [[0, INF, 1, 2, 1],
            [1, 0, 2, 3, 2],
            [INF, INF, 0, 1, INF],
            [INF, INF, 1, 0, INF],
            [INF, INF, 2, 1, 0]],
           [[-1, -1, -1, 2, -1],
            [-1, -1, 0, 2, 0],
            [-1, -1, -1, -1, -1],
            [-1, -1, -1, -1, -1],
            [-1, -1, 3, -1, -1]])
  }

  /** The matrices after pivots 0 .. 4. */
  function Stage5(): Tables {
    Tables([[0, INF, 1, 1, 1],
            [3, 0, 3, 3, 3],
            [INF, INF, 0, 1, INF],
            [INF, INF, 1, 0, INF],
            [INF, INF, 1, 1, 0]],
           [[0, INF, 3, 2, 1],
            [1, 0, 2, 3, 2],
            [INF, INF, 0, 1, INF],
            [INF, INF, 1, 0, INF],
            [INF, INF, 2, 1, 0]],
           [[-1, -1, 4, 4, -1],
            [-1, -1, 0, 2, 0],
            [-1, -1, -1, -1, -1],
            [-1, -1, -1, -1, -1],
            [-1, -1, 3, -1, -1]])
  }

  /** Two tables with the same shape and the same cells are equal. */
  lemma SameTables(p: Tables, s: Tables)
    requires Shaped(p) && IsSquare(s.weight, |p.weight|) && IsSquare(s.length, |p.weight|) && IsSquare(s.next, |p.weight|)
    requires forall a, b :: 0 <= a < |p.weight| && 0 <= b < |p.weight| ==>
      p.weight[a][b] == s.weight[a][b] && p.length[a][b] == s.length[a][b] && p.next[a][b] == s.next[a][b]
    ensures p == s
  {
    SameMatrix(p.weight, s.weight, |p.weight|);
    SameMatrix(p.length, s.length, |p.weight|);
    SameMatrix(p.next, s.next, |p.weight|);
  }

  /** The initial matrices of the example. */
  lemma InitialIsStage0(links: Links)
    requires links == ExampleLinks()
    ensures Initial(links) == Stage0()
  {
    var p, s := Initial(links), Stage0();
    forall a, b | 0 <= a < 5 && 0 <= b < 5
      ensures p.weight[a][b] == s.weight[a][b] && p.length[a][b] == s.length[a][b] && p.next[a][b] == s.next[a][b]
    {
      assert a == 0 || a == 1 || a == 2 || a == 3 || a == 4;
      assert b == 0 || b == 1 || b == 2 || b == 3 || b == 4;
    }
    SameTables(p, s);
  }

  /** The cells of Phase(t, k), one by one. */
  lemma PhaseCells(t: Tables, k: nat)
    requires Shaped(t) && k < |t.weight|
    ensures var p, n := Phase(t, k), |t.weight|;
      && IsSquare(p.weight, n) && IsSquare(p.length, n) && IsSquare(p.next, n)
      && forall a, b :: 0 <= a < n && 0 <= b < n ==>
           p.weight[a][b] == PhaseWeight(t, k, a, b) && p.length[a][b] == PhaseLength(t, k, a, b)
           && p.next[a][b] == PhaseNext(t, k, a, b)
  {
  }

  /** Pivot k takes t to s when every cell of s is what the pivot computes from t. */
  lemma PivotStep(t: Tables, k: nat, s: Tables)
    requires Shaped(t) && k < |t.weight| && t.length[k][k] >= 0
    requires IsSquare(s.weight, |t.weight|) && IsSquare(s.length, |t.weight|) && IsSquare(s.next, |t.weight|)
    requires forall a, b :: 0 <= a < |t.weight| && 0 <= b < |t.weight| ==>
      PhaseWeight(t, k, a, b) == s.weight[a][b] && PhaseLength(t, k, a, b) == s.length[a][b] && PhaseNext(t, k, a, b) == s.next[a][b]
    ensures RelaxPivot(t, k, |t.weight|) == s
  {
    PivotIsPhase(t, k);
    PhaseCells(t, k);
    SameTables(Phase(t, k), s);
  }

  /** Pivot 0 takes Stage0 to Stage1. */
  lemma Pivot0(t: Tables, s: Tables)
    requires t == Stage0() && s == Stage1() && Shaped(t)
    ensures RelaxPivot(t, 0, 5) == s
  {
    forall a, b | 0 <= a < 5 && 0 <= b < 5
      ensures PhaseWeight(t, 0, a, b) == s.weight[a][b] && PhaseLength(t, 0, a, b) == s.length[a][b]
              && PhaseNext(t, 0, a, b) == s.next[a][b]
    {
      assert a == 0 || a == 1 || a == 2 || a == 3 || a == 4;
      assert b == 0 || b == 1 || b == 2 || b == 3 || b == 4;
    }
    PivotStep(t, 0, s);
  }

  /** Pivot 1 takes Stage1 to Stage2. */
  lemma Pivot1(t: Tables, s: Tables)
    requires t == Stage1() && s == Stage2() && Shaped(t)
    ensures RelaxPivot(t, 1, 5) == s
  {
    forall a, b | 0 <= a < 5 && 0 <= b < 5
      ensures PhaseWeight(t, 1, a, b) == s.weight[a][b] && PhaseLength(t, 1, a, b) == s.length[a][b]
              && PhaseNext(t, 1, a, b) == s.next[a][b]
    {
      assert a == 0 || a == 1 || a == 2 || a == 3 || a == 4;
      assert b == 0 || b == 1 || b == 2 || b == 3 || b == 4;
    }
    PivotStep(t, 1, s);
  }

  /** Pivot 2 takes Stage2 to Stage3. */
  lemma Pivot2(t: Tables, s: Tables)
    requires t == Stage2() && s == Stage3() && Shaped(t)
    ensures RelaxPivot(t, 2, 5) == s
  {
    forall a, b | 0 <= a < 5 && 0 <= b < 5
      ensures PhaseWeight(t, 2, a, b) == s.weight[a][b] && PhaseLength(t, 2, a, b) == s.length[a][b]
              && PhaseNext(t, 2, a, b) == s.next[a][b]
    {
      assert a == 0 || a == 1 || a == 2 || a == 3 || a == 4;
      assert b == 0 || b == 1 || b == 2 || b == 3 || b == 4;
    }
    PivotStep(t, 2, s);
  }

  /** Pivot 3 takes Stage3 to Stage4. */
  lemma Pivot3(t: Tables, s: Tables)
    requires t == Stage3() && s == Stage4() && Shaped(t)
    ensures RelaxPivot(t, 3, 5) == s
  {
    forall a, b | 0 <= a < 5 && 0 <= b < 5
      ensures PhaseWeight(t, 3, a, b) == s.weight[a][b] && PhaseLength(t, 3, a, b) == s.length[a][b]
              && PhaseNext(t, 3, a, b) == s.next[a][b]
    {
      assert a == 0 || a == 1 || a == 2 || a == 3 || a == 4;
      assert b == 0 || b == 1 || b == 2 || b == 3 || b == 4;
    }
    PivotStep(t, 3, s);
  }

  /** Pivot 4 takes Stage4 to Stage5. */
  lemma Pivot4(t: Tables, s: Tables)
    requires t == Stage4() && s == Stage5() && Shaped(t)
    ensures RelaxPivot(t, 4, 5) == s
  {
    forall a, b | 0 <= a < 5 && 0 <= b < 5
      ensures PhaseWeight(t, 4, a, b) == s.weight[a][b] && PhaseLength(t, 4, a, b) == s.length[a][b]
              && PhaseNext(t, 4, a, b) == s.next[a][b]
    {
      assert a == 0 || a == 1 || a == 2 || a == 3 || a == 4;
      assert b == 0 || b == 1 || b == 2 || b == 3 || b == 4;
    }
    PivotStep(t, 4, s);
  }

  /** The example's matrices after pivots 0 .. 0. */
  lemma After1(links: Links)
    requires links == ExampleLinks()
    ensures RelaxPivots(Initial(links), 1) == Stage1()
  {
    InitialIsStage0(links);
    Pivot0(RelaxPivots(Initial(links), 0), Stage1());
  }

  /** The example's matrices after pivots 0 .. 1. */
  lemma After2(links: Links)
    requires links == ExampleLinks()
    ensures RelaxPivots(Initial(links), 2) == Stage2()
  {
    After1(links);
    Pivot1(RelaxPivots(Initial(links), 1), Stage2());
  }

  /** The example's matrices after pivots 0 .. 2. */
  lemma After3(links: Links)
    requires links == ExampleLinks()
    ensures RelaxPivots(Initial(links), 3) == Stage3()
  {
    After2(links);
    Pivot2(RelaxPivots(Initial(links), 2), Stage3());
  }

  /** The example's matrices after pivots 0 .. 3. */
  lemma After4(links: Links)
    requires links == ExampleLinks()
    ensures RelaxPivots(Initial(links), 4) == Stage4()
  {
    After3(links);
    Pivot3(RelaxPivots(Initial(links), 3), Stage4());
  }

  /** The example's matrices after pivots 0 .. 4. */
  lemma After5(links: Links)
    requires links == ExampleLinks()
    ensures RelaxPivots(Initial(links), 5) == Stage5()
  {
    After4(links);
    Pivot4(RelaxPivots(Initial(links), 4), Stage5());
  }

  /** What extraction returns, from an empty stack, for the cells of the example from vertices 0 and 4 that have a next vertex. */
  lemma Stage5ExtractsFrom0And4(t: Tables)
    requires t == Stage5() && Shaped(t)
    ensures var d, nx := t.weight, t.next;
      && Extract(d, nx, 0, 2, {}) == Some([4, 3])
      && Extract(d, nx, 0, 3, {}) == Some([4])
      && Extract(d, nx, 4, 2, {}) == Some([3])
  {
    var d, nx := t.weight, t.next;
    assert Extract(d, nx, 0, 4, {} + {(0, 2)}) == Some([]);
    assert Extract(d, nx, 4, 3, {} + {(0, 2)} + {(4, 2)}) == Some([]);
    assert Extract(d, nx, 3, 2, {} + {(0, 2)} + {(4, 2)}) == Some([]);
    assert Extract(d, nx, 4, 2, {} + {(0, 2)}).Some? && Extract(d, nx, 4, 2, {} + {(0, 2)}).value == [3];
    assert Extract(d, nx, 0, 2, {}).Some? && Extract(d, nx, 0, 2, {}).value == [4, 3];
    assert Extract(d, nx, 0, 4, {} + {(0, 3)}) == Some([]);
    assert Extract(d, nx, 4, 3, {} + {(0, 3)}) == Some([]);
    assert Extract(d, nx, 0, 3, {}).Some? && Extract(d, nx, 0, 3, {}).value == [4];
    assert Extract(d, nx, 4, 3, {} + {(4, 2)}) == Some([]);
    assert Extract(d, nx, 3, 2, {} + {(4, 2)}) == Some([]);
    assert Extract(d, nx, 4, 2, {}).Some? && Extract(d, nx, 4, 2, {}).value == [3];
  }

  /** What extraction returns, from an empty stack, for the cells of the example from vertex 1 that have a next vertex. */
  lemma Stage5ExtractsFrom1(t: Tables)
    requires t == Stage5() && Shaped(t)
    ensures var d, nx := t.weight, t.next;
      && Extract(d, nx, 1, 2, {}) == Some([0, 4, 3])
      && Extract(d, nx, 1, 3, {}) == Some([0, 4, 3, 2])
      && Extract(d, nx, 1, 4, {}) == Some([0])
  {
    var d, nx := t.weight, t.next;
    assert Extract(d, nx, 1, 0, {} + {(1, 2)}) == Some([]);
    assert Extract(d, nx, 0, 4, {} + {(1, 2)} + {(0, 2)}) == Some([]);
    assert Extract(d, nx, 4, 3, {} + {(1, 2)} + {(0, 2)} + {(4, 2)}) == Some([]);
    assert Extract(d, nx, 3, 2, {} + {(1, 2)} + {(0, 2)} + {(4, 2)}) == Some([]);
    assert Extract(d, nx, 4, 2, {} + {(1, 2)} + {(0, 2)}).Some? && Extract(d, nx, 4, 2, {} + {(1, 2)} + {(0, 2)}).value == [3];
    assert Extract(d, nx, 0, 2, {} + {(1, 2)}).Some? && Extract(d, nx, 0, 2, {} + {(1, 2)}).value == [4, 3];
    assert Extract(d, nx, 1, 2, {}).Some? && Extract(d, nx, 1, 2, {}).value == [0, 4, 3];
    assert Extract(d, nx, 1, 0, {} + {(1, 3)} + {(1, 2)}) == Some([]);
    assert Extract(d, nx, 0, 4, {} + {(1, 3)} + {(1, 2)} + {(0, 2)}) == Some([]);
    assert Extract(d, nx, 4, 3, {} + {(1, 3)} + {(1, 2)} + {(0, 2)} + {(4, 2)}) == Some([]);
    assert Extract(d, nx, 3, 2, {} + {(1, 3)} + {(1, 2)} + {(0, 2)} + {(4, 2)}) == Some([]);
    assert Extract(d, nx, 4, 2, {} + {(1, 3)} + {(1, 2)} + {(0, 2)}).Some? && Extract(d, nx, 4, 2, {} + {(1, 3)} + {(1, 2)} + {(0, 2)}).value == [3];
    assert Extract(d, nx, 0, 2, {} + {(1, 3)} + {(1, 2)}).Some? && Extract(d, nx, 0, 2, {} + {(1, 3)} + {(1, 2)}).value == [4, 3];
    assert Extract(d, nx, 1, 2, {} + {(1, 3)}).Some? && Extract(d, nx, 1, 2, {} + {(1, 3)}).value == [0, 4, 3];
    assert Extract(d, nx, 2, 3, {} + {(1, 3)}) == Some([]);
    assert Extract(d, nx, 1, 3, {}).Some? && Extract(d, nx, 1, 3, {}).value == [0, 4, 3, 2];
    assert Extract(d, nx, 1, 0, {} + {(1, 4)}) == Some([]);
    assert Extract(d, nx, 0, 4, {} + {(1, 4)}) == Some([]);
    assert Extract(d, nx, 1, 4, {}).Some? && Extract(d, nx, 1, 4, {}).value == [0];
  }

  /** Every extraction on the final matrices of the example returns. */
  lemma Stage5CellsReturn(t: Tables)
    requires t == Stage5() && Shaped(t)
    ensures forall i, j :: 0 <= i < 5 && 0 <= j < 5 ==> PathCell(t.weight, t.next, i, j).Some?
  {
    var d, nx := t.weight, t.next;
    Stage5ExtractsFrom0And4(t);
    Stage5ExtractsFrom1(t);
    forall i, j | 0 <= i < 5 && 0 <= j < 5
      ensures PathCell(d, nx, i, j).Some?
    {
      assert i == 0 || i == 1 || i == 2 || i == 3 || i == 4;
      assert j == 0 || j == 1 || j == 2 || j == 3 || j == 4;
    }
  }

  /** What extraction returns on the final matrices of the example. */
  lemma Stage5Paths(t: Tables)
    requires t == Stage5() && Shaped(t)
    ensures Paths(t.weight, t.next).Some? && Paths(t.weight, t.next).value[1][3] == Some([1, 0, 4, 3, 2, 3])
    ensures t.length[1][3] == 3 && t.weight[1][3] == 3
  {
    var d, nx := t.weight, t.next;
    Stage5CellsReturn(t);
    Stage5ExtractsFrom1(t);
    assert [1] + [0, 4, 3, 2] + [3] == [1, 0, 4, 3, 2, 3];
    assert PathCell(d, nx, 1, 3) == Some(Some([1, 0, 4, 3, 2, 3]));
  }

  /** The example's links end at vertices and carry Java ints. */
  lemma ExampleWellFormed(links: Links)
    requires links == ExampleLinks()
    ensures WellFormed(links)
  {
    forall i | 0 <= i < 5
      ensures forall j :: j in links[i] ==> j < 5 && MIN_INT <= links[i][j] <= INF
    {
      assert i == 0 || i == 1 || i == 2 || i == 3 || i == 4;
    }
  }

  /**
   * On the example graph the minimax search returns, from vertex 1 to
   * vertex 3, a path that visits vertex 3 twice.  It has five links although
   * the length matrix records three for that cell.
   */
  lemma MinimaxPathMayRepeatVertex(links: Links)
    requires links == ExampleLinks()
    ensures WellFormed(links) && AllPairsMinimaxPaths(links).Some?
    ensures var p := AllPairsMinimaxPaths(links).value[1][3];
      && p == Some([1, 0, 4, 3, 2, 3])
      && Final(links).length[1][3] == 3
      && Final(links).weight[1][3] == 3
  {
    ExampleWellFormed(links);
    After5(links);
    var t := Final(links);
    Stage5Paths(t);
    assert AllPairsMinimaxPaths(links) == Paths(t.weight, t.next);
  }

  /** The largest link weight along the path of MinimaxPathMayRepeatVertex. */
  lemma RepeatedPathWalk(links: Links)
    requires links == ExampleLinks()
    ensures var w := [1, 0, 4, 3, 2, 3];
      IsWalk(links, w) && PathBottleneck(links, w) == 3
  {
    var w := [1, 0, 4, 3, 2, 3];
    forall t | 0 <= t < |w| - 1
      ensures IsLink(links, w[t], w[t + 1])
    {
      assert t == 0 || t == 1 || t == 2 || t == 3 || t == 4;
    }
    assert w[1..] == [0, 4, 3, 2, 3] && w[2..] == [4, 3, 2, 3] && w[3..] == [3, 2, 3] && w[4..] == [2, 3];
    assert PathBottleneck(links, [2, 3]) == 1;
    assert PathBottleneck(links, [3, 2, 3]) == 1;
    assert PathBottleneck(links, [4, 3, 2, 3]) == 1;
    assert PathBottleneck(links, [0, 4, 3, 2, 3]) == 1;
  }

  /**
   * The path of MinimaxPathMayRepeatVertex is a walk of the example graph
   * whose largest link weight is the weight 3 the weight matrix records.
   */
  lemma RepeatedPathBottleneck(links: Links)
    requires links == ExampleLinks()
    ensures var w := [1, 0, 4, 3, 2, 3];
      IsWalk(links, w) && PathBottleneck(links, w) == 3 == Final(links).weight[1][3]
  {
    RepeatedPathWalk(links);
    MinimaxPathMayRepeatVertex(links);
  }
}
