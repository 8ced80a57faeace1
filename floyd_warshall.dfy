/**
 * The generic Floyd-Warshall all-pairs engine of the centrality plugin
 * (class FloydWarshall<CostType> in Centrality.java).
 *
 * The engine is parameterised by a cost model: an evaluator that gives the
 * cost of traversing a relationship in a direction, an accumulator that joins
 * two path costs, and a comparator; `startCost` is the cost of the empty path
 * and `infinitelyBad` the cost of "no path yet".  The specification functions
 * below describe what `calculate` leaves in the cost and predecessor matrices,
 * phase by phase; the class `FloydWarshall` performs the same steps in place
 * on arrays and is proved to agree with them.
 */
module FloydWarshallEngine {
  import opened Wrappers
  import opened Matrices

  /** The direction in which paths follow relationships. */
  datatype Direction = Outgoing | Incoming | Both

  /** A relationship of the graph store; `id` tells parallel relationships apart. */
  datatype Relationship<V> = Relationship(startNode: V, endNode: V, id: nat)

  /** The constructor arguments of the engine other than the node and relationship sets. */
  datatype CostModel<!V, !C> = CostModel(
    startCost: C,
    infinitelyBad: C,
    relationDirection: Direction,
    costEvaluator: (Relationship<V>, Direction) -> C,
    costAccumulator: (C, C) -> C,
    costComparator: (C, C) -> int)

  /**
   * Why a query does not produce a value: an unknown node or a missing
   * predecessor (both a NullPointerException when an Integer is unboxed), or
   * a predecessor walk that cycles without reaching the start node.
   */
  datatype QueryError = UnknownNode | NoPredecessor | Endless

  /** The cost matrix and the predecessor matrix; `None` is Java's null. */
  datatype Tables<C> = Tables(cost: Matrix<C>, pred: Matrix<Option<nat>>)

  /** Every predecessor recorded in `row` is a vertex index below `n`. */
  ghost predicate RowBounded(row: seq<Option<nat>>, n: nat) {
    forall x :: 0 <= x < |row| && row[x].Some? ==> row[x].value < n
  }

  /** Both matrices are n-by-n and every predecessor is a vertex index. */
  ghost predicate Shaped<C>(t: Tables<C>, n: nat) {
    && IsSquare(t.cost, n)
    && IsSquare(t.pred, n)
    && forall i :: 0 <= i < n ==> RowBounded(t.pred[i], n)
  }

  /** Every index in `index` is below `n`. */
  ghost predicate IndexBounded<V>(index: map<V, nat>, n: nat) {
    forall v :: v in index ==> index[v] < n
  }

  predicate WritesOutgoing(d: Direction) {
    d == Both || d == Outgoing
  }

  predicate WritesIncoming(d: Direction) {
    d == Both || d == Incoming
  }

  /** `a` is `b` or strictly better than `b` under the comparator. */
  ghost predicate NoWorse<V, C>(cm: CostModel<V, C>, a: C, b: C) {
    a == b || cm.costComparator(b, a) > 0
  }

  /** "Strictly worse than" is transitive, as java.util.Comparator's contract demands. */
  ghost predicate ComparatorTransitive<V, C(!new)>(cm: CostModel<V, C>) {
    forall a, b, c :: cm.costComparator(a, b) > 0 && cm.costComparator(b, c) > 0 ==> cm.costComparator(a, c) > 0
  }

  // ---------------------------------------------------------------------
  // Indexing the nodes
  // ---------------------------------------------------------------------

  /**
   * The node-to-index map `calculate` builds by putting each node of
   * `nodes` with its position: a node listed twice keeps its last position.
   */
  function IndexNodes<V(==)>(nodes: seq<V>): (index: map<V, nat>)
    ensures IndexBounded(index, |nodes|)
  {
    if nodes == [] then map[]
    else IndexNodes(nodes[..|nodes| - 1])[nodes[|nodes| - 1] := |nodes| - 1]
  }

  /**
   * Exactly the listed nodes are indexed, each with the position of its
   * last occurrence.
   */
  lemma {:induction false} IndexNodesPositions<V>(nodes: seq<V>)
    ensures forall v :: v in IndexNodes(nodes) ==> v in nodes
    ensures forall t :: 0 <= t < |nodes| ==> nodes[t] in IndexNodes(nodes)
    ensures forall v :: v in IndexNodes(nodes) ==> nodes[IndexNodes(nodes)[v]] == v
    ensures forall v, t :: v in IndexNodes(nodes) && IndexNodes(nodes)[v] < t < |nodes| ==> nodes[t] != v
  {
    if nodes != [] {
      var front := nodes[..|nodes| - 1];
      IndexNodesPositions(front);
      assert forall t :: 0 <= t < |front| ==> front[t] == nodes[t];
    }
  }

  /** A listed node is indexed. */
  lemma IndexedWhenListed<V>(nodes: seq<V>, v: V)
    requires v in nodes
    ensures v in IndexNodes(nodes)
  {
    IndexNodesPositions(nodes);
    var t :| 0 <= t < |nodes| && nodes[t] == v;
  }

  // ---------------------------------------------------------------------
  // Building the initial matrices
  // ---------------------------------------------------------------------

  /** `startCost` on the diagonal, `infinitelyBad` elsewhere, no predecessors. */
  function InitialTables<V(==), C>(cm: CostModel<V, C>, n: nat): (t: Tables<C>)
    ensures Shaped(t, n)
  {
    Tables(Tabulate(n, (i, j) => if i == j then cm.startCost else cm.infinitelyBad),
           Tabulate(n, (i, j) => None))
  }

  /** The matrices after the relationship `r` has been written. */
  function PutRelationship<V(==), C>(cm: CostModel<V, C>, index: map<V, nat>, t: Tables<C>, r: Relationship<V>): (t': Tables<C>)
    requires Shaped(t, |t.cost|) && IndexBounded(index, |t.cost|)
    ensures Shaped(t', |t.cost|)
  {
    if r.startNode !in index || r.endNode !in index then t
    else
      var i1, i2 := index[r.startNode], index[r.endNode];
      var t1 :=
        if WritesOutgoing(cm.relationDirection)
        then Tables(Update(t.cost, i1, i2, cm.costEvaluator(r, Outgoing)), Update(t.pred, i1, i2, Some(i1)))
        else t;
      if WritesIncoming(cm.relationDirection)
      then Tables(Update(t1.cost, i2, i1, cm.costEvaluator(r, Incoming)), Update(t1.pred, i2, i1, Some(i2)))
      else t1
  }

  /** The matrices after the relationships `rels` have been written in order. */
  function PutRelationships<V(==), C>(cm: CostModel<V, C>, index: map<V, nat>, t: Tables<C>, rels: seq<Relationship<V>>): (t': Tables<C>)
    requires Shaped(t, |t.cost|) && IndexBounded(index, |t.cost|)
    ensures Shaped(t', |t.cost|)
  {
    if rels == [] then t
    else PutRelationship(cm, index, PutRelationships(cm, index, t, rels[..|rels| - 1]), rels[|rels| - 1])
  }

  // ---------------------------------------------------------------------
  // Relaxation
  // ---------------------------------------------------------------------

  /** One relaxation step: cell (i, j) through pivot v. */
  function RelaxCell<V(==), C>(cm: CostModel<V, C>, t: Tables<C>, v: nat, i: nat, j: nat): (t': Tables<C>)
    requires Shaped(t, |t.cost|) && v < |t.cost| && i < |t.cost| && j < |t.cost|
    ensures Shaped(t', |t.cost|)
  {
    var alternative := cm.costAccumulator(t.cost[i][v], t.cost[v][j]);
    if cm.costComparator(t.cost[i][j], alternative) > 0
    then Tables(Update(t.cost, i, j, alternative), Update(t.pred, i, j, t.pred[v][j]))
    else t
  }

  /** Cells (i, 0) .. (i, j - 1) relaxed through pivot v, in that order. */
  function RelaxRow<V(==), C>(cm: CostModel<V, C>, t: Tables<C>, v: nat, i: nat, j: nat): (t': Tables<C>)
    requires Shaped(t, |t.cost|) && v < |t.cost| && i < |t.cost| && j <= |t.cost|
    ensures Shaped(t', |t.cost|)
  {
    if j == 0 then t else RelaxCell(cm, RelaxRow(cm, t, v, i, j - 1), v, i, j - 1)
  }

  /** Rows 0 .. i - 1 relaxed through pivot v. */
  function RelaxPivot<V(==), C>(cm: CostModel<V, C>, t: Tables<C>, v: nat, i: nat): (t': Tables<C>)
    requires Shaped(t, |t.cost|) && v < |t.cost| && i <= |t.cost|
    ensures Shaped(t', |t.cost|)
  {
    if i == 0 then t else RelaxRow(cm, RelaxPivot(cm, t, v, i - 1), v, i - 1, |t.cost|)
  }

  /** Pivots 0 .. v - 1 applied in turn. */
  function RelaxPivots<V(==), C>(cm: CostModel<V, C>, t: Tables<C>, v: nat): (t': Tables<C>)
    requires Shaped(t, |t.cost|) && v <= |t.cost|
    ensures Shaped(t', |t.cost|)
  {
    if v == 0 then t else RelaxPivot(cm, RelaxPivots(cm, t, v - 1), v - 1, |t.cost|)
  }

  /** The matrices `calculate` leaves behind for the given node and relationship sets. */
  function Calculated<V(==), C>(cm: CostModel<V, C>, nodes: seq<V>, rels: seq<Relationship<V>>): (t: Tables<C>)
    ensures Shaped(t, |nodes|)
  {
    RelaxPivots(cm, PutRelationships(cm, IndexNodes(nodes), InitialTables(cm, |nodes|), rels), |nodes|)
  }

  // ---------------------------------------------------------------------
  // Queries
  // ---------------------------------------------------------------------

  /** What `getCost(node1, node2)` returns. */
  function CostBetween<V(==), C>(cm: CostModel<V, C>, nodes: seq<V>, rels: seq<Relationship<V>>, node1: V, node2: V): Result<C, QueryError> {
    var index := IndexNodes(nodes);
    if node1 !in index || node2 !in index then Failure(UnknownNode)
    else Success(Calculated(cm, nodes, rels).cost[index[node1]][index[node2]])
  }

  /**
   * The `getPath` loop from the vertex at `index` back towards `start`
   * along one row of the predecessor matrix, allowed `fuel` more steps.
   */
  function WalkBack<V(==)>(row: seq<Option<nat>>, nodes: seq<V>, start: V, index: nat, fuel: nat): (r: Result<seq<V>, QueryError>)
    requires |row| == |nodes| && index < |nodes| && RowBounded(row, |nodes|)
    ensures r.Success? ==> |r.value| > 0 && r.value[0] == start && r.value[|r.value| - 1] == nodes[index]
    ensures r.Failure? ==> r.error != UnknownNode
    decreases fuel
  {
    if nodes[index] == start then Success([start])
    else if fuel == 0 then Failure(Endless)
    else
      match row[index]
      case None => Failure(NoPredecessor)
      case Some(p) =>
        match WalkBack(row, nodes, start, p, fuel - 1)
        case Success(path) => Success(path + [nodes[index]])
        case Failure(e) => Failure(e)
  }

  /**
   * What `getPath(startNode, targetNode)` returns.  The walk is given one step
   * per vertex: a walk that needs more has revisited a vertex and cycles
   * forever (lemma EndlessWalkNeverEnds).
   */
  function PathBetween<V(==), C>(cm: CostModel<V, C>, nodes: seq<V>, rels: seq<Relationship<V>>, startNode: V, targetNode: V): Result<seq<V>, QueryError> {
    var index := IndexNodes(nodes);
    if targetNode !in index || startNode !in index then Failure(UnknownNode)
    else WalkBack(Calculated(cm, nodes, rels).pred[index[startNode]], nodes, startNode, index[targetNode], |nodes|)
  }

  /** `path` appended to a successful walk. */
  function AppendPath<V(==)>(r: Result<seq<V>, QueryError>, path: seq<V>): Result<seq<V>, QueryError> {
    match r
    case Success(p) => Success(p + path)
    case Failure(e) => Failure(e)
  }

  // ---------------------------------------------------------------------
  // Properties of the specification
  // ---------------------------------------------------------------------

  /**
   * A relationship with an unindexed endpoint changes nothing; otherwise
   * exactly the cells its direction names are written, INCOMING after
   * OUTGOING, with the evaluator's cost and the near endpoint as predecessor.
   */
  lemma PutRelationshipWrites<V, C>(cm: CostModel<V, C>, index: map<V, nat>, t: Tables<C>, r: Relationship<V>)
    requires Shaped(t, |t.cost|) && IndexBounded(index, |t.cost|)
    ensures r.startNode !in index || r.endNode !in index ==> PutRelationship(cm, index, t, r) == t
    ensures r.startNode in index && r.endNode in index ==>
              var t', i1, i2, n := PutRelationship(cm, index, t, r), index[r.startNode], index[r.endNode], |t.cost|;
              forall a, b :: 0 <= a < n && 0 <= b < n ==>
                && t'.cost[a][b] == (if WritesIncoming(cm.relationDirection) && a == i2 && b == i1 then cm.costEvaluator(r, Incoming)
                                     else if WritesOutgoing(cm.relationDirection) && a == i1 && b == i2 then cm.costEvaluator(r, Outgoing)
                                     else t.cost[a][b])
                && t'.pred[a][b] == (if WritesIncoming(cm.relationDirection) && a == i2 && b == i1 then Some(i2)
                                     else if WritesOutgoing(cm.relationDirection) && a == i1 && b == i2 then Some(i1)
                                     else t.pred[a][b])
  {
  }

  /**
   * A relaxation step writes only cell (i, j), and only when the comparator
   * says the current cost is strictly worse than the cost through v; it then
   * takes the alternative cost and the predecessor recorded for (v, j).
   */
  lemma RelaxCellImproves<V, C>(cm: CostModel<V, C>, t: Tables<C>, v: nat, i: nat, j: nat)
    requires Shaped(t, |t.cost|) && v < |t.cost| && i < |t.cost| && j < |t.cost|
    ensures var t', alternative := RelaxCell(cm, t, v, i, j), cm.costAccumulator(t.cost[i][v], t.cost[v][j]);
      && (forall a, b :: 0 <= a < |t.cost| && 0 <= b < |t.cost| && (a != i || b != j) ==>
            t'.cost[a][b] == t.cost[a][b] && t'.pred[a][b] == t.pred[a][b])
      && (cm.costComparator(t.cost[i][j], alternative) > 0 ==>
            t'.cost[i][j] == alternative && t'.pred[i][j] == t.pred[v][j])
      && (cm.costComparator(t.cost[i][j], alternative) <= 0 ==> t' == t)
  {
  }

  lemma NoWorseTransitive<V, C(!new)>(cm: CostModel<V, C>, a: C, b: C, c: C)
    requires ComparatorTransitive(cm) && NoWorse(cm, a, b) && NoWorse(cm, b, c)
    ensures NoWorse(cm, a, c)
  {
  }

  lemma {:induction false} RowNeverWorsens<V, C(!new)>(cm: CostModel<V, C>, t: Tables<C>, v: nat, i: nat, j: nat)
    requires ComparatorTransitive(cm)
    requires Shaped(t, |t.cost|) && v < |t.cost| && i < |t.cost| && j <= |t.cost|
    ensures forall a, b :: 0 <= a < |t.cost| && 0 <= b < |t.cost| ==> NoWorse(cm, RelaxRow(cm, t, v, i, j).cost[a][b], t.cost[a][b])
  {
    if j > 0 {
      var mid := RelaxRow(cm, t, v, i, j - 1);
      RowNeverWorsens(cm, t, v, i, j - 1);
      RelaxCellImproves(cm, mid, v, i, j - 1);
      forall a, b | 0 <= a < |t.cost| && 0 <= b < |t.cost|
        ensures NoWorse(cm, RelaxRow(cm, t, v, i, j).cost[a][b], t.cost[a][b])
      {
        NoWorseTransitive(cm, RelaxRow(cm, t, v, i, j).cost[a][b], mid.cost[a][b], t.cost[a][b]);
      }
    }
  }

  lemma {:induction false} PivotNeverWorsens<V, C(!new)>(cm: CostModel<V, C>, t: Tables<C>, v: nat, i: nat)
    requires ComparatorTransitive(cm)
    requires Shaped(t, |t.cost|) && v < |t.cost| && i <= |t.cost|
    ensures forall a, b :: 0 <= a < |t.cost| && 0 <= b < |t.cost| ==> NoWorse(cm, RelaxPivot(cm, t, v, i).cost[a][b], t.cost[a][b])
  {
    if i > 0 {
      var mid := RelaxPivot(cm, t, v, i - 1);
      PivotNeverWorsens(cm, t, v, i - 1);
      RowNeverWorsens(cm, mid, v, i - 1, |t.cost|);
      forall a, b | 0 <= a < |t.cost| && 0 <= b < |t.cost|
        ensures NoWorse(cm, RelaxPivot(cm, t, v, i).cost[a][b], t.cost[a][b])
      {
        NoWorseTransitive(cm, RelaxPivot(cm, t, v, i).cost[a][b], mid.cost[a][b], t.cost[a][b]);
      }
    }
  }

  /**
   * No cell of the cost matrix ever gets worse under the comparator during
   * relaxation: each keeps its value or ends strictly better.
   */
  lemma {:induction false} RelaxationNeverWorsens<V, C(!new)>(cm: CostModel<V, C>, t: Tables<C>, v: nat)
    requires ComparatorTransitive(cm)
    requires Shaped(t, |t.cost|) && v <= |t.cost|
    ensures forall a, b :: 0 <= a < |t.cost| && 0 <= b < |t.cost| ==> NoWorse(cm, RelaxPivots(cm, t, v).cost[a][b], t.cost[a][b])
  {
    if v > 0 {
      var mid := RelaxPivots(cm, t, v - 1);
      RelaxationNeverWorsens(cm, t, v - 1);
      PivotNeverWorsens(cm, mid, v - 1, |t.cost|);
      forall a, b | 0 <= a < |t.cost| && 0 <= b < |t.cost|
        ensures NoWorse(cm, RelaxPivots(cm, t, v).cost[a][b], t.cost[a][b])
      {
        NoWorseTransitive(cm, RelaxPivots(cm, t, v).cost[a][b], mid.cost[a][b], t.cost[a][b]);
      }
    }
  }

  /**
   * A path `getPath` returns runs from `startNode` to `targetNode`; when the
   * two are the same node it is that node alone.
   */
  lemma PathEndpoints<V, C>(cm: CostModel<V, C>, nodes: seq<V>, rels: seq<Relationship<V>>, startNode: V, targetNode: V)
    ensures var r := PathBetween(cm, nodes, rels, startNode, targetNode);
      && (r.Success? ==> |r.value| > 0 && r.value[0] == startNode && r.value[|r.value| - 1] == targetNode)
      && (r.Success? && startNode == targetNode ==> r.value == [startNode])
      && (r == Failure(UnknownNode) <==> startNode !in nodes || targetNode !in nodes)
  {
    IndexNodesPositions(nodes);
  }

  // ---------------------------------------------------------------------
  // A walk that runs out of steps cycles forever
  // ---------------------------------------------------------------------

  /** The vertex reached from `index` after `t` predecessor steps, if no null is met. */
  function Hop(row: seq<Option<nat>>, index: nat, t: nat): (r: Option<nat>)
    requires index < |row| && RowBounded(row, |row|)
    ensures r.Some? ==> r.value < |row|
    decreases t
  {
    if t == 0 then Some(index)
    else
      match row[index]
      case None => None
      case Some(p) => Hop(row, p, t - 1)
  }

  /** Every vertex in the first `t + 1` hops from `index` exists and is not `start`. */
  ghost predicate AvoidsStart<V>(row: seq<Option<nat>>, nodes: seq<V>, start: V, index: nat, t: nat)
    requires |row| == |nodes| && index < |nodes| && RowBounded(row, |nodes|)
  {
    forall s :: 0 <= s <= t ==> Hop(row, index, s).Some? && nodes[Hop(row, index, s).value] != start
  }

  lemma {:induction false} HopAdd(row: seq<Option<nat>>, index: nat, a: nat, b: nat)
    requires index < |row| && RowBounded(row, |row|)
    ensures Hop(row, index, a + b) == match Hop(row, index, a) case None => None case Some(x) => Hop(row, x, b)
    decreases a
  {
    if a > 0 {
      match row[index]
      case None =>
      case Some(p) => HopAdd(row, p, a - 1, b);
    }
  }

  /** A walk that gives up has met only vertices other than the start. */
  lemma {:induction false} EndlessAvoidsStart<V>(row: seq<Option<nat>>, nodes: seq<V>, start: V, index: nat, fuel: nat)
    requires |row| == |nodes| && index < |nodes| && RowBounded(row, |nodes|)
    ensures WalkBack(row, nodes, start, index, fuel) == Failure(Endless) <==> AvoidsStart(row, nodes, start, index, fuel)
    decreases fuel
  {
    if nodes[index] != start && fuel > 0 {
      match row[index]
      case None =>
        assert Hop(row, index, 1) == None;
      case Some(p) =>
        EndlessAvoidsStart(row, nodes, start, p, fuel - 1);
        forall s | 1 <= s <= fuel ensures Hop(row, index, s) == Hop(row, p, s - 1) { }
        if AvoidsStart(row, nodes, start, p, fuel - 1) {
          assert AvoidsStart(row, nodes, start, index, fuel);
        }
        if AvoidsStart(row, nodes, start, index, fuel) {
          forall s | 0 <= s <= fuel - 1 ensures Hop(row, p, s).Some? && nodes[Hop(row, p, s).value] != start {
            assert Hop(row, index, s + 1) == Hop(row, p, s);
          }
        }
    } else if nodes[index] == start {
      assert Hop(row, index, 0) == Some(index);
    }
  }

  /** Values below `n` in a sequence longer than `n` repeat. */
  lemma {:induction false} Pigeonhole(s: seq<nat>, n: nat)
    requires 1 <= n < |s| && forall t :: 0 <= t < |s| ==> s[t] < n
    ensures exists a, b :: 0 <= a < b < |s| && s[a] == s[b]
    decreases n
  {
    if n == 1 {
      assert s[0] == s[1];
    } else {
      var last := s[|s| - 1];
      if exists a :: 0 <= a < |s| - 1 && s[a] == last {
        var a :| 0 <= a < |s| - 1 && s[a] == last;
        assert s[a] == s[|s| - 1];
      } else {
        var s' := seq(|s| - 1, t requires 0 <= t < |s| - 1 => if s[t] > last then s[t] - 1 else s[t]);
        Pigeonhole(s', n - 1);
        var a, b :| 0 <= a < b < |s'| && s'[a] == s'[b];
        assert s[a] == s[b];
      }
    }
  }

  /** Hops repeat with the period of a repeated vertex, so every hop avoids the start. */
  lemma {:induction false} AvoidsStartForever<V>(row: seq<Option<nat>>, nodes: seq<V>, start: V, index: nat, a: nat, b: nat, t: nat)
    requires |row| == |nodes| && index < |nodes| && RowBounded(row, |nodes|)
    requires a < b && AvoidsStart(row, nodes, start, index, b)
    requires Hop(row, index, a) == Hop(row, index, b)
    ensures Hop(row, index, t).Some? && nodes[Hop(row, index, t).value] != start
    decreases t
  {
    if t > b {
      var x := Hop(row, index, b).value;
      HopAdd(row, index, b, t - b);
      HopAdd(row, index, a, t - b);
      assert Hop(row, index, t) == Hop(row, index, a + (t - b));
      AvoidsStartForever(row, nodes, start, index, a, b, a + (t - b));
    }
  }

  /**
   * When the bounded walk of `getPath` gives up, the unbounded loop of the
   * source never reaches the start node: no amount of steps is enough.
   */
  lemma EndlessWalkNeverEnds<V>(row: seq<Option<nat>>, nodes: seq<V>, start: V, index: nat, fuel: nat)
    requires |row| == |nodes| && index < |nodes| && RowBounded(row, |nodes|)
    requires WalkBack(row, nodes, start, index, |nodes|) == Failure(Endless)
    ensures WalkBack(row, nodes, start, index, fuel) == Failure(Endless)
  {
    var n := |nodes|;
    EndlessAvoidsStart(row, nodes, start, index, n);
    var s := seq(n + 1, t requires 0 <= t <= n => Hop(row, index, t).value);
    Pigeonhole(s, n);
    var a, b :| 0 <= a < b < |s| && s[a] == s[b];
    assert Hop(row, index, a) == Hop(row, index, b);
    forall t | 0 <= t <= fuel ensures Hop(row, index, t).Some? && nodes[Hop(row, index, t).value] != start {
      AvoidsStartForever(row, nodes, start, index, a, b, t);
    }
    EndlessAvoidsStart(row, nodes, start, index, fuel);
  }

  /** Appending to a walk after one more step back is appending that step's node first. */
  lemma AppendStep<V>(r: Result<seq<V>, QueryError>, x: V, path: seq<V>)
    ensures AppendPath(match r case Success(p) => Success(p + [x]) case Failure(e) => Failure(e), path)
         == AppendPath(r, [x] + path)
  {
    if r.Success? {
      assert r.value + [x] + path == r.value + ([x] + path);
    }
  }

  // ---------------------------------------------------------------------
  // The engine
  // ---------------------------------------------------------------------

  /**
   * The engine object.  The cost model and the node and relationship sets are
   * fixed at construction; `calculate` fills the matrices and the two node
   * indexes once, until `reset` clears `doneCalculation`.
   */
  class FloydWarshall<V(==, 0), C(0)> {
    const cm: CostModel<V, C>
    const nodeSet: seq<V>
    const relationshipSet: seq<Relationship<V>>
    var costMatrix: array2<C>
    var predecessors: array2<Option<nat>>
    var nodeIndexes: map<V, nat>
    var indexedNodes: array<V>
    var doneCalculation: bool

    /** Once calculated, the fields hold exactly what `Calculated` describes. */
    ghost predicate Valid()
      reads this, costMatrix, predecessors, indexedNodes
    {
      doneCalculation ==>
        && Mirrors(costMatrix, Calculated(cm, nodeSet, relationshipSet).cost)
        && Mirrors(predecessors, Calculated(cm, nodeSet, relationshipSet).pred)
        && nodeIndexes == IndexNodes(nodeSet)
        && indexedNodes[..] == nodeSet
    }

    constructor(cm: CostModel<V, C>, nodeSet: seq<V>, relationshipSet: seq<Relationship<V>>)
      ensures Valid() && !doneCalculation
      ensures this.cm == cm && this.nodeSet == nodeSet && this.relationshipSet == relationshipSet
    {
      this.cm := cm;
      this.nodeSet := nodeSet;
      this.relationshipSet := relationshipSet;
      costMatrix := new C[0, 0];
      predecessors := new Option<nat>[0, 0];
      nodeIndexes := map[];
      indexedNodes := new V[0];
      doneCalculation := false;
    }

    /** Clears the flag, so that the next query calculates again; nothing else changes. */
    method Reset()
      requires Valid()
      modifies this`doneCalculation
      ensures Valid() && !doneCalculation
    {
      doneCalculation := false;
    }

    /**
     * Builds the matrices unless they are already built.  A second call, until
     * a reset, changes nothing.
     */
    method Calculate()
      requires Valid()
      modifies this
      ensures Valid() && doneCalculation
      ensures old(doneCalculation) ==> unchanged(this)
      ensures !old(doneCalculation) ==> fresh(costMatrix) && fresh(predecessors) && fresh(indexedNodes)
    {
      if doneCalculation {
        return;
      }
      doneCalculation := true;
      costMatrix, predecessors, nodeIndexes, indexedNodes := Build();
    }

    /** The body of `calculate`: initial matrices, node indexes, relationships, relaxation. */
    method Build() returns (cost: array2<C>, pred: array2<Option<nat>>, index: map<V, nat>, indexed: array<V>)
      ensures fresh(cost) && fresh(pred) && fresh(indexed)
      ensures Mirrors(cost, Calculated(cm, nodeSet, relationshipSet).cost)
      ensures Mirrors(pred, Calculated(cm, nodeSet, relationshipSet).pred)
      ensures index == IndexNodes(nodeSet) && indexed[..] == nodeSet
    {
      var n := |nodeSet|;
      cost, pred := InitializeMatrices(n);
      ghost var t0 := InitialTables(cm, n);
      index, indexed := IndexNodeSet();
      PutRelationshipSet(cost, pred, index, t0);
      ghost var t1 := PutRelationships(cm, index, t0, relationshipSet);
      Relax(cost, pred, t1);
    }

    /** `startCost` on the diagonal, `infinitelyBad` elsewhere, and no predecessor anywhere. */
    method InitializeMatrices(n: nat) returns (cost: array2<C>, pred: array2<Option<nat>>)
      ensures fresh(cost) && fresh(pred) && cost as object != pred as object
      ensures cost.Length0 == n && cost.Length1 == n && pred.Length0 == n && pred.Length1 == n
      ensures forall i, j :: 0 <= i < n && 0 <= j < n ==>
                cost[i, j] == (if i == j then cm.startCost else cm.infinitelyBad) && pred[i, j] == None
      ensures Mirrors(cost, InitialTables(cm, n).cost) && Mirrors(pred, InitialTables(cm, n).pred)
    {
      cost := new C[n, n];
      for i := 0 to n
        invariant forall a, b :: 0 <= a < i && 0 <= b < n ==> cost[a, b] == (if a == b then cm.startCost else cm.infinitelyBad)
      {
        for j := 0 to n
          invariant forall a, b :: 0 <= a < i && 0 <= b < n ==> cost[a, b] == (if a == b then cm.startCost else cm.infinitelyBad)
          invariant forall b :: 0 <= b < j ==> cost[i, b] == cm.infinitelyBad
        {
          cost[i, j] := cm.infinitelyBad;
        }
        cost[i, i] := cm.startCost;
      }
      pred := new Option<nat>[n, n]((i, j) => None);
    }

    /** Numbers the nodes in order: the node-to-index map and the index-to-node array. */
    method IndexNodeSet() returns (index: map<V, nat>, indexed: array<V>)
      ensures fresh(indexed)
      ensures index == IndexNodes(nodeSet) && indexed[..] == nodeSet
    {
      indexed := new V[|nodeSet|];
      index := map[];
      for t := 0 to |nodeSet|
        invariant index == IndexNodes(nodeSet[..t])
        invariant forall s :: 0 <= s < t ==> indexed[s] == nodeSet[s]
      {
        ghost var prefix := nodeSet[..t + 1];
        assert prefix[..|prefix| - 1] == nodeSet[..t] && prefix[|prefix| - 1] == nodeSet[t];
        assert IndexNodes(prefix) == IndexNodes(nodeSet[..t])[nodeSet[t] := t];
        index := index[nodeSet[t] := t];
        indexed[t] := nodeSet[t];
      }
      assert nodeSet[..|nodeSet|] == nodeSet;
    }

    /** Writes every relationship of the set into the matrices, in order. */
    method PutRelationshipSet(cost: array2<C>, pred: array2<Option<nat>>, index: map<V, nat>, ghost t: Tables<C>)
      requires cost as object != pred as object
      requires Shaped(t, |t.cost|) && IndexBounded(index, |t.cost|)
      requires Mirrors(cost, t.cost) && Mirrors(pred, t.pred)
      modifies cost, pred
      ensures Mirrors(cost, PutRelationships(cm, index, t, relationshipSet).cost)
      ensures Mirrors(pred, PutRelationships(cm, index, t, relationshipSet).pred)
    {
      for r := 0 to |relationshipSet|
        invariant Mirrors(cost, PutRelationships(cm, index, t, relationshipSet[..r]).cost)
        invariant Mirrors(pred, PutRelationships(cm, index, t, relationshipSet[..r]).pred)
      {
        ghost var cur := PutRelationships(cm, index, t, relationshipSet[..r]);
        assert relationshipSet[..r + 1][..r] == relationshipSet[..r];
        assert PutRelationships(cm, index, t, relationshipSet[..r + 1]) == PutRelationship(cm, index, cur, relationshipSet[r]);
        PutRelationshipAt(cost, pred, index, cur, relationshipSet[r]);
      }
      assert relationshipSet[..|relationshipSet|] == relationshipSet;
    }

    /** One relationship of the set: its cell for each direction the model writes. */
    method PutRelationshipAt(cost: array2<C>, pred: array2<Option<nat>>, index: map<V, nat>, ghost t: Tables<C>,
                             relationship: Relationship<V>)
      requires cost as object != pred as object
      requires Shaped(t, |t.cost|) && IndexBounded(index, |t.cost|)
      requires Mirrors(cost, t.cost) && Mirrors(pred, t.pred)
      modifies cost, pred
      ensures Mirrors(cost, PutRelationship(cm, index, t, relationship).cost)
      ensures Mirrors(pred, PutRelationship(cm, index, t, relationship).pred)
    {
      PutRelationshipWrites(cm, index, t, relationship);
      if relationship.startNode in index && relationship.endNode in index {
        var i1, i2 := index[relationship.startNode], index[relationship.endNode];
        assert |t.cost[i1]| == cost.Length1 && |t.pred[i1]| == pred.Length1;
        if WritesOutgoing(cm.relationDirection) {
          cost[i1, i2] := cm.costEvaluator(relationship, Outgoing);
          pred[i1, i2] := Some(i1);
        }
        if WritesIncoming(cm.relationDirection) {
          cost[i2, i1] := cm.costEvaluator(relationship, Incoming);
          pred[i2, i1] := Some(i2);
        }
      }
    }

    /** The v / i / j triple loop, done in place: pivots 0 .. n - 1 in turn. */
    method Relax(cost: array2<C>, pred: array2<Option<nat>>, ghost t: Tables<C>)
      requires cost as object != pred as object
      requires Shaped(t, |t.cost|)
      requires Mirrors(cost, t.cost) && Mirrors(pred, t.pred)
      modifies cost, pred
      ensures Mirrors(cost, RelaxPivots(cm, t, |t.cost|).cost)
      ensures Mirrors(pred, RelaxPivots(cm, t, |t.cost|).pred)
    {
      for v := 0 to cost.Length0
        invariant Mirrors(cost, RelaxPivots(cm, t, v).cost) && Mirrors(pred, RelaxPivots(cm, t, v).pred)
      {
        RelaxPivotAt(cost, pred, RelaxPivots(cm, t, v), v);
      }
    }

    /** The i / j loops for pivot v: rows 0 .. n - 1 in turn. */
    method RelaxPivotAt(cost: array2<C>, pred: array2<Option<nat>>, ghost t: Tables<C>, v: nat)
      requires cost as object != pred as object
      requires Shaped(t, |t.cost|) && v < |t.cost|
      requires Mirrors(cost, t.cost) && Mirrors(pred, t.pred)
      modifies cost, pred
      ensures Mirrors(cost, RelaxPivot(cm, t, v, |t.cost|).cost)
      ensures Mirrors(pred, RelaxPivot(cm, t, v, |t.cost|).pred)
    {
      for i := 0 to cost.Length0
        invariant Mirrors(cost, RelaxPivot(cm, t, v, i).cost) && Mirrors(pred, RelaxPivot(cm, t, v, i).pred)
      {
        RelaxRowAt(cost, pred, RelaxPivot(cm, t, v, i), v, i);
      }
    }

    /** The j loop for pivot v and row i: cells (i, 0) .. (i, n - 1) in turn. */
    method RelaxRowAt(cost: array2<C>, pred: array2<Option<nat>>, ghost t: Tables<C>, v: nat, i: nat)
      requires cost as object != pred as object
      requires Shaped(t, |t.cost|) && v < |t.cost| && i < |t.cost|
      requires Mirrors(cost, t.cost) && Mirrors(pred, t.pred)
      modifies cost, pred
      ensures Mirrors(cost, RelaxRow(cm, t, v, i, |t.cost|).cost)
      ensures Mirrors(pred, RelaxRow(cm, t, v, i, |t.cost|).pred)
    {
      for j := 0 to cost.Length0
        invariant Mirrors(cost, RelaxRow(cm, t, v, i, j).cost) && Mirrors(pred, RelaxRow(cm, t, v, i, j).pred)
      {
        RelaxCellAt(cost, pred, RelaxRow(cm, t, v, i, j), v, i, j);
      }
    }

    /** One relaxation step in place: cell (i, j) through pivot v. */
    method RelaxCellAt(cost: array2<C>, pred: array2<Option<nat>>, ghost t: Tables<C>, v: nat, i: nat, j: nat)
      requires cost as object != pred as object
      requires Shaped(t, |t.cost|) && v < |t.cost| && i < |t.cost| && j < |t.cost|
      requires Mirrors(cost, t.cost) && Mirrors(pred, t.pred)
      modifies cost, pred
      ensures Mirrors(cost, RelaxCell(cm, t, v, i, j).cost) && Mirrors(pred, RelaxCell(cm, t, v, i, j).pred)
    {
      RelaxCellImproves(cm, t, v, i, j);
      var alternative := cm.costAccumulator(cost[i, v], cost[v, j]);
      if cm.costComparator(cost[i, j], alternative) > 0 {
        cost[i, j] := alternative;
        pred[i, j] := pred[v, j];
      }
    }

    /** The cost between two nodes, after calculating if need be. */
    method GetCost(node1: V, node2: V) returns (r: Result<C, QueryError>)
      requires Valid()
      modifies this
      ensures Valid() && doneCalculation
      ensures old(doneCalculation) ==> unchanged(this)
      ensures r == CostBetween(cm, nodeSet, relationshipSet, node1, node2)
    {
      Calculate();
      if node1 !in nodeIndexes || node2 !in nodeIndexes {
        return Failure(UnknownNode);
      }
      return Success(costMatrix[nodeIndexes[node1], nodeIndexes[node2]]);
    }

    /**
     * The path from `startNode` to `targetNode`, walked back from the target
     * along the start node's row of the predecessor matrix.
     */
    method GetPath(startNode: V, targetNode: V) returns (r: Result<seq<V>, QueryError>)
      requires Valid()
      modifies this
      ensures Valid() && doneCalculation
      ensures old(doneCalculation) ==> unchanged(this)
      ensures r == PathBetween(cm, nodeSet, relationshipSet, startNode, targetNode)
    {
      Calculate();
      if targetNode !in nodeIndexes || startNode !in nodeIndexes {
        return Failure(UnknownNode);
      }
      var index: nat := nodeIndexes[targetNode];
      var startIndex: nat := nodeIndexes[startNode];
      ghost var row := Calculated(cm, nodeSet, relationshipSet).pred[startIndex];
      assert forall x :: 0 <= x < |nodeSet| ==> predecessors[startIndex, x] == row[x];
      r := WalkPredecessors(startNode, startIndex, index, row);
    }

    /**
     * The `getPath` loop: from the target back along the start node's row of
     * the predecessor matrix, prepending each node met, for at most one step
     * per node.
     */
    method WalkPredecessors(startNode: V, startIndex: nat, targetIndex: nat, ghost row: seq<Option<nat>>) returns (r: Result<seq<V>, QueryError>)
      requires targetIndex < |nodeSet| && |row| == |nodeSet| && RowBounded(row, |nodeSet|)
      requires startIndex < predecessors.Length0 && predecessors.Length1 == |nodeSet|
      requires forall x :: 0 <= x < |nodeSet| ==> predecessors[startIndex, x] == row[x]
      requires indexedNodes[..] == nodeSet
      ensures r == WalkBack(row, nodeSet, startNode, targetIndex, |nodeSet|)
    {
      ghost var goal := WalkBack(row, nodeSet, startNode, targetIndex, |nodeSet|);
      var path: seq<V> := [];
      var index := targetIndex;
      var node := indexedNodes[index];
      assert goal.Success? ==> goal.value + path == goal.value;
      var steps: nat := 0;
      while node != startNode
        invariant steps <= |nodeSet| && index < |nodeSet| && node == nodeSet[index]
        invariant goal == AppendPath(WalkBack(row, nodeSet, startNode, index, |nodeSet| - steps), path)
        decreases |nodeSet| - steps
      {
        if steps == |nodeSet| {
          return Failure(Endless);
        }
        match predecessors[startIndex, index]
        case None =>
          return Failure(NoPredecessor);
        case Some(p) =>
          AppendStep(WalkBack(row, nodeSet, startNode, p, |nodeSet| - steps - 1), node, path);
          path := [node] + path;
          index := p;
        node := indexedNodes[index];
        steps := steps + 1;
      }
      return Success([node] + path);
    }
  }
}
