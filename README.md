# All-pairs paths and centrality of the graph plugin

This project models the computational core of the neo4j server plugin in
`Centrality.java` and `MinimaxFloydWarshall.java`, and proves properties of
that model.

- **`FloydWarshallEngine`** covers the generic engine `FloydWarshall<CostType>`.
  - Its cost model is parameterised by a start cost, an "infinitely bad"
    cost, a direction, a cost evaluator, an accumulator and a comparator.
  - `calculate` builds a cost matrix and a predecessor matrix once, until
    `reset`.
  - `getCost` and `getPath` answer queries from those matrices.
  - The specification functions describe each phase as a value: the initial
    matrices, the node indexes, the writing of the relationships, and pivot
    after pivot of relaxation.
  - The class `FloydWarshall` does the same work in place on `array2`s. Each
    of its methods is proved to leave the arrays mirroring the corresponding
    function.
- **`EnginePaths`** proves that `getPath` follows the graph. Every
  predecessor the engine records is the near end of a relationship, in a
  direction the engine follows, to the node of its column. So every two
  neighbouring nodes of a returned path are joined by a relationship.
- **`EngineCosts`** proves that each cost is a lower bound on every walk,
  under laws of the cost model that the engine relies on but does not check:
  - the comparator is a total preorder;
  - the accumulator is associative and monotone;
  - the start cost, the "infinitely bad" cost and every relationship cost
    are non-negative: accumulating one onto a cost never makes it better.

  Under these laws the final cost matrix satisfies the triangle inequality
  through every vertex. No walk over the relationships' direct costs is
  better than the cost `getCost` reports; the model does not prove that some
  walk attains it.
- **`Centrality`** covers `GraphMedianAlgo` and `GraphCenterAlgo`.
  - Each fills a map with one score per node: the sum of distances, or the
    eccentricity.
  - Each then keeps the first key with the least score, in the order the map
    yields its keys.
- **`AllPairsPaths`, `ShortestPaths`, `MinimaxPaths`** specify the two
  integer searches of `MinimaxFloydWarshall` as values.
  - The searches are `findAllPairsShortestPaths` and
    `findAllPairsMinimaxPaths`.
  - They share the adjacency-list input, with `Integer.MAX_VALUE` as "no
    path" and -1 as "no next vertex", and the recursive `PathExtractor`.
  - Proved about them:
    - relaxation never lengthens or worsens a cell;
    - every next vertex is a proper intermediate vertex;
    - the final matrices satisfy the triangle inequality for shortest paths
      (with non-negative weights), or the bottleneck inequality for minimax;
    - every returned path runs from i to j along links of the graph;
    - with non-negative weights, a returned path weighs exactly the distance
      the search reports, and no walk weighs less: it is a shortest walk;
    - a returned minimax path between two different vertices has the largest
      link weight the search reports, and no walk has a smaller one.
- **`IntegerFloydWarshall`** holds the class `MinimaxFloydWarshall`. Its
  methods do these computations in place on arrays and are proved against
  the specifications.
- **`MinimaxExample`** is a five-vertex graph on which the minimax search
  returns a path that visits a vertex twice. The doc comment of
  `findAllPairsMinimaxPaths` warns that this can happen.
- **`Wrappers` and `Matrices`** hold `Option`/`Result`, matrices as sequences
  of rows, and `Mirrors`, which relates an `array2` to a matrix value.

A recursion of `PathExtractor` that never returns would be a
`StackOverflowError` in Java. The model gives `None` for such a search.
`ExtractByDepth` models the recursion with a bounded stack, and lemmas
relate it to `Extract`.

Java's `null` is `None`, both for a missing predecessor and for a missing
median or centre.

## Model

Paths are relative to the repository root.

| member | source | states |
|---|---|---|
| Matrices.Tabulate | neo-graph-persist/src/main/java/org/neo4j/examples/server/plugins/Centrality.java:286-297 | an n-by-n matrix whose cell (i, j) is f(i, j), as the matrices are allocated and filled |
| Matrices.Update | neo-graph-persist/src/main/java/org/neo4j/examples/server/plugins/Centrality.java:319-322 | a single array store: cell (i, j) takes the new value, every other cell and every row length is unchanged |
| FloydWarshallEngine.IndexNodes | neo-graph-persist/src/main/java/org/neo4j/examples/server/plugins/Centrality.java:298-304 | every index the node loop assigns is a valid vertex index |
| FloydWarshallEngine.IndexNodesPositions | neo-graph-persist/src/main/java/org/neo4j/examples/server/plugins/Centrality.java:298-304 | exactly the listed nodes are indexed; each one's index is a position holding it, and no later position holds it (a repeated node keeps its last position, as `HashMap.put` overwrites) |
| FloydWarshallEngine.IndexedWhenListed | neo-graph-persist/src/main/java/org/neo4j/examples/server/plugins/Centrality.java:298-304 | a node of the node set has an index |
| FloydWarshallEngine.InitialTables | neo-graph-persist/src/main/java/org/neo4j/examples/server/plugins/Centrality.java:286-297 | both matrices are n-by-n and every predecessor is a vertex index |
| FloydWarshallEngine.PutRelationship | neo-graph-persist/src/main/java/org/neo4j/examples/server/plugins/Centrality.java:306-331 | writing one relationship keeps both matrices n-by-n with in-range predecessors |
| FloydWarshallEngine.PutRelationships | neo-graph-persist/src/main/java/org/neo4j/examples/server/plugins/Centrality.java:306-331 | writing the relationships in order keeps both matrices n-by-n with in-range predecessors |
| FloydWarshallEngine.PutRelationshipWrites | neo-graph-persist/src/main/java/org/neo4j/examples/server/plugins/Centrality.java:308-330 | a relationship with an unindexed endpoint changes nothing; otherwise exactly the cells its direction names change, INCOMING overriding OUTGOING, to the evaluator's cost with the near endpoint as predecessor |
| FloydWarshallEngine.RelaxCell | neo-graph-persist/src/main/java/org/neo4j/examples/server/plugins/Centrality.java:339-345 | one relaxation step keeps the matrices' shape and predecessor range |
| FloydWarshallEngine.RelaxRow | neo-graph-persist/src/main/java/org/neo4j/examples/server/plugins/Centrality.java:337-346 | the j loop keeps the matrices' shape and predecessor range |
| FloydWarshallEngine.RelaxPivot | neo-graph-persist/src/main/java/org/neo4j/examples/server/plugins/Centrality.java:335-347 | the i loop keeps the matrices' shape and predecessor range |
| FloydWarshallEngine.RelaxPivots | neo-graph-persist/src/main/java/org/neo4j/examples/server/plugins/Centrality.java:333-348 | the v loop keeps the matrices' shape and predecessor range |
| FloydWarshallEngine.Calculated | neo-graph-persist/src/main/java/org/neo4j/examples/server/plugins/Centrality.java:275-350 | after `calculate`, both matrices are n-by-n with in-range predecessors |
| FloydWarshallEngine.RelaxCellImproves | neo-graph-persist/src/main/java/org/neo4j/examples/server/plugins/Centrality.java:339-345 | a step writes only cell (i, j), and only when the comparator finds the current cost strictly worse than the accumulated alternative; the cell then holds the alternative and the predecessor of (v, j) |
| FloydWarshallEngine.NoWorseTransitive | neo-graph-persist/src/main/java/org/neo4j/examples/server/plugins/Centrality.java:341 | "equal or strictly better" is transitive under a comparator that is transitive, as `Comparator` requires |
| FloydWarshallEngine.RowNeverWorsens | neo-graph-persist/src/main/java/org/neo4j/examples/server/plugins/Centrality.java:337-346 | after the j loop no cost is worse under the comparator than before |
| FloydWarshallEngine.PivotNeverWorsens | neo-graph-persist/src/main/java/org/neo4j/examples/server/plugins/Centrality.java:335-347 | after one pivot no cost is worse under the comparator than before |
| FloydWarshallEngine.RelaxationNeverWorsens | neo-graph-persist/src/main/java/org/neo4j/examples/server/plugins/Centrality.java:333-348 | during relaxation no cost ever gets worse under the comparator |
| FloydWarshallEngine.WalkBack | neo-graph-persist/src/main/java/org/neo4j/examples/server/plugins/Centrality.java:380-388 | a walk that ends starts at the start node and ends at the target; a failing walk fails for a missing predecessor or for lack of progress, never for an unknown node |
| FloydWarshallEngine.PathEndpoints | neo-graph-persist/src/main/java/org/neo4j/examples/server/plugins/Centrality.java:374-389 | `getPath` returns a path from the start node to the target, and the single node when they are the same |
| FloydWarshallEngine.Hop | neo-graph-persist/src/main/java/org/neo4j/examples/server/plugins/Centrality.java:384-385 | following predecessors stays among vertex indexes |
| FloydWarshallEngine.HopAdd | neo-graph-persist/src/main/java/org/neo4j/examples/server/plugins/Centrality.java:384-385 | a + b predecessor steps are a steps followed by b steps |
| FloydWarshallEngine.EndlessAvoidsStart | neo-graph-persist/src/main/java/org/neo4j/examples/server/plugins/Centrality.java:381-386 | the bounded walk gives up exactly when every vertex met within the bound exists and is not the start node |
| FloydWarshallEngine.Pigeonhole | neo-graph-persist/src/main/java/org/neo4j/examples/server/plugins/Centrality.java:381-386 | more than n hops over n vertices repeat a vertex |
| FloydWarshallEngine.AvoidsStartForever | neo-graph-persist/src/main/java/org/neo4j/examples/server/plugins/Centrality.java:381-386 | once a hop repeats before the start is met, every later hop repeats that cycle and never meets the start |
| FloydWarshallEngine.EndlessWalkNeverEnds | neo-graph-persist/src/main/java/org/neo4j/examples/server/plugins/Centrality.java:381-386 | when n steps do not reach the start, no number of steps does: the source's loop cycles forever |
| FloydWarshallEngine.AppendStep | neo-graph-persist/src/main/java/org/neo4j/examples/server/plugins/Centrality.java:383-387 | prepending the nodes of a walk one step at a time gives the walk from the predecessor extended by the current node |
| FloydWarshallEngine.FloydWarshall.constructor | neo-graph-persist/src/main/java/org/neo4j/examples/server/plugins/Centrality.java:243-260 | stores the cost model, node set and relationship set; nothing is calculated yet |
| FloydWarshallEngine.FloydWarshall.Reset | neo-graph-persist/src/main/java/org/neo4j/examples/server/plugins/Centrality.java:265-268 | clears `doneCalculation` and changes nothing else |
| FloydWarshallEngine.FloydWarshall.Calculate | neo-graph-persist/src/main/java/org/neo4j/examples/server/plugins/Centrality.java:275-350 | a second call changes nothing; a first call leaves fresh arrays mirroring `Calculated`, the index map and the indexed nodes |
| FloydWarshallEngine.FloydWarshall.Build | neo-graph-persist/src/main/java/org/neo4j/examples/server/plugins/Centrality.java:283-348 | the body of `calculate` leaves fresh arrays equal to `Calculated`, the map `IndexNodes` and the node array |
| FloydWarshallEngine.FloydWarshall.InitializeMatrices | neo-graph-persist/src/main/java/org/neo4j/examples/server/plugins/Centrality.java:286-297 | fresh, distinct n-by-n arrays: `startCost` on the diagonal, `infinitelyBad` elsewhere, no predecessor |
| FloydWarshallEngine.FloydWarshall.IndexNodeSet | neo-graph-persist/src/main/java/org/neo4j/examples/server/plugins/Centrality.java:298-304 | the index map is `IndexNodes` of the node set and the fresh node array lists the node set |
| FloydWarshallEngine.FloydWarshall.PutRelationshipSet | neo-graph-persist/src/main/java/org/neo4j/examples/server/plugins/Centrality.java:306-331 | the arrays end up mirroring `PutRelationships` of the relationship set |
| FloydWarshallEngine.FloydWarshall.PutRelationshipAt | neo-graph-persist/src/main/java/org/neo4j/examples/server/plugins/Centrality.java:308-330 | one loop iteration leaves the arrays mirroring `PutRelationship` |
| FloydWarshallEngine.FloydWarshall.Relax | neo-graph-persist/src/main/java/org/neo4j/examples/server/plugins/Centrality.java:333-348 | the triple loop leaves the arrays mirroring `RelaxPivots` over all n pivots |
| FloydWarshallEngine.FloydWarshall.RelaxPivotAt | neo-graph-persist/src/main/java/org/neo4j/examples/server/plugins/Centrality.java:335-347 | the i loop leaves the arrays mirroring `RelaxPivot` |
| FloydWarshallEngine.FloydWarshall.RelaxRowAt | neo-graph-persist/src/main/java/org/neo4j/examples/server/plugins/Centrality.java:337-346 | the j loop leaves the arrays mirroring `RelaxRow` |
| FloydWarshallEngine.FloydWarshall.RelaxCellAt | neo-graph-persist/src/main/java/org/neo4j/examples/server/plugins/Centrality.java:339-345 | one step leaves the arrays mirroring `RelaxCell` |
| FloydWarshallEngine.FloydWarshall.GetCost | neo-graph-persist/src/main/java/org/neo4j/examples/server/plugins/Centrality.java:360-364 | calculates at most once and returns the calculated cost between the two nodes, or `UnknownNode` for a node without an index |
| FloydWarshallEngine.FloydWarshall.GetPath | neo-graph-persist/src/main/java/org/neo4j/examples/server/plugins/Centrality.java:374-389 | calculates at most once and returns `PathBetween`: the walk back from the target, or the reason it fails |
| FloydWarshallEngine.FloydWarshall.WalkPredecessors | neo-graph-persist/src/main/java/org/neo4j/examples/server/plugins/Centrality.java:377-388 | the loop computes `WalkBack` over the start node's row of the predecessor array |
| EnginePaths.PutRelationshipLinked | neo-graph-persist/src/main/java/org/neo4j/examples/server/plugins/Centrality.java:308-330 | writing a relationship records its near endpoint as the predecessor of its far endpoint, and that relationship joins the two nodes in a followed direction; other predecessors keep that property |
| EnginePaths.PutRelationshipsLinked | neo-graph-persist/src/main/java/org/neo4j/examples/server/plugins/Centrality.java:306-331 | after the relationship loop, every recorded predecessor p of column j names a relationship from node p to node j in a followed direction |
| EnginePaths.RelaxCellLinked | neo-graph-persist/src/main/java/org/neo4j/examples/server/plugins/Centrality.java:339-345 | a relaxation step copies a predecessor within its column (`predecessors[v][j]` into `predecessors[i][j]`), so the property is kept |
| EnginePaths.RowLinkedKept | neo-graph-persist/src/main/java/org/neo4j/examples/server/plugins/Centrality.java:337-346 | the j loop keeps every predecessor linked to its column's node |
| EnginePaths.PivotLinkedKept | neo-graph-persist/src/main/java/org/neo4j/examples/server/plugins/Centrality.java:335-347 | the i loop keeps every predecessor linked to its column's node |
| EnginePaths.RelaxationLinkedKept | neo-graph-persist/src/main/java/org/neo4j/examples/server/plugins/Centrality.java:333-348 | relaxation keeps every predecessor linked to its column's node |
| EnginePaths.CalculatedLinked | neo-graph-persist/src/main/java/org/neo4j/examples/server/plugins/Centrality.java:275-350 | after `calculate`, every predecessor p recorded for column j, in any row, names a relationship from node p to node j |
| EnginePaths.WalkFollowsRelationships | neo-graph-persist/src/main/java/org/neo4j/examples/server/plugins/Centrality.java:380-388 | each step the walk takes back along a linked row follows a relationship of the graph |
| EnginePaths.PathFollowsRelationships | neo-graph-persist/src/main/java/org/neo4j/examples/server/plugins/Centrality.java:374-389 | every two neighbouring nodes of a path `getPath` returns are joined by a relationship of the relationship set, in the configured direction (start to end for OUTGOING, end to start for INCOMING) |
| EngineCosts.DirectCosts | neo-graph-persist/src/main/java/org/neo4j/examples/server/plugins/Centrality.java:286-331 | the cost matrix before relaxation, with the relationships' direct costs written in, is n-by-n |
| EngineCosts.PutRelationshipsNonNegative | neo-graph-persist/src/main/java/org/neo4j/examples/server/plugins/Centrality.java:306-331 | writing non-negative relationship costs over a non-negative matrix leaves every cell non-negative |
| EngineCosts.RelaxCellKeeps | neo-graph-persist/src/main/java/org/neo4j/examples/server/plugins/Centrality.java:339-345 | a relaxation step writes the accumulation of two cells, so it keeps any property of costs that accumulation preserves |
| EngineCosts.RowKeeps | neo-graph-persist/src/main/java/org/neo4j/examples/server/plugins/Centrality.java:337-346 | the j loop keeps any property of costs that accumulation preserves |
| EngineCosts.PivotKeeps | neo-graph-persist/src/main/java/org/neo4j/examples/server/plugins/Centrality.java:335-347 | the i loop keeps any property of costs that accumulation preserves |
| EngineCosts.RelaxationKeeps | neo-graph-persist/src/main/java/org/neo4j/examples/server/plugins/Centrality.java:333-348 | relaxation keeps any property of costs that accumulation preserves |
| EngineCosts.RelaxationNonNegative | neo-graph-persist/src/main/java/org/neo4j/examples/server/plugins/Centrality.java:333-348 | under the laws, relaxation keeps every cost non-negative |
| EngineCosts.Phase | neo-graph-persist/src/main/java/org/neo4j/examples/server/plugins/Centrality.java:335-347 | all cells relaxed at once from the costs before the pivot form an n-by-n matrix |
| EngineCosts.RowMixed | neo-graph-persist/src/main/java/org/neo4j/examples/server/plugins/Centrality.java:337-346 | while the pivot's diagonal cost is non-negative, after the j loop the cells already visited hold their phase value and the others are untouched |
| EngineCosts.PivotMixed | neo-graph-persist/src/main/java/org/neo4j/examples/server/plugins/Centrality.java:335-347 | after the i loop over the first i rows, those rows hold their phase values and the rest are untouched |
| EngineCosts.PivotIsPhase | neo-graph-persist/src/main/java/org/neo4j/examples/server/plugins/Centrality.java:335-347 | relaxing in place row by row gives the same costs as relaxing every cell from the costs before the pivot, because the pivot's row and column do not change |
| EngineCosts.PhaseCostBounds | neo-graph-persist/src/main/java/org/neo4j/examples/server/plugins/Centrality.java:339-345 | after a step a cell is no worse than before, and no worse than the accumulated cost through the pivot |
| EngineCosts.PhaseTriangleCell | neo-graph-persist/src/main/java/org/neo4j/examples/server/plugins/Centrality.java:333-348 | after pivot k, a cell is no worse than the way through any pivot m <= k, given the triangle through the earlier pivots |
| EngineCosts.PhaseTriangle | neo-graph-persist/src/main/java/org/neo4j/examples/server/plugins/Centrality.java:333-348 | pivot k extends the triangle inequality from pivots below k to pivots up to k |
| EngineCosts.PivotTriangle | neo-graph-persist/src/main/java/org/neo4j/examples/server/plugins/Centrality.java:335-347 | the in-place pivot k extends the triangle inequality to pivot k |
| EngineCosts.TriangleUpTo | neo-graph-persist/src/main/java/org/neo4j/examples/server/plugins/Centrality.java:333-348 | after pivots 0 .. m - 1 the costs satisfy the triangle inequality through each of them |
| EngineCosts.CalculatedTriangle | neo-graph-persist/src/main/java/org/neo4j/examples/server/plugins/Centrality.java:275-350 | under the laws, the costs `calculate` leaves satisfy the triangle inequality through every vertex |
| EngineCosts.CostTriangle | neo-graph-persist/src/main/java/org/neo4j/examples/server/plugins/Centrality.java:352-364 | `getCost(u, w)` is no worse than `getCost(u, v)` accumulated with `getCost(v, w)`, for any three known nodes |
| EngineCosts.TriangleBoundsWalk | neo-graph-persist/src/main/java/org/neo4j/examples/server/plugins/Centrality.java:352-364 | a cost matrix with the triangle inequality puts every cell no worse than any walk between its two vertices |
| EngineCosts.CalculatedIsShortest | neo-graph-persist/src/main/java/org/neo4j/examples/server/plugins/Centrality.java:352-364 | under the laws, the cost `getCost` reports for two nodes is no worse than the accumulated direct cost of any walk between them: it is a lower bound on every walk |
| Centrality.MedianSums | neo-graph-persist/src/main/java/org/neo4j/examples/server/plugins/Centrality.java:143-157 | the map's keys are exactly the nodes of the node set |
| Centrality.Radii | neo-graph-persist/src/main/java/org/neo4j/examples/server/plugins/Centrality.java:178-188 | the map's keys are exactly the nodes of the node set |
| Centrality.FirstMinimum | neo-graph-persist/src/main/java/org/neo4j/examples/server/plugins/Centrality.java:160-168 | a selected node is one of the keys |
| Centrality.DistanceSumAppend | neo-graph-persist/src/main/java/org/neo4j/examples/server/plugins/Centrality.java:148-156 | the sum of distances splits over concatenated end lists |
| Centrality.DistanceSumSingle | neo-graph-persist/src/main/java/org/neo4j/examples/server/plugins/Centrality.java:151-153 | an end node adds its cost, or nothing when it is the start node |
| Centrality.EccentricityIsMaximum | neo-graph-persist/src/main/java/org/neo4j/examples/server/plugins/Centrality.java:181-187 | the radius is at least 0 and at least the cost to every other node, and equals 0 or one of those costs |
| Centrality.FirstMinimumIsLeast | neo-graph-persist/src/main/java/org/neo4j/examples/server/plugins/Centrality.java:160-168 | null exactly for no keys; no key scores less than the selected one; every key listed before it scores strictly more, so ties go to the first key |
| Centrality.SelectFirstMinimum | neo-graph-persist/src/main/java/org/neo4j/examples/server/plugins/Centrality.java:160-168 | the selection loop computes `FirstMinimum` |
| Centrality.AddDistances | neo-graph-persist/src/main/java/org/neo4j/examples/server/plugins/Centrality.java:148-156 | the inner loop sets the start node's entry to its sum of distances and changes no other entry |
| Centrality.GraphMedianAlgo | neo-graph-persist/src/main/java/org/neo4j/examples/server/plugins/Centrality.java:142-171 | returns null exactly for an empty node set, else a node of the set whose distance sum no node beats, the first such in key order |
| Centrality.RaiseRadius | neo-graph-persist/src/main/java/org/neo4j/examples/server/plugins/Centrality.java:181-187 | the inner loop sets the start node's entry to its eccentricity and changes no other entry |
| Centrality.GraphCenterAlgo | neo-graph-persist/src/main/java/org/neo4j/examples/server/plugins/Centrality.java:176-201 | returns null exactly for an empty node set, else a node of the set whose eccentricity no node beats, the first such in key order |
| Centrality.SelectionIsLeast | neo-graph-persist/src/main/java/org/neo4j/examples/server/plugins/Centrality.java:160-168 | over a key order listing the node set: null exactly when it is empty, otherwise a member with the least score |
| AllPairsPaths.InitialWeights | neo-graph-persist/src/main/java/org/neo4j/examples/server/plugins/MinimaxFloydWarshall.java:17-24 | an n-by-n matrix, n the number of adjacency maps |
| AllPairsPaths.InitialLengths | neo-graph-persist/src/main/java/org/neo4j/examples/server/plugins/MinimaxFloydWarshall.java:90-102 | an n-by-n matrix, n the number of adjacency maps |
| AllPairsPaths.InitialNext | neo-graph-persist/src/main/java/org/neo4j/examples/server/plugins/MinimaxFloydWarshall.java:26-30 | an n-by-n matrix |
| AllPairsPaths.Extract | neo-graph-persist/src/main/java/org/neo4j/examples/server/plugins/MinimaxFloydWarshall.java:45-55 | every vertex the recursion adds is a vertex index |
| AllPairsPaths.CardinalityStep | neo-graph-persist/src/main/java/org/neo4j/examples/server/plugins/MinimaxFloydWarshall.java:49-53 | pushing a new pair onto the stack shrinks the set of pairs not on it by one |
| AllPairsPaths.ExtractReturns | neo-graph-persist/src/main/java/org/neo4j/examples/server/plugins/MinimaxFloydWarshall.java:45-55 | when `Extract` returns, the source's recursion with any deeper stack returns the same path |
| AllPairsPaths.DivergenceBlamesStack | neo-graph-persist/src/main/java/org/neo4j/examples/server/plugins/MinimaxFloydWarshall.java:45-55 | if the bounded recursion returns where `Extract` refuses, some pair on the stack returns within the bound too |
| AllPairsPaths.ExtractDiverges | neo-graph-persist/src/main/java/org/neo4j/examples/server/plugins/MinimaxFloydWarshall.java:45-55 | when `Extract` gives `None` from an empty stack, the source's recursion returns at no stack depth |
| AllPairsPaths.PathsShape | neo-graph-persist/src/main/java/org/neo4j/examples/server/plugins/MinimaxFloydWarshall.java:59-72 | `ps` is n-by-n; a cell is null exactly when its distance is `Integer.MAX_VALUE`; otherwise its path starts at i, ends at j, is [i] alone on the diagonal and visits only vertex indexes |
| AllPairsPaths.HopsJoin | neo-graph-persist/src/main/java/org/neo4j/examples/server/plugins/MinimaxFloydWarshall.java:50-52 | two direct-hop paths sharing their junction vertex splice into one |
| AllPairsPaths.ExtractHops | neo-graph-persist/src/main/java/org/neo4j/examples/server/plugins/MinimaxFloydWarshall.java:45-55 | with sound next vertices, i, the extracted vertices and j form a path whose every step has no next vertex |
| AllPairsPaths.PathsFollowLinks | neo-graph-persist/src/main/java/org/neo4j/examples/server/plugins/MinimaxFloydWarshall.java:59-72 | with sound next vertices and untouched direct cells, every step of every returned path is a link of the graph |
| AllPairsPaths.UntouchedDirectLinks | neo-graph-persist/src/main/java/org/neo4j/examples/server/plugins/MinimaxFloydWarshall.java:17-24 | when every cell without a next vertex keeps its initial weight, every finite cell between two different vertices with no next vertex is a link of the graph and holds that link's weight |
| ShortestPaths.Initial | neo-graph-persist/src/main/java/org/neo4j/examples/server/plugins/MinimaxFloydWarshall.java:17-30 | n-by-n distance and next-vertex matrices |
| ShortestPaths.RelaxCell | neo-graph-persist/src/main/java/org/neo4j/examples/server/plugins/MinimaxFloydWarshall.java:36-41 | one step keeps both matrices n-by-n |
| ShortestPaths.RelaxRow | neo-graph-persist/src/main/java/org/neo4j/examples/server/plugins/MinimaxFloydWarshall.java:35-42 | the j loop keeps both matrices n-by-n |
| ShortestPaths.RelaxPivot | neo-graph-persist/src/main/java/org/neo4j/examples/server/plugins/MinimaxFloydWarshall.java:34-42 | the i loop keeps both matrices n-by-n |
| ShortestPaths.RelaxPivots | neo-graph-persist/src/main/java/org/neo4j/examples/server/plugins/MinimaxFloydWarshall.java:33-42 | the k loop keeps both matrices n-by-n |
| ShortestPaths.Final | neo-graph-persist/src/main/java/org/neo4j/examples/server/plugins/MinimaxFloydWarshall.java:17-42 | the final matrices are n-by-n |
| ShortestPaths.RelaxCellEffect | neo-graph-persist/src/main/java/org/neo4j/examples/server/plugins/MinimaxFloydWarshall.java:36-41 | a step changes cell (i, j) alone, exactly when both legs have a path and their sum is strictly shorter; it then holds that sum and next vertex k |
| ShortestPaths.NoLongerTransitive | neo-graph-persist/src/main/java/org/neo4j/examples/server/plugins/MinimaxFloydWarshall.java:38 | "no longer than" is transitive |
| ShortestPaths.RowNeverLengthens | neo-graph-persist/src/main/java/org/neo4j/examples/server/plugins/MinimaxFloydWarshall.java:35-42 | the j loop lengthens no distance |
| ShortestPaths.PivotNeverLengthens | neo-graph-persist/src/main/java/org/neo4j/examples/server/plugins/MinimaxFloydWarshall.java:34-42 | the i loop lengthens no distance |
| ShortestPaths.RelaxationNeverLengthens | neo-graph-persist/src/main/java/org/neo4j/examples/server/plugins/MinimaxFloydWarshall.java:33-42 | relaxation lengthens no distance |
| ShortestPaths.FinalNoLongerThanLinks | neo-graph-persist/src/main/java/org/neo4j/examples/server/plugins/MinimaxFloydWarshall.java:17-42 | every final distance is at most the weight of the direct link, and at most 0 on the diagonal without a self-link |
| ShortestPaths.InitialSound | neo-graph-persist/src/main/java/org/neo4j/examples/server/plugins/MinimaxFloydWarshall.java:17-30 | the initial matrices satisfy the relaxation invariant `Sound` |
| ShortestPaths.CellSound | neo-graph-persist/src/main/java/org/neo4j/examples/server/plugins/MinimaxFloydWarshall.java:36-41 | one step preserves `Sound`: distances stay in [0, INF], every next vertex is a proper intermediate with both halves reachable, and cells without one keep their initial weight |
| ShortestPaths.RowSound | neo-graph-persist/src/main/java/org/neo4j/examples/server/plugins/MinimaxFloydWarshall.java:35-42 | the j loop preserves `Sound` |
| ShortestPaths.PivotSound | neo-graph-persist/src/main/java/org/neo4j/examples/server/plugins/MinimaxFloydWarshall.java:34-42 | the i loop preserves `Sound` |
| ShortestPaths.RelaxationSound | neo-graph-persist/src/main/java/org/neo4j/examples/server/plugins/MinimaxFloydWarshall.java:33-42 | the k loop preserves `Sound` |
| ShortestPaths.FinalSound | neo-graph-persist/src/main/java/org/neo4j/examples/server/plugins/MinimaxFloydWarshall.java:17-42 | the final matrices satisfy `Sound` for non-negative well-formed links |
| ShortestPaths.RowMixed | neo-graph-persist/src/main/java/org/neo4j/examples/server/plugins/MinimaxFloydWarshall.java:35-42 | while row i is relaxed in place, the cells already visited hold their phase value and the rest still hold their old values |
| ShortestPaths.PivotMixed | neo-graph-persist/src/main/java/org/neo4j/examples/server/plugins/MinimaxFloydWarshall.java:34-42 | after rows 0 .. i - 1 of a pivot, those rows hold their phase values and the others are untouched |
| ShortestPaths.PivotIsPhase | neo-graph-persist/src/main/java/org/neo4j/examples/server/plugins/MinimaxFloydWarshall.java:34-42 | with d[k][k] >= 0, relaxing in place through pivot k equals computing every cell from the old matrices |
| ShortestPaths.PhaseTriangle | neo-graph-persist/src/main/java/org/neo4j/examples/server/plugins/MinimaxFloydWarshall.java:34-42 | a pivot extends the triangle inequality from pivots below k to pivots below k + 1 |
| ShortestPaths.TriangleUpTo | neo-graph-persist/src/main/java/org/neo4j/examples/server/plugins/MinimaxFloydWarshall.java:33-42 | after pivots 0 .. m - 1, d[i][j] <= d[i][k] + d[k][j] for every k < m with both legs reachable |
| ShortestPaths.FinalTriangle | neo-graph-persist/src/main/java/org/neo4j/examples/server/plugins/MinimaxFloydWarshall.java:13-42 | for non-negative weights the final distances satisfy the triangle inequality through every vertex |
| ShortestPaths.ShortestPathsFollowLinks | neo-graph-persist/src/main/java/org/neo4j/examples/server/plugins/MinimaxFloydWarshall.java:13-75 | when every extraction returns, `ps` is n-by-n, null exactly where no path was found, and each path runs from i to j (just [i] for i = j) along links of the graph |
| ShortestPaths.PathWeightJoin | neo-graph-persist/src/main/java/org/neo4j/examples/server/plugins/MinimaxFloydWarshall.java:50-52 | two walks sharing their junction vertex join into a walk whose weight is the sum of theirs |
| ShortestPaths.CellLegs | neo-graph-persist/src/main/java/org/neo4j/examples/server/plugins/MinimaxFloydWarshall.java:36-41 | one step keeps the two legs through every next vertex within their cell: a recorded k comes with exactly the sum through k, and a step only shortens other cells |
| ShortestPaths.RowLegs | neo-graph-persist/src/main/java/org/neo4j/examples/server/plugins/MinimaxFloydWarshall.java:35-42 | the j loop keeps the legs within their cells |
| ShortestPaths.PivotLegs | neo-graph-persist/src/main/java/org/neo4j/examples/server/plugins/MinimaxFloydWarshall.java:34-42 | the i loop keeps the legs within their cells |
| ShortestPaths.RelaxationLegs | neo-graph-persist/src/main/java/org/neo4j/examples/server/plugins/MinimaxFloydWarshall.java:33-42 | the k loop keeps the legs within their cells |
| ShortestPaths.FinalLegsExact | neo-graph-persist/src/main/java/org/neo4j/examples/server/plugins/MinimaxFloydWarshall.java:13-42 | for non-negative weights the two legs through every final next vertex add up to its cell exactly |
| ShortestPaths.ExtractWeight | neo-graph-persist/src/main/java/org/neo4j/examples/server/plugins/MinimaxFloydWarshall.java:45-55 | with exact legs and link weights in the direct cells, i, the extracted vertices and j form a walk of the graph whose weight is ds[i][j] |
| ShortestPaths.FinalPathFacts | neo-graph-persist/src/main/java/org/neo4j/examples/server/plugins/MinimaxFloydWarshall.java:17-42 | for non-negative weights the final next vertices are proper intermediates with exact legs, the direct cells hold link weights, and ds[i][i] is 0 for a vertex without a self-loop |
| ShortestPaths.PathsWeigh | neo-graph-persist/src/main/java/org/neo4j/examples/server/plugins/MinimaxFloydWarshall.java:59-72 | under those facts every returned path is a walk of the graph weighing exactly its cell's distance, on the diagonal when that distance is 0 |
| ShortestPaths.ShortestPathWeights | neo-graph-persist/src/main/java/org/neo4j/examples/server/plugins/MinimaxFloydWarshall.java:10-75 | for non-negative weights every returned path is a walk of the graph whose total weight is ds[i][j], for i != j and for a vertex without a self-loop |
| ShortestPaths.WalkBound | neo-graph-persist/src/main/java/org/neo4j/examples/server/plugins/MinimaxFloydWarshall.java:33-42 | when the distances keep the triangle inequality and no cell exceeds its link, no walk of at least one link weighs less than the distance between its ends |
| ShortestPaths.FinalIsLeast | neo-graph-persist/src/main/java/org/neo4j/examples/server/plugins/MinimaxFloydWarshall.java:10-42 | for non-negative weights no walk of at least one link weighs less than the final distance between its ends; with ShortestPathWeights, every returned path is a shortest walk |
| MinimaxPaths.Initial | neo-graph-persist/src/main/java/org/neo4j/examples/server/plugins/MinimaxFloydWarshall.java:90-108 | n-by-n weight, length and next-vertex matrices |
| MinimaxPaths.Max | neo-graph-persist/src/main/java/org/neo4j/examples/server/plugins/MinimaxFloydWarshall.java:115 | `Math.max`: at least both arguments and equal to one of them |
| MinimaxPaths.RelaxCell | neo-graph-persist/src/main/java/org/neo4j/examples/server/plugins/MinimaxFloydWarshall.java:114-121 | one step keeps the three matrices n-by-n |
| MinimaxPaths.RelaxRow | neo-graph-persist/src/main/java/org/neo4j/examples/server/plugins/MinimaxFloydWarshall.java:113-122 | the j loop keeps the three matrices n-by-n |
| MinimaxPaths.RelaxPivot | neo-graph-persist/src/main/java/org/neo4j/examples/server/plugins/MinimaxFloydWarshall.java:112-122 | the i loop keeps the three matrices n-by-n |
| MinimaxPaths.RelaxPivots | neo-graph-persist/src/main/java/org/neo4j/examples/server/plugins/MinimaxFloydWarshall.java:111-122 | the k loop keeps the three matrices n-by-n |
| MinimaxPaths.Final | neo-graph-persist/src/main/java/org/neo4j/examples/server/plugins/MinimaxFloydWarshall.java:90-122 | the final matrices are n-by-n |
| MinimaxPaths.RelaxCellEffect | neo-graph-persist/src/main/java/org/neo4j/examples/server/plugins/MinimaxFloydWarshall.java:114-121 | a step changes cell (i, j) alone, exactly when both legs have a path and (max weight, length) of the candidate comes lexicographically first; it then holds that candidate and next vertex k |
| MinimaxPaths.NoWorseTransitive | neo-graph-persist/src/main/java/org/neo4j/examples/server/plugins/MinimaxFloydWarshall.java:117 | "no worse in (weight, length) order" is transitive |
| MinimaxPaths.SoundEqual | neo-graph-persist/src/main/java/org/neo4j/examples/server/plugins/MinimaxFloydWarshall.java:111-122 | the relaxation invariant carries over to an equal value |
| MinimaxPaths.InitialSound | neo-graph-persist/src/main/java/org/neo4j/examples/server/plugins/MinimaxFloydWarshall.java:90-108 | the initial matrices satisfy `Sound` |
| MinimaxPaths.CellSound | neo-graph-persist/src/main/java/org/neo4j/examples/server/plugins/MinimaxFloydWarshall.java:114-121 | one step preserves `Sound`: weights at most INF, lengths non-negative, every next vertex a proper intermediate with both halves reachable, cells without one untouched |
| MinimaxPaths.RowSound | neo-graph-persist/src/main/java/org/neo4j/examples/server/plugins/MinimaxFloydWarshall.java:113-122 | the j loop preserves `Sound` |
| MinimaxPaths.PivotSound | neo-graph-persist/src/main/java/org/neo4j/examples/server/plugins/MinimaxFloydWarshall.java:112-122 | the i loop preserves `Sound` |
| MinimaxPaths.RelaxationSound | neo-graph-persist/src/main/java/org/neo4j/examples/server/plugins/MinimaxFloydWarshall.java:111-122 | the k loop preserves `Sound` |
| MinimaxPaths.FinalSound | neo-graph-persist/src/main/java/org/neo4j/examples/server/plugins/MinimaxFloydWarshall.java:90-122 | the final matrices satisfy `Sound` for well-formed links of any sign |
| MinimaxPaths.RowMixed | neo-graph-persist/src/main/java/org/neo4j/examples/server/plugins/MinimaxFloydWarshall.java:113-122 | while row i is relaxed in place, the visited cells hold their phase value and the rest their old values |
| MinimaxPaths.PivotMixed | neo-graph-persist/src/main/java/org/neo4j/examples/server/plugins/MinimaxFloydWarshall.java:112-122 | after rows 0 .. i - 1 of a pivot, those rows hold their phase values and the others are untouched |
| MinimaxPaths.PivotIsPhase | neo-graph-persist/src/main/java/org/neo4j/examples/server/plugins/MinimaxFloydWarshall.java:112-122 | with l[k][k] >= 0, relaxing in place through pivot k equals computing every cell from the old matrices |
| MinimaxPaths.PivotNeverWorsens | neo-graph-persist/src/main/java/org/neo4j/examples/server/plugins/MinimaxFloydWarshall.java:112-122 | no cell gets worse in (weight, length) order during a pivot |
| MinimaxPaths.RelaxationNeverWorsens | neo-graph-persist/src/main/java/org/neo4j/examples/server/plugins/MinimaxFloydWarshall.java:111-122 | no cell gets worse in (weight, length) order during relaxation |
| MinimaxPaths.FinalNoWorseThanLinks | neo-graph-persist/src/main/java/org/neo4j/examples/server/plugins/MinimaxFloydWarshall.java:90-122 | every final weight is at most the weight of the direct link, and at most 0 on the diagonal without a self-link |
| MinimaxPaths.PhaseBottleneck | neo-graph-persist/src/main/java/org/neo4j/examples/server/plugins/MinimaxFloydWarshall.java:112-122 | a pivot extends the bottleneck inequality from pivots below k to pivots below k + 1 |
| MinimaxPaths.BottleneckUpTo | neo-graph-persist/src/main/java/org/neo4j/examples/server/plugins/MinimaxFloydWarshall.java:111-122 | after pivots 0 .. m - 1, w[i][j] <= max(w[i][k], w[k][j]) for every k < m with both legs reachable |
| MinimaxPaths.FinalBottleneck | neo-graph-persist/src/main/java/org/neo4j/examples/server/plugins/MinimaxFloydWarshall.java:77-122 | the final weights satisfy the bottleneck inequality through every vertex: no detour has a smaller maximum |
| MinimaxPaths.MinimaxPathsFollowLinks | neo-graph-persist/src/main/java/org/neo4j/examples/server/plugins/MinimaxFloydWarshall.java:86-155 | when every extraction returns, `ps` is n-by-n, null exactly where no path was found, and each path runs from i to j (just [i] for i = j) along links of the graph |
| MinimaxPaths.BottleneckJoin | neo-graph-persist/src/main/java/org/neo4j/examples/server/plugins/MinimaxFloydWarshall.java:130-132 | two walks sharing their junction vertex join into a walk whose largest link weight is the larger of theirs |
| MinimaxPaths.CellLegs | neo-graph-persist/src/main/java/org/neo4j/examples/server/plugins/MinimaxFloydWarshall.java:114-121 | one step keeps the larger weight of the two legs through every next vertex at most its cell's weight: a recorded k comes with exactly that maximum, and a step never raises another cell's weight |
| MinimaxPaths.RowLegs | neo-graph-persist/src/main/java/org/neo4j/examples/server/plugins/MinimaxFloydWarshall.java:113-122 | the j loop keeps the legs within their cells |
| MinimaxPaths.PivotLegs | neo-graph-persist/src/main/java/org/neo4j/examples/server/plugins/MinimaxFloydWarshall.java:112-122 | the i loop keeps the legs within their cells |
| MinimaxPaths.RelaxationLegs | neo-graph-persist/src/main/java/org/neo4j/examples/server/plugins/MinimaxFloydWarshall.java:111-122 | the k loop keeps the legs within their cells |
| MinimaxPaths.FinalLegsExact | neo-graph-persist/src/main/java/org/neo4j/examples/server/plugins/MinimaxFloydWarshall.java:86-122 | the larger weight of the two legs through every final next vertex is its cell's weight exactly |
| MinimaxPaths.ExtractBottleneck | neo-graph-persist/src/main/java/org/neo4j/examples/server/plugins/MinimaxFloydWarshall.java:125-135 | with exact legs and link weights in the direct cells, i, the extracted vertices and j form a walk of the graph whose largest link weight is ws[i][j] |
| MinimaxPaths.FinalPathFacts | neo-graph-persist/src/main/java/org/neo4j/examples/server/plugins/MinimaxFloydWarshall.java:90-122 | the final next vertices are proper intermediates with exact legs, and the direct cells hold link weights |
| MinimaxPaths.PathsBottleneck | neo-graph-persist/src/main/java/org/neo4j/examples/server/plugins/MinimaxFloydWarshall.java:139-152 | under those facts every returned path is a walk of the graph, and for i != j its largest link weight is its cell's weight |
| MinimaxPaths.MinimaxPathBottlenecks | neo-graph-persist/src/main/java/org/neo4j/examples/server/plugins/MinimaxFloydWarshall.java:77-155 | every returned path is a walk of the graph, and for i != j the largest link weight along it is ws[i][j] |
| MinimaxPaths.WalkBound | neo-graph-persist/src/main/java/org/neo4j/examples/server/plugins/MinimaxFloydWarshall.java:111-122 | when the weights keep the bottleneck inequality and no cell exceeds its link, no walk of at least one link has a smaller largest weight than the cell of its ends |
| MinimaxPaths.FinalIsLeast | neo-graph-persist/src/main/java/org/neo4j/examples/server/plugins/MinimaxFloydWarshall.java:77-122 | no walk of at least one link has a smaller largest link weight than the final weight between its ends; with MinimaxPathBottlenecks, every returned path between two different vertices minimises the largest link weight |
| IntegerFloydWarshall.MinimaxFloydWarshall.constructor | neo-graph-persist/src/main/java/org/neo4j/examples/server/plugins/MinimaxFloydWarshall.java:6-8 | stores the adjacency list |
| IntegerFloydWarshall.MinimaxFloydWarshall.FindAllPairsShortestPaths | neo-graph-persist/src/main/java/org/neo4j/examples/server/plugins/MinimaxFloydWarshall.java:13-75 | returns a fresh array mirroring `AllPairsShortestPaths`, or `None` exactly when that is `None` (an extraction that never returns) |
| IntegerFloydWarshall.MinimaxFloydWarshall.InitialDistances | neo-graph-persist/src/main/java/org/neo4j/examples/server/plugins/MinimaxFloydWarshall.java:17-24 | a fresh n-by-n array mirroring `InitialWeights` |
| IntegerFloydWarshall.MinimaxFloydWarshall.InitialDistanceRow | neo-graph-persist/src/main/java/org/neo4j/examples/server/plugins/MinimaxFloydWarshall.java:21-23 | row i becomes that row of `InitialWeights` whatever order the keys are visited in; other rows are unchanged |
| IntegerFloydWarshall.MinimaxFloydWarshall.InitialNextVertices | neo-graph-persist/src/main/java/org/neo4j/examples/server/plugins/MinimaxFloydWarshall.java:26-30 | a fresh n-by-n array of -1 |
| IntegerFloydWarshall.MinimaxFloydWarshall.RelaxShortest | neo-graph-persist/src/main/java/org/neo4j/examples/server/plugins/MinimaxFloydWarshall.java:33-42 | the triple loop leaves the arrays mirroring `RelaxPivots` over all n pivots |
| IntegerFloydWarshall.MinimaxFloydWarshall.RelaxShortestPivot | neo-graph-persist/src/main/java/org/neo4j/examples/server/plugins/MinimaxFloydWarshall.java:34-42 | the i loop leaves the arrays mirroring `RelaxPivot` |
| IntegerFloydWarshall.MinimaxFloydWarshall.RelaxShortestRow | neo-graph-persist/src/main/java/org/neo4j/examples/server/plugins/MinimaxFloydWarshall.java:35-42 | the j loop leaves the arrays mirroring `RelaxRow` |
| IntegerFloydWarshall.MinimaxFloydWarshall.RelaxShortestCell | neo-graph-persist/src/main/java/org/neo4j/examples/server/plugins/MinimaxFloydWarshall.java:36-41 | one step leaves the arrays mirroring `RelaxCell` |
| IntegerFloydWarshall.MinimaxFloydWarshall.FindAllPairsMinimaxPaths | neo-graph-persist/src/main/java/org/neo4j/examples/server/plugins/MinimaxFloydWarshall.java:86-155 | returns a fresh array mirroring `AllPairsMinimaxPaths`, or `None` exactly when that is `None` |
| IntegerFloydWarshall.MinimaxFloydWarshall.InitialWeightsAndLengths | neo-graph-persist/src/main/java/org/neo4j/examples/server/plugins/MinimaxFloydWarshall.java:90-102 | fresh, distinct n-by-n arrays mirroring `InitialWeights` and `InitialLengths` |
| IntegerFloydWarshall.MinimaxFloydWarshall.InitialWeightAndLengthRow | neo-graph-persist/src/main/java/org/neo4j/examples/server/plugins/MinimaxFloydWarshall.java:96-101 | row i of both arrays becomes that row of the initial matrices whatever order the keys are visited in; other rows are unchanged |
| IntegerFloydWarshall.MinimaxFloydWarshall.RelaxMinimax | neo-graph-persist/src/main/java/org/neo4j/examples/server/plugins/MinimaxFloydWarshall.java:111-122 | the triple loop leaves the three arrays mirroring `RelaxPivots` over all n pivots |
| IntegerFloydWarshall.MinimaxFloydWarshall.RelaxMinimaxPivot | neo-graph-persist/src/main/java/org/neo4j/examples/server/plugins/MinimaxFloydWarshall.java:112-122 | the i loop leaves the arrays mirroring `RelaxPivot` |
| IntegerFloydWarshall.MinimaxFloydWarshall.RelaxMinimaxRow | neo-graph-persist/src/main/java/org/neo4j/examples/server/plugins/MinimaxFloydWarshall.java:113-122 | the j loop leaves the arrays mirroring `RelaxRow` |
| IntegerFloydWarshall.MinimaxFloydWarshall.RelaxMinimaxCell | neo-graph-persist/src/main/java/org/neo4j/examples/server/plugins/MinimaxFloydWarshall.java:114-121 | one step leaves the arrays mirroring `RelaxCell` |
| IntegerFloydWarshall.MinimaxFloydWarshall.ExtractPaths | neo-graph-persist/src/main/java/org/neo4j/examples/server/plugins/MinimaxFloydWarshall.java:59-72 | a fresh array mirroring `Paths`, or `None` exactly when some extraction never returns |
| IntegerFloydWarshall.MinimaxFloydWarshall.ExtractRow | neo-graph-persist/src/main/java/org/neo4j/examples/server/plugins/MinimaxFloydWarshall.java:62-72 | on success row i holds the cells `PathCell` describes; on failure some cell of row i never returns; other rows are unchanged |
| IntegerFloydWarshall.MinimaxFloydWarshall.Extract | neo-graph-persist/src/main/java/org/neo4j/examples/server/plugins/MinimaxFloydWarshall.java:46-54 | appends to `path` what the specification `Extract` returns, or gives `None` when the recursion re-enters a pair on its stack |
| MinimaxExample.InitialIsStage0 | neo-graph-persist/src/main/java/org/neo4j/examples/server/plugins/MinimaxFloydWarshall.java:90-108 | the example's initial matrices |
| MinimaxExample.PivotStep | neo-graph-persist/src/main/java/org/neo4j/examples/server/plugins/MinimaxFloydWarshall.java:112-122 | a pivot yields the matrices whose every cell is what the pivot computes from the old ones |
| MinimaxExample.After5 | neo-graph-persist/src/main/java/org/neo4j/examples/server/plugins/MinimaxFloydWarshall.java:111-122 | the example's matrices after all five pivots |
| MinimaxExample.Stage5ExtractsFrom1 | neo-graph-persist/src/main/java/org/neo4j/examples/server/plugins/MinimaxFloydWarshall.java:125-135 | the vertices the recursion extracts from vertex 1 on the example |
| MinimaxExample.Stage5Paths | neo-graph-persist/src/main/java/org/neo4j/examples/server/plugins/MinimaxFloydWarshall.java:139-152 | on the example every extraction returns, and the path 1 to 3 is [1, 0, 4, 3, 2, 3] while its recorded length is 3 |
| MinimaxExample.MinimaxPathMayRepeatVertex | neo-graph-persist/src/main/java/org/neo4j/examples/server/plugins/MinimaxFloydWarshall.java:83-84 | a well-formed graph on which the minimax search returns a path visiting vertex 3 twice, with five links where the length matrix records three |
| MinimaxExample.RepeatedPathBottleneck | neo-graph-persist/src/main/java/org/neo4j/examples/server/plugins/MinimaxFloydWarshall.java:80-84 | on the example, the path [1, 0, 4, 3, 2, 3] is a walk whose largest link weight is 3, the weight ws holds for vertices 1 and 3 |

## Left out

- Plugin entry points, `initializeFloydWarshall` and `main`: graph-database I/O and a demonstration program, outside the computation.
- The graph store: nodes are values of a type parameter `V` compared by value, relationships are records (start node, end node, id), and both sets are sequences in iteration order. Java compares `startNode != endNode` by reference; the model compares nodes by value.
- Node count: `calculate` sizes its matrices by the number of nodes in the whole database. The model sizes them by the node set, which the plugin passes as all nodes of the database.
- `Double` arithmetic: centrality costs and scores are `real`. There is no rounding, no NaN and no infinity, so `Double.MAX_VALUE` sentinels behave as ordinary large numbers.
- HashMap key order: `GraphMedianAlgo` and `GraphCenterAlgo` pick the first least key in the order the map yields its keys. That order is a parameter `keyOrder`, which lists each node once. The tie-break therefore follows that order, not the order of the node set.
- Java `int` overflow in `findAllPairsShortestPaths`: the sum `ds[i][k] + ds[k][j]` (MinimaxFloydWarshall.java:37) is an unbounded integer in `ShortestPaths.RelaxCell`. With weights near `Integer.MAX_VALUE`, Java wraps it to a negative number; the model does not.
- Java `int` overflow in `findAllPairsMinimaxPaths`: the length sum `ls[i][k] + ls[k][j]` (MinimaxFloydWarshall.java:116) is an unbounded integer in `MinimaxPaths.RelaxCell`. With lengths near `Integer.MAX_VALUE`, Java wraps it to a negative number, which then wins the length tie-break; the model does not.
- ShortestPaths.FinalTriangle: assumes non-negative weights, since the source does not detect negative cycles.
- ShortestPaths.ShortestPathsFollowLinks: assumes non-negative weights, for the same reason.
- ShortestPaths.ShortestPathWeights: assumes non-negative weights, for the same reason. On the diagonal of a vertex with a self-loop it promises nothing: the path is [i] alone, which weighs 0, while ds[i][i] keeps the self-loop's weight or a shorter cycle's.
- ShortestPaths.FinalIsLeast: assumes non-negative weights, for the same reason, and speaks of walks of at least one link.
- MinimaxPaths.MinimaxPathBottlenecks: it covers the largest link weight only. The doc comment's "shortest length" does not hold of the returned path, which may have more links than `ls` records (`MinimaxPathMayRepeatVertex`). On the diagonal the path is [i] and has no link.
- EnginePaths.PathFollowsRelationships: the returned path is not proved to cost what `getCost` reports. The model proves that each step follows a relationship. It does not prove that accumulating the relationship costs along the path gives the reported cost, which would need further laws on the start cost and the accumulator.
- Negative cycles: there is no detection, as in the source.
- EngineCosts.CalculatedIsShortest: it holds only under `ShortestPathLaws`, because the engine accepts any comparator, accumulator and evaluator. Without the laws (a negative cost, say) the costs need not be shortest. The lemma bounds the reported cost by every walk; it does not prove that some walk attains that cost.
- Self-loops and the diagonal: one might expect `getCost(u, u)` to be the start cost; that fails in the source, because the relationship loop writes a self-loop's cost over the diagonal cell (Centrality.java:315-329). The model writes it the same way (`PutRelationshipWrites`) and does not claim a start-cost diagonal.
- Well-formed links: the integer searches require every link to end at a vertex in range (`WellFormed`). An out-of-range key would be an `ArrayIndexOutOfBoundsException` in the source.
- MinimaxPaths.FinalNoWorseThanLinks: it also requires `WellFormed`, which the statement about final weights needs.
- Non-terminating path extraction: a `StackOverflowError` in the source. The model returns `None` for the whole matrix of paths. The model does not prove that extraction always returns on the final matrices. `MinimaxExample` shows a repeated vertex, but no diverging real case.
- Unknown nodes and missing predecessors in `getCost` and `getPath`: in the source these are a `NullPointerException` when an `Integer` is unboxed. The model returns a `Failure`.
- FloydWarshallEngine.WalkBack: a walk that cycles forever in the source is cut off after n steps and returned as `Failure(Endless)`. Lemma `EndlessWalkNeverEnds` shows that no longer walk would reach the start.
- `Arrays.fill` and array allocation: modelled by array initialisers.
- Concurrency, transactions and the caching of results across graph changes: the model has a single thread and a fixed graph.
