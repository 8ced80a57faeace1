/**
 * The graph median and graph centre of the centrality plugin
 * (GraphMedianAlgo and GraphCenterAlgo in Centrality.java), over an engine
 * whose costs are real numbers.
 *
 * Both scan the node set twice: first they fill a map from each node to a
 * score computed from `getCost`, then they walk the map's keys and keep the
 * first key with the least score.  The order in which a HashMap hands out its
 * keys is not fixed by the program; it is the parameter `keyOrder`.
 */
module Centrality {
  import opened Wrappers
  import opened FloydWarshallEngine

  /** No key is listed twice. */
  ghost predicate Distinct<V>(keys: seq<V>) {
    forall s, t :: 0 <= s < t < |keys| ==> keys[s] != keys[t]
  }

  /** `keyOrder` lists each node of `nodeSet` exactly once, as a key set does. */
  ghost predicate IsKeyOrder<V>(keyOrder: seq<V>, nodeSet: seq<V>) {
    && Distinct(keyOrder)
    && (forall v :: v in keyOrder ==> v in nodeSet)
    && (forall v :: v in nodeSet ==> v in keyOrder)
  }

  /** What `getCost(u, w)` returns for two nodes the engine knows. */
  function Cost<V(==)>(cm: CostModel<V, real>, nodes: seq<V>, rels: seq<Relationship<V>>, u: V, w: V): real
    requires u in nodes && w in nodes
  {
    IndexNodesPositions(nodes);
    CostBetween(cm, nodes, rels, u, w).value
  }

  /** Running sum of the costs from `u` to each node of `ends` other than `u`, in order. */
  function DistanceSum<V(==)>(cm: CostModel<V, real>, nodes: seq<V>, rels: seq<Relationship<V>>, u: V, ends: seq<V>): real
    requires u in nodes && forall w :: w in ends ==> w in nodes
  {
    if ends == [] then 0.0
    else
      var w := ends[|ends| - 1];
      DistanceSum(cm, nodes, rels, u, ends[..|ends| - 1]) + (if u != w then Cost(cm, nodes, rels, u, w) else 0.0)
  }

  /** Running maximum, from 0, of the costs from `u` to each node of `ends` other than `u`. */
  function Eccentricity<V(==)>(cm: CostModel<V, real>, nodes: seq<V>, rels: seq<Relationship<V>>, u: V, ends: seq<V>): real
    requires u in nodes && forall w :: w in ends ==> w in nodes
  {
    if ends == [] then 0.0
    else
      var w := ends[|ends| - 1];
      var r := Eccentricity(cm, nodes, rels, u, ends[..|ends| - 1]);
      if u != w && Cost(cm, nodes, rels, u, w) > r then Cost(cm, nodes, rels, u, w) else r
  }

  /** The map `GraphMedianAlgo` fills: each node to its distance sum over the whole node set. */
  function MedianSums<V(==)>(cm: CostModel<V, real>, nodes: seq<V>, rels: seq<Relationship<V>>, nodeSet: seq<V>): (sums: map<V, real>)
    requires forall w :: w in nodeSet ==> w in nodes
    ensures forall u :: u in sums ==> u in nodeSet
    ensures forall t :: 0 <= t < |nodeSet| ==> nodeSet[t] in sums
  {
    map u | u in nodeSet :: DistanceSum(cm, nodes, rels, u, nodeSet)
  }

  /** The map `GraphCenterAlgo` fills: each node to its radius over the whole node set. */
  function Radii<V(==)>(cm: CostModel<V, real>, nodes: seq<V>, rels: seq<Relationship<V>>, nodeSet: seq<V>): (radius: map<V, real>)
    requires forall w :: w in nodeSet ==> w in nodes
    ensures forall u :: u in radius ==> u in nodeSet
    ensures forall t :: 0 <= t < |nodeSet| ==> nodeSet[t] in radius
  {
    map u | u in nodeSet :: Eccentricity(cm, nodes, rels, u, nodeSet)
  }

  /**
   * The key the selection loop keeps: a key replaces the current best only
   * when its score is strictly smaller; `None` is Java's null.
   */
  function FirstMinimum<V(==)>(keys: seq<V>, score: map<V, real>): (best: Option<V>)
    requires forall k :: k in keys ==> k in score
    ensures best.Some? ==> best.value in keys
  {
    if keys == [] then None
    else
      var prev := FirstMinimum(keys[..|keys| - 1], score);
      var k := keys[|keys| - 1];
      if prev.None? || score[k] < score[prev.value] then Some(k) else prev
  }

  // ---------------------------------------------------------------------
  // Properties
  // ---------------------------------------------------------------------

  /** The distance sum splits over concatenation and a single node adds its cost, or nothing for `u` itself. */
  lemma {:induction false} DistanceSumAppend<V>(cm: CostModel<V, real>, nodes: seq<V>, rels: seq<Relationship<V>>, u: V, a: seq<V>, b: seq<V>)
    requires u in nodes && (forall w :: w in a ==> w in nodes) && (forall w :: w in b ==> w in nodes)
    ensures DistanceSum(cm, nodes, rels, u, a + b) == DistanceSum(cm, nodes, rels, u, a) + DistanceSum(cm, nodes, rels, u, b)
    decreases |b|
  {
    if b == [] {
      assert a + b == a;
    } else {
      var b' := b[..|b| - 1];
      assert (a + b)[..|a + b| - 1] == a + b';
      DistanceSumAppend(cm, nodes, rels, u, a, b');
    }
  }

  /** A single end node contributes its cost from `u`, or nothing when it is `u`. */
  lemma DistanceSumSingle<V>(cm: CostModel<V, real>, nodes: seq<V>, rels: seq<Relationship<V>>, u: V, w: V)
    requires u in nodes && w in nodes
    ensures DistanceSum(cm, nodes, rels, u, [w]) == if u == w then 0.0 else Cost(cm, nodes, rels, u, w)
  {
    assert [w][..0] == [];
  }

  /**
   * The radius is the largest of 0 and the costs from `u` to the other
   * nodes: at least each of them, and equal to 0 or to one of them.
   */
  lemma {:induction false} EccentricityIsMaximum<V>(cm: CostModel<V, real>, nodes: seq<V>, rels: seq<Relationship<V>>, u: V, ends: seq<V>)
    requires u in nodes && forall w :: w in ends ==> w in nodes
    ensures var r := Eccentricity(cm, nodes, rels, u, ends);
      && r >= 0.0
      && (forall w :: w in ends && w != u ==> Cost(cm, nodes, rels, u, w) <= r)
      && (r == 0.0 || exists w :: w in ends && w != u && Cost(cm, nodes, rels, u, w) == r)
  {
    if ends != [] {
      var front := ends[..|ends| - 1];
      EccentricityIsMaximum(cm, nodes, rels, u, front);
      assert forall w :: w in ends ==> w in front || w == ends[|ends| - 1];
      assert forall w :: w in front ==> w in ends;
    }
  }

  /**
   * The selected key exists exactly when there are keys; no key has a
   * smaller score; and every key listed before it has a strictly larger
   * score, so that of several least keys the first one listed wins.
   */
  lemma {:induction false} FirstMinimumIsLeast<V>(keys: seq<V>, score: map<V, real>)
    requires (forall k :: k in keys ==> k in score) && Distinct(keys)
    ensures var best := FirstMinimum(keys, score);
      && (best.None? <==> keys == [])
      && (best.Some? ==> forall t :: 0 <= t < |keys| ==> score[best.value] <= score[keys[t]])
      && (best.Some? ==> forall s, t :: 0 <= s < t < |keys| && keys[t] == best.value ==> score[keys[s]] > score[best.value])
  {
    if keys != [] {
      var last := |keys| - 1;
      var front, k := keys[..last], keys[last];
      assert forall t :: 0 <= t < last ==> front[t] == keys[t];
      FirstMinimumIsLeast(front, score);
      var prev := FirstMinimum(front, score);
      if prev.Some? {
        var p :| 0 <= p < last && front[p] == prev.value;
        assert keys[p] == prev.value;
        if !(score[k] < score[prev.value]) {
          forall s, t | 0 <= s < t < |keys| && keys[t] == prev.value
            ensures score[keys[s]] > score[prev.value]
          {
            assert t < last;
          }
        }
      }
    }
  }

  // ---------------------------------------------------------------------
  // The two algorithms
  // ---------------------------------------------------------------------

  /** The selection loop shared by both algorithms: the first key of least score. */
  method SelectFirstMinimum<V(==)>(keys: seq<V>, score: map<V, real>) returns (best: Option<V>)
    requires forall k :: k in keys ==> k in score
    ensures best == FirstMinimum(keys, score)
  {
    best := None;
    for t := 0 to |keys|
      invariant best == FirstMinimum(keys[..t], score)
    {
      assert keys[..t + 1][..t] == keys[..t];
      var k := keys[t];
      if best.None? || score[k] < score[best.value] {
        best := Some(k);
      }
    }
    assert keys[..|keys|] == keys;
  }

  /**
   * The inner loop of `GraphMedianAlgo` for one start node: adds to its entry,
   * which starts at 0, the cost to every listed node other than itself.
   */
  method AddDistances<V(==, 0)>(fw: FloydWarshall<V, real>, sums: map<V, real>, startNode: V, nodeSet: seq<V>) returns (sums': map<V, real>)
    requires fw.Valid() && startNode in fw.nodeSet && forall v :: v in nodeSet ==> v in fw.nodeSet
    requires startNode in sums && sums[startNode] == 0.0
    modifies fw
    ensures fw.Valid()
    ensures sums' == sums[startNode := DistanceSum(fw.cm, fw.nodeSet, fw.relationshipSet, startNode, nodeSet)]
  {
    sums' := sums;
    for e := 0 to |nodeSet|
      invariant fw.Valid()
      invariant sums' == sums[startNode := DistanceSum(fw.cm, fw.nodeSet, fw.relationshipSet, startNode, nodeSet[..e])]
    {
      var endNode := nodeSet[e];
      assert nodeSet[..e + 1][..e] == nodeSet[..e];
      ghost var before := DistanceSum(fw.cm, fw.nodeSet, fw.relationshipSet, startNode, nodeSet[..e]);
      if startNode != endNode {
        IndexedWhenListed(fw.nodeSet, startNode);
        IndexedWhenListed(fw.nodeSet, endNode);
        var c := fw.GetCost(startNode, endNode);
        assert DistanceSum(fw.cm, fw.nodeSet, fw.relationshipSet, startNode, nodeSet[..e + 1])
            == before + Cost(fw.cm, fw.nodeSet, fw.relationshipSet, startNode, endNode);
        sums' := sums'[startNode := sums'[startNode] + c.value];
      } else {
        assert DistanceSum(fw.cm, fw.nodeSet, fw.relationshipSet, startNode, nodeSet[..e + 1]) == before;
      }
    }
    assert nodeSet[..|nodeSet|] == nodeSet;
  }

  /**
   * The graph median: the node, in key order, with the least sum of costs to
   * the other nodes; `None` for an empty node set.
   */
  method GraphMedianAlgo<V(==, 0)>(fw: FloydWarshall<V, real>, nodeSet: seq<V>, keyOrder: seq<V>) returns (best: Option<V>)
    requires fw.Valid() && (forall v :: v in nodeSet ==> v in fw.nodeSet) && IsKeyOrder(keyOrder, nodeSet)
    modifies fw
    ensures fw.Valid()
    ensures best == FirstMinimum(keyOrder, MedianSums(fw.cm, fw.nodeSet, fw.relationshipSet, nodeSet))
    ensures best.None? <==> nodeSet == []
    ensures best.Some? ==> best.value in nodeSet && forall v :: v in nodeSet ==>
              MedianSums(fw.cm, fw.nodeSet, fw.relationshipSet, nodeSet)[best.value] <= MedianSums(fw.cm, fw.nodeSet, fw.relationshipSet, nodeSet)[v]
  {
    var sums: map<V, real> := map[];
    for s := 0 to |nodeSet|
      invariant fw.Valid()
      invariant forall u :: u in sums ==> u in nodeSet[..s]
      invariant forall t :: 0 <= t < s ==> nodeSet[t] in sums
      invariant forall u :: u in sums ==> sums[u] == DistanceSum(fw.cm, fw.nodeSet, fw.relationshipSet, u, nodeSet)
    {
      assert nodeSet[..s + 1] == nodeSet[..s] + [nodeSet[s]];
      sums := AddDistances(fw, sums[nodeSet[s] := 0.0], nodeSet[s], nodeSet);
    }
    assert nodeSet[..|nodeSet|] == nodeSet;
    ghost var spec := MedianSums(fw.cm, fw.nodeSet, fw.relationshipSet, nodeSet);
    assert sums.Keys == spec.Keys;
    assert sums == spec;
    best := SelectFirstMinimum(keyOrder, sums);
    SelectionIsLeast(keyOrder, nodeSet, sums);
  }

  /**
   * The inner loop of `GraphCenterAlgo` for one start node: raises its entry,
   * which starts at 0, to every larger cost to a listed node other than itself.
   */
  method RaiseRadius<V(==, 0)>(fw: FloydWarshall<V, real>, radius: map<V, real>, startNode: V, nodeSet: seq<V>) returns (radius': map<V, real>)
    requires fw.Valid() && startNode in fw.nodeSet && forall v :: v in nodeSet ==> v in fw.nodeSet
    requires startNode in radius && radius[startNode] == 0.0
    modifies fw
    ensures fw.Valid()
    ensures radius' == radius[startNode := Eccentricity(fw.cm, fw.nodeSet, fw.relationshipSet, startNode, nodeSet)]
  {
    radius' := radius;
    for e := 0 to |nodeSet|
      invariant fw.Valid()
      invariant radius' == radius[startNode := Eccentricity(fw.cm, fw.nodeSet, fw.relationshipSet, startNode, nodeSet[..e])]
    {
      var endNode := nodeSet[e];
      assert nodeSet[..e + 1][..e] == nodeSet[..e];
      ghost var before := Eccentricity(fw.cm, fw.nodeSet, fw.relationshipSet, startNode, nodeSet[..e]);
      ghost var after := Eccentricity(fw.cm, fw.nodeSet, fw.relationshipSet, startNode, nodeSet[..e + 1]);
      if startNode != endNode {
        IndexedWhenListed(fw.nodeSet, startNode);
        IndexedWhenListed(fw.nodeSet, endNode);
        var c := fw.GetCost(startNode, endNode);
        ghost var cost := Cost(fw.cm, fw.nodeSet, fw.relationshipSet, startNode, endNode);
        assert c.value == cost;
        assert after == if cost > before then cost else before;
        if c.value > radius'[startNode] {
          var c' := fw.GetCost(startNode, endNode);
          radius' := radius'[startNode := c'.value];
        }
      }
    }
    assert nodeSet[..|nodeSet|] == nodeSet;
  }

  /**
   * The graph centre: the node, in key order, whose largest cost to another
   * node (0 when there is none) is least; `None` for an empty node set.
   */
  method GraphCenterAlgo<V(==, 0)>(fw: FloydWarshall<V, real>, nodeSet: seq<V>, keyOrder: seq<V>) returns (best: Option<V>)
    requires fw.Valid() && (forall v :: v in nodeSet ==> v in fw.nodeSet) && IsKeyOrder(keyOrder, nodeSet)
    modifies fw
    ensures fw.Valid()
    ensures best == FirstMinimum(keyOrder, Radii(fw.cm, fw.nodeSet, fw.relationshipSet, nodeSet))
    ensures best.None? <==> nodeSet == []
    ensures best.Some? ==> best.value in nodeSet && forall v :: v in nodeSet ==>
              Radii(fw.cm, fw.nodeSet, fw.relationshipSet, nodeSet)[best.value] <= Radii(fw.cm, fw.nodeSet, fw.relationshipSet, nodeSet)[v]
  {
    var radius: map<V, real> := map[];
    for s := 0 to |nodeSet|
      invariant fw.Valid()
      invariant forall u :: u in radius ==> u in nodeSet[..s]
      invariant forall t :: 0 <= t < s ==> nodeSet[t] in radius
      invariant forall u :: u in radius ==> radius[u] == Eccentricity(fw.cm, fw.nodeSet, fw.relationshipSet, u, nodeSet)
    {
      assert nodeSet[..s + 1] == nodeSet[..s] + [nodeSet[s]];
      radius := RaiseRadius(fw, radius[nodeSet[s] := 0.0], nodeSet[s], nodeSet);
    }
    assert nodeSet[..|nodeSet|] == nodeSet;
    ghost var spec := Radii(fw.cm, fw.nodeSet, fw.relationshipSet, nodeSet);
    assert radius.Keys == spec.Keys;
    assert radius == spec;
    best := SelectFirstMinimum(keyOrder, radius);
    SelectionIsLeast(keyOrder, nodeSet, radius);
  }

  /** FirstMinimumIsLeast restated over the node set a key order lists. */
  lemma SelectionIsLeast<V>(keyOrder: seq<V>, nodeSet: seq<V>, score: map<V, real>)
    requires IsKeyOrder(keyOrder, nodeSet) && forall v :: v in nodeSet ==> v in score
    ensures var best := FirstMinimum(keyOrder, score);
      && (best.None? <==> nodeSet == [])
      && (best.Some? ==> best.value in nodeSet && forall v :: v in nodeSet ==> score[best.value] <= score[v])
  {
    FirstMinimumIsLeast(keyOrder, score);
    if nodeSet != [] {
      assert nodeSet[0] in keyOrder;
    }
    if keyOrder != [] {
      assert keyOrder[0] in nodeSet;
    }
    var best := FirstMinimum(keyOrder, score);
    if best.Some? {
      forall v | v in nodeSet ensures score[best.value] <= score[v] {
        var t :| 0 <= t < |keyOrder| && keyOrder[t] == v;
      }
    }
  }
}
