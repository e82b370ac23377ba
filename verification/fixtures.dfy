/**
 The two fixture graphs of the temporal store's tests and the query answers
 they pin down. Intervals are attached to the neighbor records in listing
 order: node order, then neighbor order within a node.
 */
module Fixtures {
  import opened TemporalEdges
  import opened Partitions
  import opened Graphs

  /** One partition, watermark 1. Node 0: 1 and 2 (type 0) during [0,1).
      Node 1: 3 (type 0) during [0,1), 4 (type 0) during [1,2), 5 (type 1,
      weight 7) during [2,3). */
  function SinglePartitionGraph(): Graph {
    Graph([Partition(map[
      0 := [Edge(1, 0, 1.0, 0, 1), Edge(2, 0, 2.0, 0, 1)],
      1 := [Edge(3, 0, 1.0, 0, 1), Edge(4, 0, 1.0, 1, 2), Edge(5, 1, 7.0, 2, 3)]
    ], 1)])
  }

  /** Two partitions. The first (watermark 2) holds nodes 0 and 1; edges 4
      and 5 of node 1 are never deleted. The second (watermark 3) holds node 1
      again, with type-1 edges 6 during [0,1) and 7 during [2,3). */
  function MultiPartitionGraph(): Graph {
    Graph([
      Partition(map[
        0 := [Edge(1, 0, 1.0, 0, 1), Edge(2, 0, 1.0, 0, 1)],
        1 := [Edge(3, 0, 1.0, 0, 1), Edge(4, 0, 1.0, 1, NeverDeleted), Edge(5, 1, 1.0, 1, NeverDeleted)]
      ], 2),
      Partition(map[
        1 := [Edge(6, 1, 1.5, 0, 1), Edge(7, 1, 3.0, 2, 3)]
      ], 3)
    ])
  }

  function Counts(g: Graph, nodes: seq<NodeId>, types: seq<Type>, ts: seq<Timestamp>): seq<nat>
    requires ValidTimestamps(nodes, ts)
  {
    NeighborCounts(g.partitions, Queries(nodes, ts), types)
  }

  function Full(g: Graph, nodes: seq<NodeId>, types: seq<Type>, ts: seq<Timestamp>): NeighborList
    requires ValidTimestamps(nodes, ts)
  {
    FullNeighbor(g.partitions, Queries(nodes, ts), types)
  }

  /** Creation is inclusive and deletion exclusive: node 0's [0,1) edges are
      alive at 0 and gone at 1 and 2. */
  lemma NodeZeroLifetime()
    ensures var es := NodeEdges(SinglePartitionGraph().partitions[0], 0);
            && |es| == 2
            && AliveAt(es[0], 0) && AliveAt(es[1], 0)
            && !AliveAt(es[0], 1) && !AliveAt(es[1], 1)
            && !AliveAt(es[0], 2) && !AliveAt(es[1], 2)
  {
  }

  /** The answer of a two-node batch, slot by slot. */
  lemma CountsOfTwo(g: Graph, nodes: seq<NodeId>, types: seq<Type>, ts: seq<Timestamp>)
    requires |nodes| == 2 && ValidTimestamps(nodes, ts)
    ensures Counts(g, nodes, types, ts)
         == [GraphCount(g.partitions, nodes[0], types, TimeAt(ts, 0)), GraphCount(g.partitions, nodes[1], types, TimeAt(ts, 1))]
  {
  }

  lemma OnePartition(p: Partition, n: NodeId, types: seq<Type>, time: Option<Timestamp>)
    ensures GraphCount([p], n, types, time) == PartitionCount(p, n, types, time)
    ensures GraphNeighbors([p], n, types, time) == PartitionNeighbors(p, n, types, time)
  {
    assert [p][..0] == [];
  }

  lemma CountTwo(e0: Edge, e1: Edge, types: seq<Type>, time: Option<Timestamp>)
    ensures Count([e0, e1], types, time) == Ind(Admits(e0, types, time)) + Ind(Admits(e1, types, time))
  {
    assert [e0, e1][1..] == [e1];
    assert [e1][1..] == [];
  }

  lemma CountThree(e0: Edge, e1: Edge, e2: Edge, types: seq<Type>, time: Option<Timestamp>)
    ensures Count([e0, e1, e2], types, time)
         == Ind(Admits(e0, types, time)) + Count([e1, e2], types, time)
  {
    assert [e0, e1, e2][1..] == [e1, e2];
  }

  /** Node-by-node counts of the single-partition graph. */
  lemma SingleNodeCount(n: NodeId, types: seq<Type>, time: Option<Timestamp>)
    ensures GraphCount(SinglePartitionGraph().partitions, n, types, time)
         == if n == 0 then Ind(Admits(Edge(1, 0, 1.0, 0, 1), types, time)) + Ind(Admits(Edge(2, 0, 2.0, 0, 1), types, time))
            else if n == 1 then Ind(Admits(Edge(3, 0, 1.0, 0, 1), types, time)) + Ind(Admits(Edge(4, 0, 1.0, 1, 2), types, time))
                                + Ind(Admits(Edge(5, 1, 7.0, 2, 3), types, time))
            else 0
  {
    var p := SinglePartitionGraph().partitions[0];
    assert SinglePartitionGraph().partitions == [p];
    OnePartition(p, n, types, time);
    if n == 0 {
      CountTwo(Edge(1, 0, 1.0, 0, 1), Edge(2, 0, 2.0, 0, 1), types, time);
    } else if n == 1 {
      CountThree(Edge(3, 0, 1.0, 0, 1), Edge(4, 0, 1.0, 1, 2), Edge(5, 1, 7.0, 2, 3), types, time);
      CountTwo(Edge(4, 0, 1.0, 1, 2), Edge(5, 1, 7.0, 2, 3), types, time);
    }
  }

  /** Both slots of a two-node count batch of the single-partition graph. */
  lemma SingleCountPair(nodes: seq<NodeId>, types: seq<Type>, ts: seq<Timestamp>)
    requires |nodes| == 2 && |ts| == 2
    ensures Counts(SinglePartitionGraph(), nodes, types, ts)
         == [GraphCount(SinglePartitionGraph().partitions, nodes[0], types, Some(ts[0])),
             GraphCount(SinglePartitionGraph().partitions, nodes[1], types, Some(ts[1]))]
  {
    CountsOfTwo(SinglePartitionGraph(), nodes, types, ts);
  }

  /** NeighborCount on the single-partition graph: node 1's type-0 edges end at 1 and 2, node 0's at 1. */
  lemma SingleCountTypeZeroAtTwo()
    ensures Counts(SinglePartitionGraph(), [0, 1], [0], [2, 2]) == [0, 0]
  {
    SingleCountPair([0, 1], [0], [2, 2]);
    SingleNodeCount([0, 1][0], [0], Some([2, 2][0]));
    SingleNodeCount([0, 1][1], [0], Some([2, 2][1]));
  }

  /** NeighborCount on the single-partition graph: at 0 both of node 0's edges and node 1's first edge are alive. */
  lemma SingleCountTypeZeroAtZero()
    ensures Counts(SinglePartitionGraph(), [0, 1], [0], [0, 0]) == [2, 1]
  {
    SingleCountPair([0, 1], [0], [0, 0]);
    SingleNodeCount([0, 1][0], [0], Some([0, 0][0]));
    SingleNodeCount([0, 1][1], [0], Some([0, 0][1]));
  }

  /** NeighborCount on the single-partition graph: node 1's type-1 edge is alive during [2,3). */
  lemma SingleCountTypeOneAtTwo()
    ensures Counts(SinglePartitionGraph(), [0, 1], [1], [2, 2]) == [0, 1]
  {
    SingleCountPair([0, 1], [1], [2, 2]);
    SingleNodeCount([0, 1][0], [1], Some([2, 2][0]));
    SingleNodeCount([0, 1][1], [1], Some([2, 2][1]));
  }

  /** NeighborCount on the single-partition graph: the sum of the type-0 and type-1 answers. */
  lemma SingleCountBothTypesAtTwo()
    ensures Counts(SinglePartitionGraph(), [0, 1], [0, 1], [2, 2]) == [0, 1]
  {
    SingleCountPair([0, 1], [0, 1], [2, 2]);
    SingleNodeCount([0, 1][0], [0, 1], Some([2, 2][0]));
    SingleNodeCount([0, 1][1], [0, 1], Some([2, 2][1]));
  }

  /** NeighborCount on the single-partition graph: no edge has type -1 or 100. */
  lemma SingleCountUnmatchedTypes()
    ensures Counts(SinglePartitionGraph(), [0, 1], [-1, 100], [2, 2]) == [0, 0]
  {
    SingleCountPair([0, 1], [-1, 100], [2, 2]);
    SingleNodeCount([0, 1][0], [-1, 100], Some([2, 2][0]));
    SingleNodeCount([0, 1][1], [-1, 100], Some([2, 2][1]));
  }

  /** NeighborCount on the single-partition graph: unknown ids count zero. */
  lemma SingleCountUnknownNodes()
    ensures Counts(SinglePartitionGraph(), [99, 100], [0, 1], [2, 2]) == [0, 0]
  {
    SingleCountPair([99, 100], [0, 1], [2, 2]);
    SingleNodeCount([99, 100][0], [0, 1], Some([2, 2][0]));
    SingleNodeCount([99, 100][1], [0, 1], Some([2, 2][1]));
  }
  lemma EnumerateTwo(e0: Edge, e1: Edge, types: seq<Type>, time: Option<Timestamp>)
    ensures Enumerate([e0, e1], types, time)
         == (if Admits(e0, types, time) then [e0] else []) + (if Admits(e1, types, time) then [e1] else [])
  {
    assert [e0, e1][1..] == [e1];
    assert [e1][1..] == [];
  }

  lemma EnumerateThree(e0: Edge, e1: Edge, e2: Edge, types: seq<Type>, time: Option<Timestamp>)
    ensures Enumerate([e0, e1, e2], types, time)
         == (if Admits(e0, types, time) then [e0] else []) + Enumerate([e1, e2], types, time)
  {
    assert [e0, e1, e2][1..] == [e1, e2];
  }

  /** The answer of a two-node FullNeighbor batch: node 0's entries, then node 1's. */
  lemma FullOfTwo(g: Graph, nodes: seq<NodeId>, types: seq<Type>, ts: seq<Timestamp>, es0: seq<Edge>, es1: seq<Edge>)
    requires |nodes| == 2 && ValidTimestamps(nodes, ts)
    requires GraphNeighbors(g.partitions, nodes[0], types, TimeAt(ts, 0)) == es0
    requires GraphNeighbors(g.partitions, nodes[1], types, TimeAt(ts, 1)) == es1
    ensures Full(g, nodes, types, ts)
         == NeighborList(Ids(es0) + Ids(es1), EdgeTypes(es0) + EdgeTypes(es1), Weights(es0) + Weights(es1), [|es0|, |es1|])
  {
    var qs := Queries(nodes, ts);
    var empty := NeighborList([], [], [], []);
    assert qs[0] == Query(nodes[0], TimeAt(ts, 0));
    assert qs[1] == Query(nodes[1], TimeAt(ts, 1));
    assert qs[..0] == [];
    assert FullNeighbor(g.partitions, qs[..0], types) == empty;
    FullNeighborStep(g.partitions, qs, types, 0);
    assert FullNeighbor(g.partitions, qs[..1], types) == Append(empty, es0);
    FullNeighborStep(g.partitions, qs, types, 1);
    assert FullNeighbor(g.partitions, qs[..2], types) == Append(Append(empty, es0), es1);
    assert qs[..2] == qs;
    AppendTwice(es0, es1);
  }

  lemma AppendTwice(es0: seq<Edge>, es1: seq<Edge>)
    ensures Append(Append(NeighborList([], [], [], []), es0), es1)
         == NeighborList(Ids(es0) + Ids(es1), EdgeTypes(es0) + EdgeTypes(es1), Weights(es0) + Weights(es1), [|es0|, |es1|])
  {
    assert [] + Ids(es0) == Ids(es0);
    assert [] + EdgeTypes(es0) == EdgeTypes(es0);
    assert [] + Weights(es0) == Weights(es0);
    assert [] + [|es0|] + [|es1|] == [|es0|, |es1|];
  }

  lemma ColumnsOfOne(e: Edge)
    ensures Ids([e]) == [e.dst] && EdgeTypes([e]) == [e.edgeType] && Weights([e]) == [e.weight]
  {
  }

  lemma ColumnsOfTwo(e0: Edge, e1: Edge)
    ensures Ids([e0, e1]) == [e0.dst, e1.dst]
    ensures EdgeTypes([e0, e1]) == [e0.edgeType, e1.edgeType]
    ensures Weights([e0, e1]) == [e0.weight, e1.weight]
  {
  }

  /** Node-by-node neighbor lists of the single-partition graph. */
  lemma SingleNodeNeighbors(n: NodeId, types: seq<Type>, time: Option<Timestamp>)
    ensures GraphNeighbors(SinglePartitionGraph().partitions, n, types, time)
         == if n == 0 then Enumerate([Edge(1, 0, 1.0, 0, 1), Edge(2, 0, 2.0, 0, 1)], types, time)
            else if n == 1 then Enumerate([Edge(3, 0, 1.0, 0, 1), Edge(4, 0, 1.0, 1, 2), Edge(5, 1, 7.0, 2, 3)], types, time)
            else []
  {
    var p := SinglePartitionGraph().partitions[0];
    assert SinglePartitionGraph().partitions == [p];
    OnePartition(p, n, types, time);
  }

  /** At time 0 with type filter {0}: node 0's neighbors 1 and 2 in the
      single-partition graph. */
  lemma SingleNodeZeroTypeZeroAtZero()
    ensures GraphNeighbors(SinglePartitionGraph().partitions, 0, [0], Some(0)) == [Edge(1, 0, 1.0, 0, 1), Edge(2, 0, 2.0, 0, 1)]
  {
    SingleNodeNeighbors(0, [0], Some(0));
    EnumerateTwo(Edge(1, 0, 1.0, 0, 1), Edge(2, 0, 2.0, 0, 1), [0], Some(0));
  }

  /** At time 0 with type filter {0}: node 1's neighbor 3 only, since its
      neighbor 4 starts at 1 and neighbor 5 has type 1. */
  lemma SingleNodeOneTypeZeroAtZero()
    ensures GraphNeighbors(SinglePartitionGraph().partitions, 1, [0], Some(0)) == [Edge(3, 0, 1.0, 0, 1)]
  {
    SingleNodeNeighbors(1, [0], Some(0));
    EnumerateThree(Edge(3, 0, 1.0, 0, 1), Edge(4, 0, 1.0, 1, 2), Edge(5, 1, 7.0, 2, 3), [0], Some(0));
    EnumerateTwo(Edge(4, 0, 1.0, 1, 2), Edge(5, 1, 7.0, 2, 3), [0], Some(0));
  }

  /** FullNeighbor on the single-partition graph at time 0 with type 0: node 0's
      neighbors 1 and 2 (weights 1 and 2) lead, then node 1's one alive type-0
      neighbor of weight 1. */
  lemma SingleFullTypeZeroAtZero()
    ensures var r := Full(SinglePartitionGraph(), [0, 1], [0], [0, 0]);
            && r.counts == [2, 1]
            && r.ids[..2] == [1, 2]
            && r.types == [0, 0, 0]
            && r.weights == [1.0, 2.0, 1.0]
  {
    var e1, e2, e3 := Edge(1, 0, 1.0, 0, 1), Edge(2, 0, 2.0, 0, 1), Edge(3, 0, 1.0, 0, 1);
    SingleNodeZeroTypeZeroAtZero();
    SingleNodeOneTypeZeroAtZero();
    FullOfTwo(SinglePartitionGraph(), [0, 1], [0], [0, 0], [e1, e2], [e3]);
    ColumnsOfTwo(e1, e2);
    ColumnsOfOne(e3);
  }

  /** At time 2 with type filter {1} or {0, 1}, only node 1's type-1 neighbor
      5 is alive in the single-partition graph. */
  lemma SingleNeighborsAtTwo(types: seq<Type>)
    requires types == [1] || types == [0, 1]
    ensures GraphNeighbors(SinglePartitionGraph().partitions, 0, types, Some(2)) == []
    ensures GraphNeighbors(SinglePartitionGraph().partitions, 1, types, Some(2)) == [Edge(5, 1, 7.0, 2, 3)]
  {
    SingleNodeNeighbors(0, types, Some(2));
    SingleNodeNeighbors(1, types, Some(2));
    EnumerateTwo(Edge(1, 0, 1.0, 0, 1), Edge(2, 0, 2.0, 0, 1), types, Some(2));
    EnumerateThree(Edge(3, 0, 1.0, 0, 1), Edge(4, 0, 1.0, 1, 2), Edge(5, 1, 7.0, 2, 3), types, Some(2));
    EnumerateTwo(Edge(4, 0, 1.0, 1, 2), Edge(5, 1, 7.0, 2, 3), types, Some(2));
  }

  /** FullNeighbor on the single-partition graph at time 2 with type filter
      {1} or {0, 1}: one entry, neighbor 5 of type 1 and weight 7, for node 1. */
  lemma SingleFullAtTwo(types: seq<Type>)
    requires types == [1] || types == [0, 1]
    ensures var r := Full(SinglePartitionGraph(), [0, 1], types, [2, 2]);
            && r.counts == [0, 1]
            && r.ids == [5]
            && r.types == [1]
            && r.weights == [7.0]
  {
    SingleNeighborsAtTwo(types);
    var e5 := Edge(5, 1, 7.0, 2, 3);
    FullOfTwo(SinglePartitionGraph(), [0, 1], types, [2, 2], [], [e5]);
    ColumnsOfOne(e5);
  }

  /** FullNeighbor on the single-partition graph returns empty columns and zero
      counts at time 2 with type 0, for an unmatched type filter, and for unknown ids. */
  lemma SingleFullEmpty(nodes: seq<NodeId>, types: seq<Type>)
    requires (nodes == [0, 1] && types == [0]) || (nodes == [0, 1] && types == [-1, 100]) || (nodes == [99, 100] && types == [0, 1])
    ensures var r := Full(SinglePartitionGraph(), nodes, types, [2, 2]);
            && r.counts == [0, 0] && r.ids == [] && r.types == [] && r.weights == []
  {
    var parts := SinglePartitionGraph().partitions;
    SingleNodeCount(nodes[0], types, Some(2));
    SingleNodeCount(nodes[1], types, Some(2));
    assert |GraphNeighbors(parts, nodes[0], types, Some(2))| == 0;
    assert |GraphNeighbors(parts, nodes[1], types, Some(2))| == 0;
    FullOfTwo(SinglePartitionGraph(), nodes, types, [2, 2], [], []);
  }

  /** A node's count in the two-partition graph is the first partition's
      partial count plus the second's. */
  lemma MultiSplit(n: NodeId, types: seq<Type>, time: Option<Timestamp>)
    ensures var parts := MultiPartitionGraph().partitions;
            GraphCount(parts, n, types, time) == PartitionCount(parts[0], n, types, time) + PartitionCount(parts[1], n, types, time)
  {
    var parts := MultiPartitionGraph().partitions;
    PartitionsAdditive([parts[0]], [parts[1]], n, types, time);
    assert parts == [parts[0]] + [parts[1]];
    OnePartition(parts[0], n, types, time);
    OnePartition(parts[1], n, types, time);
  }

  /** Node-by-node counts of the two-partition graph: the first partition's
      partial count plus the second's. */
  lemma MultiNodeCount(n: NodeId, types: seq<Type>, time: Option<Timestamp>)
    ensures GraphCount(MultiPartitionGraph().partitions, n, types, time)
         == if n == 0 then Ind(Admits(Edge(1, 0, 1.0, 0, 1), types, time)) + Ind(Admits(Edge(2, 0, 1.0, 0, 1), types, time))
            else if n == 1 then Ind(Admits(Edge(3, 0, 1.0, 0, 1), types, time)) + Ind(Admits(Edge(4, 0, 1.0, 1, NeverDeleted), types, time))
                                + Ind(Admits(Edge(5, 1, 1.0, 1, NeverDeleted), types, time))
                                + Ind(Admits(Edge(6, 1, 1.5, 0, 1), types, time)) + Ind(Admits(Edge(7, 1, 3.0, 2, 3), types, time))
            else 0
  {
    var parts := MultiPartitionGraph().partitions;
    MultiSplit(n, types, time);
    if n == 0 {
      CountTwo(Edge(1, 0, 1.0, 0, 1), Edge(2, 0, 1.0, 0, 1), types, time);
    } else if n == 1 {
      CountThree(Edge(3, 0, 1.0, 0, 1), Edge(4, 0, 1.0, 1, NeverDeleted), Edge(5, 1, 1.0, 1, NeverDeleted), types, time);
      CountTwo(Edge(4, 0, 1.0, 1, NeverDeleted), Edge(5, 1, 1.0, 1, NeverDeleted), types, time);
      CountTwo(Edge(6, 1, 1.5, 0, 1), Edge(7, 1, 3.0, 2, 3), types, time);
    }
  }

  /** Without timestamps the time filter is skipped: node 1 has one type-1 edge
      in the first partition and two in the second (including [0,1) and [2,3)),
      three in all; node 0 has none. */
  lemma MultiCountUntimed()
    ensures PartitionCount(MultiPartitionGraph().partitions[0], 1, [1], None) == 1
    ensures PartitionCount(MultiPartitionGraph().partitions[1], 1, [1], None) == 2
    ensures Counts(MultiPartitionGraph(), [0, 1], [1], []) == [0, 3]
  {
    var parts := MultiPartitionGraph().partitions;
    CountsOfTwo(MultiPartitionGraph(), [0, 1], [1], []);
    MultiNodeCount(0, [1], None);
    MultiNodeCount(1, [1], None);
    CountThree(Edge(3, 0, 1.0, 0, 1), Edge(4, 0, 1.0, 1, NeverDeleted), Edge(5, 1, 1.0, 1, NeverDeleted), [1], None);
    CountTwo(Edge(4, 0, 1.0, 1, NeverDeleted), Edge(5, 1, 1.0, 1, NeverDeleted), [1], None);
    CountTwo(Edge(6, 1, 1.5, 0, 1), Edge(7, 1, 3.0, 2, 3), [1], None);
  }

  /** On the two-partition graph at time 2, an unmatched type filter and
      unknown ids leave both query nodes without neighbors. */
  lemma MultiNothingAtTwo(nodes: seq<NodeId>, types: seq<Type>)
    requires (nodes == [0, 1] && types == [-1, 100]) || (nodes == [99, 100] && types == [0, 1])
    ensures GraphCount(MultiPartitionGraph().partitions, nodes[0], types, Some(2)) == 0
    ensures GraphCount(MultiPartitionGraph().partitions, nodes[1], types, Some(2)) == 0
  {
    if nodes == [0, 1] {
      MultiNodeCount(0, [-1, 100], Some(2));
      MultiNodeCount(1, [-1, 100], Some(2));
    } else {
      MultiNodeCount(99, [0, 1], Some(2));
      MultiNodeCount(100, [0, 1], Some(2));
    }
  }

  /** On the two-partition graph, an unmatched type filter and unknown ids
      count zero for every node. */
  lemma MultiCountEmpty(nodes: seq<NodeId>, types: seq<Type>)
    requires (nodes == [0, 1] && types == [-1, 100]) || (nodes == [99, 100] && types == [0, 1])
    ensures Counts(MultiPartitionGraph(), nodes, types, [2, 2]) == [0, 0]
  {
    CountsOfTwo(MultiPartitionGraph(), nodes, types, [2, 2]);
    MultiNothingAtTwo(nodes, types);
  }

  /** On the two-partition graph, an unmatched type filter and unknown ids
      give empty columns and zero counts. */
  lemma MultiFullEmpty(nodes: seq<NodeId>, types: seq<Type>)
    requires (nodes == [0, 1] && types == [-1, 100]) || (nodes == [99, 100] && types == [0, 1])
    ensures var r := Full(MultiPartitionGraph(), nodes, types, [2, 2]);
            && r.counts == [0, 0] && r.ids == [] && r.types == [] && r.weights == []
  {
    var parts := MultiPartitionGraph().partitions;
    MultiNothingAtTwo(nodes, types);
    assert |GraphNeighbors(parts, nodes[0], types, Some(2))| == 0;
    assert |GraphNeighbors(parts, nodes[1], types, Some(2))| == 0;
    FullOfTwo(MultiPartitionGraph(), nodes, types, [2, 2], [], []);
  }
}
