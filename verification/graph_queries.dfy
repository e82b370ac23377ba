/**
 The graph's batch query entry points, as loops over query nodes and
 partitions: for each query node in order, visit every partition that holds
 the node in registration order and fold its partial answer into
 caller-supplied output storage. Each method is proved equal to the reference definitions of the
 Graphs module.
 */
module GraphQueries {
  import opened TemporalEdges
  import opened Partitions
  import opened Graphs

  /** One node's count: the partial counts of the partitions that hold it,
      summed in registration order. */
  method NodeCount(parts: seq<Partition>, n: NodeId, types: seq<Type>, time: Option<Timestamp>) returns (c: nat)
    ensures c == GraphCount(parts, n, types, time)
  {
    c := 0;
    var k := 0;
    while k < |parts|
      invariant 0 <= k <= |parts|
      invariant c == GraphCount(parts[..k], n, types, time)
    {
      assert parts[..k + 1][..k] == parts[..k];
      if n in parts[k].adjacency {
        c := c + PartitionCount(parts[k], n, types, time);
      }
      k := k + 1;
    }
    assert parts[..k] == parts;
  }

  /** One node's neighbors: the partial lists of the partitions that hold it,
      concatenated in registration order. */
  method NodeNeighbors(parts: seq<Partition>, n: NodeId, types: seq<Type>, time: Option<Timestamp>) returns (es: seq<Edge>)
    ensures es == GraphNeighbors(parts, n, types, time)
  {
    es := [];
    var k := 0;
    while k < |parts|
      invariant 0 <= k <= |parts|
      invariant es == GraphNeighbors(parts[..k], n, types, time)
    {
      assert parts[..k + 1][..k] == parts[..k];
      if n in parts[k].adjacency {
        es := es + PartitionNeighbors(parts[k], n, types, time);
      } else {
        assert es + PartitionNeighbors(parts[k], n, types, time) == es;
      }
      k := k + 1;
    }
    assert parts[..k] == parts;
  }

  /** NeighborCount: `buffer` is the caller's count storage, one slot per node,
      holding arbitrary prior contents (the tests pre-fill it with -1). Every
      slot is overwritten with the node's count summed over all partitions. */
  method NeighborCount(g: Graph, nodes: seq<NodeId>, types: seq<Type>, ts: seq<Timestamp>, buffer: seq<int>)
    returns (counts: seq<int>)
    requires ValidTimestamps(nodes, ts)
    requires |buffer| == |nodes|
    ensures |counts| == |nodes|
    ensures forall i :: 0 <= i < |nodes| ==> counts[i] == GraphCount(g.partitions, nodes[i], types, TimeAt(ts, i))
  {
    counts := buffer;
    var i := 0;
    while i < |nodes|
      invariant 0 <= i <= |nodes|
      invariant |counts| == |nodes|
      invariant forall j :: 0 <= j < i ==> counts[j] == GraphCount(g.partitions, nodes[j], types, TimeAt(ts, j))
    {
      var c := NodeCount(g.partitions, nodes[i], types, TimeAt(ts, i));
      counts := counts[i := c];
      i := i + 1;
    }
  }

  /** The batch loop of FullNeighbor over prepared query slots: node by node,
      the node's neighbors are appended to the answer and its count is written
      into its slot of the count storage. */
  method FullNeighborLoop(parts: seq<Partition>, qs: seq<Query>, types: seq<Type>, countBuffer: seq<int>)
    returns (acc: NeighborList, counts: seq<int>)
    requires |countBuffer| == |qs|
    ensures acc == Graphs.FullNeighbor(parts, qs, types)
    ensures counts == acc.counts
  {
    acc := NeighborList([], [], [], []);
    counts := countBuffer;
    var i := 0;
    while i < |qs|
      invariant 0 <= i <= |qs|
      invariant |counts| == |qs|
      invariant acc == Graphs.FullNeighbor(parts, qs[..i], types)
      invariant counts[..i] == acc.counts
    {
      var es := NodeNeighbors(parts, qs[i].node, types, qs[i].time);
      FullNeighborStep(parts, qs, types, i);
      CountsStep(counts, i, acc, es);
      counts := counts[i := |es|];
      acc := Append(acc, es);
      i := i + 1;
    }
    assert qs[..i] == qs;
  }

  /** FullNeighbor: the neighbor columns are the caller's growable vectors and
      are appended to (the tests clear them between calls); `countBuffer` is
      fixed-size caller storage whose every slot is overwritten. The appended
      part and the counts are the reference FullNeighbor answer. */
  method FullNeighbor(g: Graph, nodes: seq<NodeId>, types: seq<Type>, ts: seq<Timestamp>,
                      priorIds: seq<NodeId>, priorTypes: seq<Type>, priorWeights: seq<real>, countBuffer: seq<int>)
    returns (ids: seq<NodeId>, outTypes: seq<Type>, weights: seq<real>, counts: seq<int>)
    requires ValidTimestamps(nodes, ts)
    requires |countBuffer| == |nodes|
    ensures var r := Graphs.FullNeighbor(g.partitions, Queries(nodes, ts), types);
            && ids == priorIds + r.ids
            && outTypes == priorTypes + r.types
            && weights == priorWeights + r.weights
            && counts == r.counts
  {
    var acc;
    acc, counts := FullNeighborLoop(g.partitions, Queries(nodes, ts), types, countBuffer);
    ids, outTypes, weights := priorIds + acc.ids, priorTypes + acc.types, priorWeights + acc.weights;
  }

  /** Overwriting slot i of the count storage extends the settled prefix by
      that node's count. */
  lemma CountsStep(counts: seq<int>, i: nat, r: NeighborList, es: seq<Edge>)
    requires i < |counts|
    requires counts[..i] == r.counts
    ensures counts[i := |es|][..i + 1] == Append(r, es).counts
  {
    assert counts[i := |es|][..i + 1] == counts[..i] + [|es|];
  }
}
