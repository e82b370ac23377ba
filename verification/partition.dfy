/**
 A partition: one shard's map from node id to that node's edge records.
 Partitions answer per-node queries over their own content only; the graph
 folds those partial answers together.
 */
module Partitions {
  import opened TemporalEdges

  /** The watermark is the latest timestamp represented in the shard. It is
      bookkeeping only: queries filter on the per-edge intervals, never on it. */
  datatype Partition = Partition(adjacency: map<NodeId, seq<Edge>>, watermark: Timestamp)

  /** The edges this partition holds for a node; none for a node it does not hold. */
  function NodeEdges(p: Partition, n: NodeId): seq<Edge> {
    if n in p.adjacency then p.adjacency[n] else []
  }

  /** Partial neighbor count of one node in one partition. */
  function PartitionCount(p: Partition, n: NodeId, types: seq<Type>, time: Option<Timestamp>): (r: nat)
    ensures n !in p.adjacency ==> r == 0
    ensures n in p.adjacency ==> r <= |p.adjacency[n]|
  {
    Count(NodeEdges(p, n), types, time)
  }

  /** Partial neighbor list of one node in one partition, in insertion order. */
  function PartitionNeighbors(p: Partition, n: NodeId, types: seq<Type>, time: Option<Timestamp>): (r: seq<Edge>)
    ensures |r| == PartitionCount(p, n, types, time)
    ensures n !in p.adjacency ==> r == []
    ensures forall i :: 0 <= i < |r| ==> Admits(r[i], types, time)
  {
    EnumerateLength(NodeEdges(p, n), types, time);
    Enumerate(NodeEdges(p, n), types, time)
  }
}
