/**
 The graph: an ordered sequence of partitions, possibly holding the same node
 id more than once. Per-node answers are the fold of the partitions' partial
 answers in registration order; batch answers are flat parallel arrays
 grouped by query-node order, plus one count per query node.
 */
module Graphs {
  import opened TemporalEdges
  import opened Partitions

  datatype Graph = Graph(partitions: seq<Partition>)

  /** A node id that no partition holds. */
  predicate Unknown(parts: seq<Partition>, n: NodeId) {
    forall k :: 0 <= k < |parts| ==> n !in parts[k].adjacency
  }

  /** Reference count of one node: the sum of the partial counts of every partition. */
  function GraphCount(parts: seq<Partition>, n: NodeId, types: seq<Type>, time: Option<Timestamp>): (r: nat)
    ensures Unknown(parts, n) ==> r == 0
    decreases |parts|
  {
    if |parts| == 0 then 0
    else
      assert forall k :: 0 <= k < |parts| - 1 ==> parts[..|parts| - 1][k] == parts[k];
      GraphCount(parts[..|parts| - 1], n, types, time) + PartitionCount(parts[|parts| - 1], n, types, time)
  }

  /** Neighbors of one node across the graph: partial lists concatenated in
      partition-registration order. Its length is the reference count. */
  function GraphNeighbors(parts: seq<Partition>, n: NodeId, types: seq<Type>, time: Option<Timestamp>): (r: seq<Edge>)
    ensures |r| == GraphCount(parts, n, types, time)
    decreases |parts|
  {
    if |parts| == 0 then []
    else GraphNeighbors(parts[..|parts| - 1], n, types, time) + PartitionNeighbors(parts[|parts| - 1], n, types, time)
  }

  /** Every neighbor the graph reports passes the type and time filter. */
  lemma {:induction false} GraphNeighborsAdmitted(parts: seq<Partition>, n: NodeId, types: seq<Type>, time: Option<Timestamp>)
    ensures forall i :: 0 <= i < |GraphNeighbors(parts, n, types, time)| ==> Admits(GraphNeighbors(parts, n, types, time)[i], types, time)
    decreases |parts|
  {
    if |parts| > 0 {
      var prev := GraphNeighbors(parts[..|parts| - 1], n, types, time);
      var last := PartitionNeighbors(parts[|parts| - 1], n, types, time);
      GraphNeighborsAdmitted(parts[..|parts| - 1], n, types, time);
      assert forall i :: 0 <= i < |last| ==> Admits(last[i], types, time);
      forall i | 0 <= i < |prev + last|
        ensures Admits((prev + last)[i], types, time)
      {
        if i < |prev| {
          assert (prev + last)[i] == prev[i];
        } else {
          assert (prev + last)[i] == last[i - |prev|];
        }
      }
    }
  }

  /** Unknown node ids are not an error: they have no neighbors. */
  lemma {:induction false} UnknownNodeHasNoNeighbors(parts: seq<Partition>, n: NodeId, types: seq<Type>, time: Option<Timestamp>)
    requires Unknown(parts, n)
    ensures GraphCount(parts, n, types, time) == 0
    ensures GraphNeighbors(parts, n, types, time) == []
    decreases |parts|
  {
    if |parts| > 0 {
      var init := parts[..|parts| - 1];
      assert forall k :: 0 <= k < |init| ==> init[k] == parts[k];
      UnknownNodeHasNoNeighbors(init, n, types, time);
      assert n !in parts[|parts| - 1].adjacency;
    }
  }

  /** No edge anywhere in the graph has a type in the filter. */
  predicate NoEdgeOfTypes(parts: seq<Partition>, types: seq<Type>) {
    forall k, n, j :: 0 <= k < |parts| && n in parts[k].adjacency && 0 <= j < |parts[k].adjacency[n]|
      ==> parts[k].adjacency[n][j].edgeType !in types
  }

  /** A type filter that matches no edge type gives no neighbors, whatever the time. */
  lemma {:induction false} UnmatchedTypesHaveNoNeighbors(parts: seq<Partition>, n: NodeId, types: seq<Type>, time: Option<Timestamp>)
    requires NoEdgeOfTypes(parts, types)
    ensures GraphCount(parts, n, types, time) == 0
    ensures GraphNeighbors(parts, n, types, time) == []
    decreases |parts|
  {
    if |parts| > 0 {
      var init := parts[..|parts| - 1];
      var p := parts[|parts| - 1];
      assert NoEdgeOfTypes(init, types) by {
        assert forall k :: 0 <= k < |init| ==> init[k] == parts[k];
      }
      UnmatchedTypesHaveNoNeighbors(init, n, types, time);
      var es := NodeEdges(p, n);
      forall i | 0 <= i < |es|
        ensures !Admits(es[i], types, time)
      {
        assert es[i] == p.adjacency[n][i];
        assert es[i].edgeType !in types;
      }
    }
  }

  /** Sum of a count vector. */
  function Sum(s: seq<nat>): nat
    decreases |s|
  {
    if |s| == 0 then 0 else Sum(s[..|s| - 1]) + s[|s| - 1]
  }

  /** The flat output columns of an edge list. */
  function Ids(es: seq<Edge>): seq<NodeId> {
    seq(|es|, i requires 0 <= i < |es| => es[i].dst)
  }

  function EdgeTypes(es: seq<Edge>): seq<Type> {
    seq(|es|, i requires 0 <= i < |es| => es[i].edgeType)
  }

  function Weights(es: seq<Edge>): seq<real> {
    seq(|es|, i requires 0 <= i < |es| => es[i].weight)
  }

  /** One query slot: a node and its optional timestamp. */
  datatype Query = Query(node: NodeId, time: Option<Timestamp>)

  /** The timestamp array is either empty (no time filter) or parallel to the nodes. */
  predicate ValidTimestamps(nodes: seq<NodeId>, ts: seq<Timestamp>) {
    |ts| == 0 || |ts| == |nodes|
  }

  /** Timestamp of query slot i: none when no timestamps were supplied. */
  function TimeAt(ts: seq<Timestamp>, i: nat): Option<Timestamp>
    requires |ts| == 0 || i < |ts|
  {
    if |ts| == 0 then None else Some(ts[i])
  }

  function Queries(nodes: seq<NodeId>, ts: seq<Timestamp>): (qs: seq<Query>)
    requires ValidTimestamps(nodes, ts)
    ensures |qs| == |nodes|
  {
    seq(|nodes|, i requires 0 <= i < |nodes| => Query(nodes[i], TimeAt(ts, i)))
  }

  /** Reference per-node counts of a batch. */
  function NeighborCounts(parts: seq<Partition>, qs: seq<Query>, types: seq<Type>): (r: seq<nat>)
    ensures |r| == |qs|
  {
    seq(|qs|, i requires 0 <= i < |qs| => GraphCount(parts, qs[i].node, types, qs[i].time))
  }

  /** FullNeighbor's result: three flat parallel columns and one count per query node. */
  datatype NeighborList = NeighborList(ids: seq<NodeId>, types: seq<Type>, weights: seq<real>, counts: seq<nat>)

  /** Appends one node's neighbors to the columns and its count to the count vector. */
  function Append(r: NeighborList, es: seq<Edge>): NeighborList {
    NeighborList(r.ids + Ids(es), r.types + EdgeTypes(es), r.weights + Weights(es), r.counts + [|es|])
  }

  /** Batch full-neighbor query: node i's neighbors (all partitions, in
      registration order) follow those of nodes 0..i-1. The three columns
      are equally long, and as long as the counts add up to. */
  function FullNeighbor(parts: seq<Partition>, qs: seq<Query>, types: seq<Type>): (r: NeighborList)
    ensures |r.counts| == |qs|
    ensures |r.ids| == |r.types| == |r.weights| == Sum(r.counts)
    decreases |qs|
  {
    if |qs| == 0 then NeighborList([], [], [], [])
    else
      var prev := FullNeighbor(parts, qs[..|qs| - 1], types);
      var q := qs[|qs| - 1];
      var es := GraphNeighbors(parts, q.node, types, q.time);
      var r := Append(prev, es);
      assert r.counts[..|qs| - 1] == prev.counts;
      r
  }

  /** Answering one more query node appends that node's neighbors. */
  lemma FullNeighborStep(parts: seq<Partition>, qs: seq<Query>, types: seq<Type>, i: nat)
    requires i < |qs|
    ensures FullNeighbor(parts, qs[..i + 1], types)
         == Append(FullNeighbor(parts, qs[..i], types), GraphNeighbors(parts, qs[i].node, types, qs[i].time))
  {
    assert qs[..i + 1][..i] == qs[..i];
  }

  /** Two answers one after the other: columns and counts concatenated. */
  function Join(r: NeighborList, s: NeighborList): NeighborList {
    NeighborList(r.ids + s.ids, r.types + s.types, r.weights + s.weights, r.counts + s.counts)
  }

  lemma JoinAppend(r: NeighborList, s: NeighborList, es: seq<Edge>)
    ensures Append(Join(r, s), es) == Join(r, Append(s, es))
  {
    AppendAssoc(r.ids, s.ids, Ids(es));
    AppendAssoc(r.types, s.types, EdgeTypes(es));
    AppendAssoc(r.weights, s.weights, Weights(es));
    AppendAssoc(r.counts, s.counts, [|es|]);
  }

  lemma JoinEmpty(r: NeighborList)
    ensures Join(r, NeighborList([], [], [], [])) == r
  {
    assert r.ids + [] == r.ids;
    assert r.types + [] == r.types;
    assert r.weights + [] == r.weights;
    assert r.counts + [] == r.counts;
  }

  /** Batch split: answering the batch `a` then `b` in one call gives `a`'s
      answer followed by `b`'s, in every column and in the counts. A node's
      entries do not depend on the other nodes of its batch. */
  lemma {:induction false} FullNeighborSplit(parts: seq<Partition>, a: seq<Query>, b: seq<Query>, types: seq<Type>)
    ensures FullNeighbor(parts, a + b, types) == Join(FullNeighbor(parts, a, types), FullNeighbor(parts, b, types))
    decreases |b|
  {
    if |b| == 0 {
      assert a + b == a;
      JoinEmpty(FullNeighbor(parts, a, types));
    } else {
      var b', q := b[..|b| - 1], b[|b| - 1];
      var es := GraphNeighbors(parts, q.node, types, q.time);
      assert (a + b)[..|a + b| - 1] == a + b';
      assert (a + b)[|a + b| - 1] == q;
      FullNeighborSplit(parts, a, b', types);
      JoinAppend(FullNeighbor(parts, a, types), FullNeighbor(parts, b', types), es);
    }
  }

  /** FullNeighbor's per-node counts are the NeighborCount answer for the same batch. */
  lemma {:induction false} FullNeighborCountsAgree(parts: seq<Partition>, qs: seq<Query>, types: seq<Type>)
    ensures FullNeighbor(parts, qs, types).counts == NeighborCounts(parts, qs, types)
    decreases |qs|
  {
    if |qs| > 0 {
      var init := qs[..|qs| - 1];
      FullNeighborCountsAgree(parts, init, types);
      var r := FullNeighbor(parts, qs, types);
      var prev := FullNeighbor(parts, init, types);
      assert r.counts == prev.counts + [r.counts[|qs| - 1]];
      forall i | 0 <= i < |qs|
        ensures r.counts[i] == NeighborCounts(parts, qs, types)[i]
      {
        if i < |qs| - 1 {
          assert init[i] == qs[i];
          assert r.counts[i] == prev.counts[i] == NeighborCounts(parts, init, types)[i];
        }
      }
    }
  }

  /** Every element of `xs` is one of `types`. */
  predicate AllIn(xs: seq<Type>, types: seq<Type>) {
    forall j :: 0 <= j < |xs| ==> xs[j] in types
  }

  lemma AllInAppend(xs: seq<Type>, ys: seq<Type>, types: seq<Type>)
    requires AllIn(xs, types) && AllIn(ys, types)
    ensures AllIn(xs + ys, types)
  {
    forall j | 0 <= j < |xs + ys|
      ensures (xs + ys)[j] in types
    {
      if j < |xs| {
        assert (xs + ys)[j] == xs[j];
      } else {
        assert (xs + ys)[j] == ys[j - |xs|];
      }
    }
  }

  /** Every returned neighbor's type is in the filter. */
  lemma {:induction false} FullNeighborTypesInFilter(parts: seq<Partition>, qs: seq<Query>, types: seq<Type>)
    ensures AllIn(FullNeighbor(parts, qs, types).types, types)
    decreases |qs|
  {
    if |qs| > 0 {
      var init := qs[..|qs| - 1];
      var q := qs[|qs| - 1];
      var es := GraphNeighbors(parts, q.node, types, q.time);
      FullNeighborTypesInFilter(parts, init, types);
      GraphNeighborsAdmitted(parts, q.node, types, q.time);
      assert AllIn(EdgeTypes(es), types) by {
        forall j | 0 <= j < |es|
          ensures EdgeTypes(es)[j] in types
        {
          assert Admits(es[j], types, q.time);
        }
      }
      AllInAppend(FullNeighbor(parts, init, types).types, EdgeTypes(es), types);
    }
  }

  /** Registering one more partition appends its partial list. */
  lemma GraphNeighborsSnoc(parts: seq<Partition>, p: Partition, n: NodeId, types: seq<Type>, time: Option<Timestamp>)
    ensures GraphNeighbors(parts + [p], n, types, time) == GraphNeighbors(parts, n, types, time) + PartitionNeighbors(p, n, types, time)
  {
    assert (parts + [p])[..|parts|] == parts;
  }

  /** Additivity over partitions: the graph made of `a` then `b` lists the
      neighbors of `a` followed by those of `b`, and its count is the sum. */
  lemma {:induction false} PartitionsAdditive(a: seq<Partition>, b: seq<Partition>, n: NodeId, types: seq<Type>, time: Option<Timestamp>)
    ensures GraphNeighbors(a + b, n, types, time) == GraphNeighbors(a, n, types, time) + GraphNeighbors(b, n, types, time)
    ensures GraphCount(a + b, n, types, time) == GraphCount(a, n, types, time) + GraphCount(b, n, types, time)
    decreases |b|
  {
    if |b| == 0 {
      assert a + b == a;
    } else {
      var b', last := b[..|b| - 1], b[|b| - 1];
      assert b == b' + [last];
      assert a + b == (a + b') + [last];
      PartitionsAdditive(a, b', n, types, time);
      GraphNeighborsSnoc(a + b', last, n, types, time);
      GraphNeighborsSnoc(b', last, n, types, time);
      AppendAssoc(GraphNeighbors(a, n, types, time), GraphNeighbors(b', n, types, time), PartitionNeighbors(last, n, types, time));
    }
  }

  lemma AppendAssoc<T>(a: seq<T>, b: seq<T>, c: seq<T>)
    ensures (a + b) + c == a + (b + c)
  {
  }

  /** Additivity over type filters with no type in common. */
  lemma {:induction false} TypesAdditive(parts: seq<Partition>, n: NodeId, s1: seq<Type>, s2: seq<Type>, time: Option<Timestamp>)
    requires forall x :: x in s1 ==> x !in s2
    ensures GraphCount(parts, n, s1 + s2, time) == GraphCount(parts, n, s1, time) + GraphCount(parts, n, s2, time)
    decreases |parts|
  {
    if |parts| > 0 {
      TypesAdditive(parts[..|parts| - 1], n, s1, s2, time);
      CountDisjointTypes(NodeEdges(parts[|parts| - 1], n), s1, s2, time);
    }
  }

  lemma SplitAt<T>(s: seq<T>, k: nat)
    requires k < |s|
    ensures s == s[..k] + [s[k]] + s[k + 1..]
  {
  }

  /** A node held by exactly one partition is answered by that partition alone. */
  lemma SinglePartitionAnswers(parts: seq<Partition>, k: nat, n: NodeId, types: seq<Type>, time: Option<Timestamp>)
    requires k < |parts|
    requires forall j :: 0 <= j < |parts| && j != k ==> n !in parts[j].adjacency
    ensures GraphNeighbors(parts, n, types, time) == PartitionNeighbors(parts[k], n, types, time)
  {
    var before := parts[..k];
    var after := parts[k + 1..];
    SplitAt(parts, k);
    assert Unknown(before, n) by {
      assert forall j :: 0 <= j < |before| ==> before[j] == parts[j];
    }
    assert Unknown(after, n) by {
      assert forall j :: 0 <= j < |after| ==> after[j] == parts[k + 1 + j];
    }
    UnknownNodeHasNoNeighbors(before, n, types, time);
    UnknownNodeHasNoNeighbors(after, n, types, time);
    PartitionsAdditive(before + [parts[k]], after, n, types, time);
    PartitionsAdditive(before, [parts[k]], n, types, time);
    assert GraphNeighbors([parts[k]], n, types, time) == PartitionNeighbors(parts[k], n, types, time) by {
      assert [parts[k]][..0] == [];
    }
  }

  /** A slice inside the prefix of a concatenation is a slice of the prefix. */
  lemma SliceOfPrefix<T>(xs: seq<T>, ys: seq<T>, lo: nat, hi: nat)
    requires lo <= hi <= |xs|
    ensures (xs + ys)[lo..hi] == xs[lo..hi]
  {
  }

  /** The suffix of a concatenation, sliced after the prefix. */
  lemma SliceOfSuffix<T>(xs: seq<T>, ys: seq<T>)
    ensures (xs + ys)[|xs|..|xs| + |ys|] == ys
  {
  }

  /** Node i of `r` owns exactly the entries of `es`, at offset Sum(counts[..i]). */
  predicate AlignedAt(r: NeighborList, i: nat, es: seq<Edge>)
    requires i < |r.counts|
  {
    var off := Sum(r.counts[..i]);
    && r.counts[i] == |es|
    && off + r.counts[i] <= |r.ids|
    && off + r.counts[i] <= |r.types|
    && off + r.counts[i] <= |r.weights|
    && r.ids[off..off + r.counts[i]] == Ids(es)
    && r.types[off..off + r.counts[i]] == EdgeTypes(es)
    && r.weights[off..off + r.counts[i]] == Weights(es)
  }

  /** Appending a node keeps the earlier nodes' entries where they were. */
  lemma AppendKeepsAligned(r: NeighborList, es': seq<Edge>, i: nat, es: seq<Edge>)
    requires i < |r.counts|
    requires AlignedAt(r, i, es)
    ensures AlignedAt(Append(r, es'), i, es)
  {
    var r' := Append(r, es');
    assert r'.counts[..i] == r.counts[..i];
    var off := Sum(r.counts[..i]);
    SliceOfPrefix(r.ids, Ids(es'), off, off + r.counts[i]);
    SliceOfPrefix(r.types, EdgeTypes(es'), off, off + r.counts[i]);
    SliceOfPrefix(r.weights, Weights(es'), off, off + r.counts[i]);
  }

  /** The appended node's entries follow all earlier entries. */
  lemma AppendAlignsLast(r: NeighborList, es: seq<Edge>)
    requires |r.ids| == |r.types| == |r.weights| == Sum(r.counts)
    ensures AlignedAt(Append(r, es), |r.counts|, es)
  {
    var r' := Append(r, es);
    assert r'.counts[..|r.counts|] == r.counts;
    SliceOfSuffix(r.ids, Ids(es));
    SliceOfSuffix(r.types, EdgeTypes(es));
    SliceOfSuffix(r.weights, Weights(es));
  }

  /** Node i's entries sit at offset Sum(counts[..i]) in every flat column and
      span counts[i] entries: the columns are aligned with the count vector,
      and node i's entries come after those of every earlier node. */
  lemma {:induction false} FullNeighborAligned(parts: seq<Partition>, qs: seq<Query>, types: seq<Type>, i: nat)
    requires i < |qs|
    ensures AlignedAt(FullNeighbor(parts, qs, types), i, GraphNeighbors(parts, qs[i].node, types, qs[i].time))
    decreases |qs|
  {
    var init := qs[..|qs| - 1];
    var prev := FullNeighbor(parts, init, types);
    var q := qs[|qs| - 1];
    var es := GraphNeighbors(parts, q.node, types, q.time);
    assert FullNeighbor(parts, qs, types) == Append(prev, es);
    if i == |qs| - 1 {
      AppendAlignsLast(prev, es);
    } else {
      FullNeighborAligned(parts, init, types, i);
      assert init[i] == qs[i];
      AppendKeepsAligned(prev, es, i, GraphNeighbors(parts, qs[i].node, types, qs[i].time));
    }
  }

  /** An answer with empty columns and all-zero counts. */
  predicate EmptyAnswer(r: NeighborList) {
    && r.ids == [] && r.types == [] && r.weights == []
    && forall i :: 0 <= i < |r.counts| ==> r.counts[i] == 0
  }

  lemma AppendNothing(r: NeighborList)
    requires EmptyAnswer(r)
    ensures EmptyAnswer(Append(r, []))
  {
    assert Append(r, []).counts == r.counts + [0];
  }

  /** A batch whose every node has no neighbors leaves the columns empty and the counts zero. */
  lemma {:induction false} NoNeighborsGiveEmpty(parts: seq<Partition>, qs: seq<Query>, types: seq<Type>)
    requires forall i :: 0 <= i < |qs| ==> GraphCount(parts, qs[i].node, types, qs[i].time) == 0
    ensures EmptyAnswer(FullNeighbor(parts, qs, types))
    decreases |qs|
  {
    if |qs| > 0 {
      var init := qs[..|qs| - 1];
      var q := qs[|qs| - 1];
      assert forall i :: 0 <= i < |init| ==> init[i] == qs[i];
      NoNeighborsGiveEmpty(parts, init, types);
      var prev := FullNeighbor(parts, init, types);
      var es := GraphNeighbors(parts, q.node, types, q.time);
      assert es == [];
      AppendNothing(prev);
    }
  }

  /** Unknown node ids never fail: they give zero counts and leave the flat columns empty. */
  lemma UnknownNodesGiveEmpty(parts: seq<Partition>, qs: seq<Query>, types: seq<Type>)
    requires forall i :: 0 <= i < |qs| ==> Unknown(parts, qs[i].node)
    ensures EmptyAnswer(FullNeighbor(parts, qs, types))
  {
    forall i | 0 <= i < |qs|
      ensures GraphCount(parts, qs[i].node, types, qs[i].time) == 0
    {
      UnknownNodeHasNoNeighbors(parts, qs[i].node, types, qs[i].time);
    }
    NoNeighborsGiveEmpty(parts, qs, types);
  }

  /** A type filter that matches no edge gives all-zero counts and empty columns. */
  lemma UnmatchedTypesGiveEmpty(parts: seq<Partition>, qs: seq<Query>, types: seq<Type>)
    requires NoEdgeOfTypes(parts, types)
    ensures EmptyAnswer(FullNeighbor(parts, qs, types))
  {
    forall i | 0 <= i < |qs|
      ensures GraphCount(parts, qs[i].node, types, qs[i].time) == 0
    {
      UnmatchedTypesHaveNoNeighbors(parts, qs[i].node, types, qs[i].time);
    }
    NoNeighborsGiveEmpty(parts, qs, types);
  }
}
