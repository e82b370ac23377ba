/**
 The temporal edge index of one node in one partition: a sequence of edge
 records, each valid during a half-open interval, filtered by an edge-type
 set and (optionally) by a query timestamp.
 */
module TemporalEdges {

  type NodeId = int
  type Type = int
  type Timestamp = int

  /** Deletion time meaning "never deleted": the validity interval is open-ended. */
  const NeverDeleted: Timestamp := -1

  datatype Option<T> = None | Some(value: T)

  /** One neighbor record: destination, edge type, weight (copied through,
      never computed on) and the validity interval [created, deleted). */
  datatype Edge = Edge(dst: NodeId, edgeType: Type, weight: real, created: Timestamp, deleted: Timestamp)

  /** Creation is inclusive, deletion is exclusive, NeverDeleted is unbounded. */
  predicate AliveAt(e: Edge, t: Timestamp) {
    e.created <= t && (e.deleted == NeverDeleted || t < e.deleted)
  }

  /** The query filter: type membership, plus aliveness when a timestamp is given.
      Without a timestamp the time filter is skipped entirely. */
  predicate Admits(e: Edge, types: seq<Type>, time: Option<Timestamp>) {
    e.edgeType in types && (time.None? || AliveAt(e, time.value))
  }

  /** One for a true condition, zero for a false one. */
  function Ind(b: bool): nat {
    if b then 1 else 0
  }

  /** Number of admitted edges. */
  function Count(edges: seq<Edge>, types: seq<Type>, time: Option<Timestamp>): (r: nat)
    ensures r <= |edges|
    ensures r == 0 <==> forall i :: 0 <= i < |edges| ==> !Admits(edges[i], types, time)
    ensures r == |edges| <==> forall i :: 0 <= i < |edges| ==> Admits(edges[i], types, time)
  {
    if |edges| == 0 then 0
    else
      var rest := Count(edges[1..], types, time);
      assert forall i :: 1 <= i < |edges| ==> edges[i] == edges[1..][i - 1];
      Ind(Admits(edges[0], types, time)) + rest
  }

  /** The admitted edges, in insertion order. */
  function Enumerate(edges: seq<Edge>, types: seq<Type>, time: Option<Timestamp>): (r: seq<Edge>)
    ensures |r| <= |edges|
    ensures forall i :: 0 <= i < |r| ==> Admits(r[i], types, time)
  {
    if |edges| == 0 then []
    else
      var rest := Enumerate(edges[1..], types, time);
      if Admits(edges[0], types, time) then [edges[0]] + rest else rest
  }

  /** The enumeration holds exactly the admitted edges. */
  lemma {:induction false} EnumerateMembers(edges: seq<Edge>, types: seq<Type>, time: Option<Timestamp>, e: Edge)
    ensures e in Enumerate(edges, types, time) <==> e in edges && Admits(e, types, time)
  {
    if |edges| > 0 {
      EnumerateMembers(edges[1..], types, time, e);
      assert e in edges <==> e == edges[0] || e in edges[1..];
    }
  }

  /** Count and enumeration agree: the count is the length of the enumeration. */
  lemma {:induction false} EnumerateLength(edges: seq<Edge>, types: seq<Type>, time: Option<Timestamp>)
    ensures |Enumerate(edges, types, time)| == Count(edges, types, time)
  {
    if |edges| > 0 {
      EnumerateLength(edges[1..], types, time);
    }
  }

  /** Filtering distributes over concatenation, so insertion order is preserved. */
  lemma {:induction false} EnumerateAppend(a: seq<Edge>, b: seq<Edge>, types: seq<Type>, time: Option<Timestamp>)
    ensures Enumerate(a + b, types, time) == Enumerate(a, types, time) + Enumerate(b, types, time)
  {
    if |a| == 0 {
      assert a + b == b;
    } else {
      assert (a + b)[1..] == a[1..] + b;
      assert (a + b)[0] == a[0];
      EnumerateAppend(a[1..], b, types, time);
    }
  }

  /** Counts are additive over concatenation of edge lists. */
  lemma CountAppend(a: seq<Edge>, b: seq<Edge>, types: seq<Type>, time: Option<Timestamp>)
    ensures Count(a + b, types, time) == Count(a, types, time) + Count(b, types, time)
  {
    EnumerateAppend(a, b, types, time);
    EnumerateLength(a + b, types, time);
    EnumerateLength(a, types, time);
    EnumerateLength(b, types, time);
  }

  /** Counts over two type filters with no type in common add up. */
  lemma {:induction false} CountDisjointTypes(edges: seq<Edge>, s1: seq<Type>, s2: seq<Type>, time: Option<Timestamp>)
    requires forall x :: x in s1 ==> x !in s2
    ensures Count(edges, s1 + s2, time) == Count(edges, s1, time) + Count(edges, s2, time)
  {
    if |edges| > 0 {
      CountDisjointTypes(edges[1..], s1, s2, time);
      var e := edges[0];
      assert e.edgeType in s1 + s2 <==> e.edgeType in s1 || e.edgeType in s2;
    }
  }

  /** A time filter can only drop edges. */
  lemma {:induction false} TimedCountAtMostUntimed(edges: seq<Edge>, types: seq<Type>, t: Timestamp)
    ensures Count(edges, types, Some(t)) <= Count(edges, types, None)
  {
    if |edges| > 0 {
      TimedCountAtMostUntimed(edges[1..], types, t);
    }
  }

  /** Without a timestamp, intervals are irrelevant: edge lists that agree on
      types (but not necessarily on intervals) have the same count. */
  lemma {:induction false} UntimedIgnoresIntervals(a: seq<Edge>, b: seq<Edge>, types: seq<Type>)
    requires |a| == |b|
    requires forall i :: 0 <= i < |a| ==> a[i].edgeType == b[i].edgeType
    ensures Count(a, types, None) == Count(b, types, None)
  {
    if |a| > 0 {
      assert forall i :: 0 <= i < |a| - 1 ==> a[1..][i] == a[i + 1] && b[1..][i] == b[i + 1];
      UntimedIgnoresIntervals(a[1..], b[1..], types);
    }
  }

  /** With an exhaustive type filter and no timestamp, nothing is filtered out. */
  lemma {:induction false} ExhaustiveUntimedKeepsAll(edges: seq<Edge>, types: seq<Type>)
    requires forall i :: 0 <= i < |edges| ==> edges[i].edgeType in types
    ensures Enumerate(edges, types, None) == edges
  {
    if |edges| > 0 {
      assert forall i :: 0 <= i < |edges| - 1 ==> edges[1..][i] == edges[i + 1];
      ExhaustiveUntimedKeepsAll(edges[1..], types);
    }
  }

  /** No edge is created or deleted in (t1, t2]. */
  predicate NoBoundaryBetween(e: Edge, t1: Timestamp, t2: Timestamp) {
    !(t1 < e.created <= t2) && (e.deleted == NeverDeleted || !(t1 < e.deleted <= t2))
  }

  /** Temporal stability: if no edge starts or ends between two timestamps,
      queries at either timestamp return the same edges. */
  lemma {:induction false} StableBetweenBoundaries(edges: seq<Edge>, types: seq<Type>, t1: Timestamp, t2: Timestamp)
    requires t1 <= t2
    requires forall i :: 0 <= i < |edges| ==> NoBoundaryBetween(edges[i], t1, t2)
    ensures Enumerate(edges, types, Some(t1)) == Enumerate(edges, types, Some(t2))
  {
    if |edges| > 0 {
      assert forall i :: 0 <= i < |edges| - 1 ==> edges[1..][i] == edges[i + 1];
      StableBetweenBoundaries(edges[1..], types, t1, t2);
      assert AliveAt(edges[0], t1) <==> AliveAt(edges[0], t2);
    }
  }

  /** The interval is inclusive at creation and exclusive at deletion. */
  lemma AliveBoundaries(e: Edge)
    ensures (e.deleted == NeverDeleted || e.created < e.deleted) <==> AliveAt(e, e.created)
    ensures e.deleted != NeverDeleted ==> !AliveAt(e, e.deleted)
    ensures e.deleted == NeverDeleted ==> forall t :: t >= e.created ==> AliveAt(e, t)
  {
  }
}
