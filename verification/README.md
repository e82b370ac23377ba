# Temporal neighbor queries of a partitioned graph store

This project models the two neighbor queries of DeepGNN's temporal graph store,
NeighborCount and FullNeighbor, as Dafny functions and methods, and proves
properties about them.

- **Edge record.** A destination node id, an edge type, a weight, and a
  validity interval `[created, deleted)`. A deletion time of `-1` means the
  edge is never deleted.
- **Partition.** A map from node id to that node's edge records, in insertion
  order, plus a watermark.
- **Graph.** An ordered sequence of partitions. The same node id may be held
  by several partitions.

A query takes a batch of node ids, a set of edge types and either one
timestamp per node or none at all.

- An edge answers the query when its type is in the set and, if a timestamp
  `t` is given, it is alive at `t`: `created <= t` and (`deleted == -1` or
  `t < deleted`).
- Without timestamps there is no time filter.
- **NeighborCount** writes one count per node into caller storage, overwriting
  whatever it held.
- **FullNeighbor** appends the ids, types and weights of the answering edges
  to three caller vectors and writes one count per node. The answering edges
  are grouped by query-node order; within a node they come partition by
  partition in registration order, in insertion order.
- Unknown node ids are not an error: they count zero and add nothing.

The files, one module each:

- `temporal_edges.dfy` (`TemporalEdges`): the edge record, the aliveness and
  type filter, and the per-node count and listing with their laws.
- `partition.dfy` (`Partitions`): one partition's partial answers.
- `graph.dfy` (`Graphs`): reference definitions of the graph answers, which
  fold over partitions, and the batch answers, plus the theorems about them.
- `graph_queries.dfy` (`GraphQueries`): the query entry points as loops over
  nodes and partitions that fill caller storage. Each is proved equal to the
  reference definitions.
- `fixtures.dfy` (`Fixtures`): the two graphs built in the test fixture and
  the answers the tests expect of them. A fixture's intervals are attached to
  its neighbor records in listing order: node by node, neighbor by neighbor.

## Model

| member | source | states |
|---|---|---|
| TemporalEdges.AliveAt | src/cc/tests/temporal_test.cc:41-46 | an edge is alive at t when it was created at or before t and either is never deleted (-1) or is deleted after t; its boundary behaviour is stated by TemporalEdges.AliveBoundaries |
| TemporalEdges.Admits | src/cc/tests/temporal_test.cc:103-147 | an edge answers a query when its type is in the type set and, only when a timestamp is given, it is alive at that timestamp; its consequences for counts are stated by TemporalEdges.UntimedIgnoresIntervals and TemporalEdges.TimedCountAtMostUntimed |
| TemporalEdges.Enumerate | src/cc/tests/temporal_test.cc:168-178 | a node's listing is no longer than its record run and holds only records that pass the filter; TemporalEdges.EnumerateMembers and TemporalEdges.EnumerateLength tie it to the run and to the count |
| TemporalEdges.Count | src/cc/tests/temporal_test.cc:103-147 | a node's count never exceeds its number of edge records; it is zero exactly when no record passes the type and time filter, and equals the number of records exactly when every record passes |
| TemporalEdges.EnumerateMembers | src/cc/tests/temporal_test.cc:168-178 | an edge is listed if and only if it is one of the node's records and passes the type and time filter |
| TemporalEdges.EnumerateLength | src/cc/tests/temporal_test.cc:168-178 | the count is the length of the listing, so the count slot matches the number of flat entries |
| TemporalEdges.EnumerateAppend | src/cc/tests/temporal_test.cc:172-176 | filtering keeps insertion order: listing two record runs one after the other gives the first run's listing followed by the second's |
| TemporalEdges.CountAppend | src/cc/tests/temporal_test.cc:236-244 | counts add up over concatenated record runs |
| TemporalEdges.CountDisjointTypes | src/cc/tests/temporal_test.cc:119-131 | the count for a union of type sets with no common type is the sum of the counts for each set |
| TemporalEdges.TimedCountAtMostUntimed | src/cc/tests/temporal_test.cc:243-244 | adding a timestamp can only lower a count, never raise it: the untimed count of line 243 bounds every timed count for the same types |
| TemporalEdges.UntimedIgnoresIntervals | src/cc/tests/temporal_test.cc:243-244 | without timestamps the validity intervals play no part: record runs that agree on types count the same whatever their intervals |
| TemporalEdges.ExhaustiveUntimedKeepsAll | src/cc/tests/temporal_test.cc:243-244 | with no timestamp and a type set covering every record, the listing is the whole record run unchanged |
| TemporalEdges.StableBetweenBoundaries | src/cc/tests/temporal_test.cc:41-46 | if no record is created or deleted in (t1, t2], queries at t1 and at t2 list the same edges |
| TemporalEdges.AliveBoundaries | src/cc/tests/temporal_test.cc:72-76 | an interval is closed at creation and open at deletion; a never-deleted edge stays alive from its creation on |
| Partitions.PartitionCount | src/cc/tests/temporal_test.cc:140-146 | a node the partition does not hold counts zero there; otherwise its partial count is at most the node's record count |
| Partitions.PartitionNeighbors | src/cc/tests/temporal_test.cc:160-178 | a partition's partial listing is as long as its partial count, is empty for a node it does not hold, and passes the filter |
| Graphs.GraphCount | src/cc/tests/temporal_test.cc:239-244 | the reference count of a node over the whole graph, the partial counts of all partitions summed in registration order; a node no partition holds counts zero; Graphs.PartitionsAdditive and GraphQueries.NodeCount pin it down |
| Graphs.GraphNeighbors | src/cc/tests/temporal_test.cc:87-94 | the graph's listing for a node has as many entries as the graph's count for it |
| Graphs.GraphNeighborsAdmitted | src/cc/tests/temporal_test.cc:184-193 | every neighbor the graph lists has a type in the filter and, when a timestamp is given, is alive at it |
| Graphs.UnknownNodeHasNoNeighbors | src/cc/tests/temporal_test.cc:261-267 | a node id held by no partition counts zero and lists nothing, rather than failing |
| Graphs.UnmatchedTypesHaveNoNeighbors | src/cc/tests/temporal_test.cc:254-259 | a type set matching no record anywhere in the graph gives every node count zero and an empty listing, at any time |
| Graphs.FullNeighbor | src/cc/tests/temporal_test.cc:172-178 | one count per query node; the ids, types and weights columns are equally long, and as long as the counts add up to |
| Graphs.NeighborCounts | src/cc/tests/temporal_test.cc:103-147 | the reference NeighborCount answer: one count per query node, each node's graph count at its own timestamp; Graphs.FullNeighborCountsAgree and GraphQueries.NeighborCount relate it to the other answers |
| Graphs.FullNeighborSplit | src/cc/tests/temporal_test.cc:172-178 | answering the batch a followed by b gives a's answer followed by b's in every column and in the counts, so a node's entries do not depend on the rest of its batch and node 0's entries lead |
| Graphs.FullNeighborCountsAgree | src/cc/tests/temporal_test.cc:111-178 | FullNeighbor's count vector equals the NeighborCount answer for the same nodes, types and timestamps ({2, 1} at lines 116 and 178) |
| Graphs.FullNeighborTypesInFilter | src/cc/tests/temporal_test.cc:187-193 | every type in FullNeighbor's type column belongs to the type filter |
| Graphs.PartitionsAdditive | src/cc/tests/temporal_test.cc:236-244 | splitting the partitions into a front and a back part: the node's listing is the front's listing followed by the back's, and its count is their sum |
| Graphs.TypesAdditive | src/cc/tests/temporal_test.cc:119-131 | over the whole graph, the count for a union of disjoint type sets is the sum of the counts for each |
| Graphs.SinglePartitionAnswers | src/cc/tests/temporal_test.cc:89-94 | when only partition k holds a node, the graph's count and listing for it are partition k's |
| Graphs.FullNeighborAligned | src/cc/tests/temporal_test.cc:172-178 | node i's entries start in every column at the sum of the earlier counts, span counts[i] entries, and are exactly node i's listing: the columns align with the counts and keep query-node order |
| Graphs.NoNeighborsGiveEmpty | src/cc/tests/temporal_test.cc:160-166 | when no query node has neighbors, all three columns are empty and every count is zero |
| Graphs.UnknownNodesGiveEmpty | src/cc/tests/temporal_test.cc:222-233 | a batch of unknown node ids gives empty columns and zero counts |
| Graphs.UnmatchedTypesGiveEmpty | src/cc/tests/temporal_test.cc:210-220 | a type set matching no record gives empty columns and zero counts |
| GraphQueries.NodeCount | src/cc/tests/temporal_test.cc:236-244 | visiting the partitions that hold the node in registration order and summing their partial counts gives the reference graph count |
| GraphQueries.NodeNeighbors | src/cc/tests/temporal_test.cc:88-94 | concatenating the partial listings of the partitions that hold the node, in registration order, gives the reference graph listing |
| GraphQueries.NeighborCount | src/cc/tests/temporal_test.cc:103-147 | each slot of the caller's count storage, whatever it held before (the tests pre-fill -1), ends up holding its node's count over all partitions at its own timestamp, or untimed when no timestamps are given |
| GraphQueries.FullNeighborLoop | src/cc/tests/temporal_test.cc:149-234 | node by node, the loop builds exactly the reference FullNeighbor answer and writes each node's count into its slot |
| GraphQueries.FullNeighbor | src/cc/tests/temporal_test.cc:157-178 | the caller's three vectors keep their prior contents and gain exactly the reference answer's columns; the count storage is overwritten with the reference counts |
| Fixtures.NodeZeroLifetime | src/cc/tests/temporal_test.cc:42-43 | node 0's two edges of the single-partition graph are alive at 0 and dead at 1 and at 2 |
| Fixtures.SingleNodeCount | src/cc/tests/temporal_test.cc:26-46 | in the single-partition graph, node 0's count is decided by its two records and node 1's by its three, and any other node counts zero |
| Fixtures.SingleCountTypeZeroAtTwo | src/cc/tests/temporal_test.cc:106-112 | single partition, nodes {0, 1}, type {0}, time 2: counts {0, 0} |
| Fixtures.SingleCountTypeZeroAtZero | src/cc/tests/temporal_test.cc:114-116 | single partition, type {0}, time 0: counts {2, 1} |
| Fixtures.SingleCountTypeOneAtTwo | src/cc/tests/temporal_test.cc:119-124 | single partition, type {1}, time 2: counts {0, 1} |
| Fixtures.SingleCountBothTypesAtTwo | src/cc/tests/temporal_test.cc:127-131 | single partition, types {0, 1}, time 2: counts {0, 1} |
| Fixtures.SingleCountUnmatchedTypes | src/cc/tests/temporal_test.cc:134-138 | single partition, types {-1, 100}: counts {0, 0} |
| Fixtures.SingleCountUnknownNodes | src/cc/tests/temporal_test.cc:141-146 | single partition, nodes {99, 100}: counts {0, 0} |
| Fixtures.SingleFullTypeZeroAtZero | src/cc/tests/temporal_test.cc:168-178 | single partition, type {0}, time 0: counts {2, 1}, ids beginning {1, 2}, types {0, 0, 0}, weights {1, 2, 1} |
| Fixtures.SingleFullAtTwo | src/cc/tests/temporal_test.cc:182-207 | single partition, type set {1} or {0, 1}, time 2: ids {5}, types {1}, weights {7}, counts {0, 1} |
| Fixtures.SingleFullEmpty | src/cc/tests/temporal_test.cc:152-233 | single partition: type {0} at time 2, types {-1, 100}, and nodes {99, 100} all give empty columns and counts {0, 0} |
| Fixtures.MultiSplit | src/cc/tests/temporal_test.cc:88-94 | in the two-partition graph, a node's count is the first partition's partial count plus the second's |
| Fixtures.MultiNodeCount | src/cc/tests/temporal_test.cc:57-85 | in the two-partition graph, node 0's count is decided by its two records, node 1's by its three records in the first partition and two in the second, and any other node counts zero |
| Fixtures.MultiCountUntimed | src/cc/tests/temporal_test.cc:239-244 | two partitions, type {1}, no timestamps: node 1 counts 1 in the first partition and 2 in the second, and the answer is {0, 3} |
| Fixtures.MultiNothingAtTwo | src/cc/tests/temporal_test.cc:254-267 | two partitions, time 2: types {-1, 100} and nodes {99, 100} leave both query nodes without neighbors |
| Fixtures.MultiCountEmpty | src/cc/tests/temporal_test.cc:254-267 | two partitions: types {-1, 100} and nodes {99, 100} give counts {0, 0} |
| Fixtures.MultiFullEmpty | src/cc/tests/temporal_test.cc:322-345 | two partitions: types {-1, 100} and nodes {99, 100} give empty columns and counts {0, 0} |

## Left out

- Fixtures.SingleFullTypeZeroAtZero: states only the first two ids. Line 172 expects the third id to be 4 (the record valid during [1, 2)), but pairing intervals with records in listing order gives 3 (valid during [0, 1)). The types, weights and counts at lines 174-178 agree with either reading. The pairing is done by `TestGraph::convert`, which is not part of this model.
- The multi-partition expectations at a timestamp, lines 250-252 and 273-320, are not stated. Under listing-order pairing, the second partition's edge 7 (valid during [2, 3), line 85) is alive at time 2. For types {1} the model answers node 1 with count 2 (ids 5 and 7) where lines 281-290 and 310-319 expect 1 (id 5). For types {0, 1} it answers count 3 (ids 4, 5 and 7) where lines 250-252 and 295-304 expect 2 (ids 3 and 5). A pairing that swaps the intervals of records 3 and 4 of node 1 would agree with every single-partition assertion, line 172 included, and with the first partition's part of line 298, but edge 7 at time 2 stays unexplained either way. The store's actual pairing lives in `TestGraph::convert` and the storage code, neither of which is part of this model.
- Partition watermarks are kept as data but never filter a query: no assertion depends on them, and the code that would read them is not part of this model.
- SampleNeighbor (lines 348-438) is left out. It depends on a seeded xoroshiro generator and boost's uniform distribution, neither of which is part of this model, and on floating-point weight sums. Its expectations also disagree with the fixture:
  - a two-slot total-weights buffer is compared with four values;
  - unknown nodes are expected to return neighbors rather than the default id;
  - type-0 neighbors are reported with type 1.
- Graph construction and loading (lines 49-54, 88-94) are left out: temporary directories, `Metadata`, `convert` and storage types are file I/O. The fixture graphs are written down directly instead.
- Weights are 32-bit floats in the store and `real` here. They are only copied through, never computed on, so no rounding is modelled.
- Counts are 64-bit unsigned in the store and unbounded naturals here. No wrap-around is modelled, since a count never exceeds the number of stored records.
- A timestamp array whose length is neither zero nor the number of nodes is excluded by `ValidTimestamps`. The tests only pass these two shapes, and the store's behaviour for other lengths is not shown.
- Node attributes of the fixture (the node type and node weight, lines 30-31 and 36-37) are not modelled: neither query reads them.
