# Magnitude: a verified model of its indexes, logs and rings

This project models the parts of the Magnitude vector database that must agree with
something simple, and proves that they do.

- **HNSW** (`Visited`, `Heaps`, `Beam`, `BeamOrder`, `HnswGraph`, `Hnsw`, `HnswSmall`, `HnswRuns`,
  `HnswSearch`): a layered graph edited in place, searched with two heaps and a
  generation-stamped visited set. Every insert, drain and delete keeps one invariant from
  which all index bounds follow, and an insert links its node on every layer exactly as
  searched, selected and pruned; a beam search is characterised completely for any state of
  the visited set, and so is the query, with inserts, deletes and drains of others between
  its two locked sections. Indexes of at most 2m + 1 nodes stay connected and answer wide queries exactly.
- **HNSW snapshots** (`Wire`, `Snapshot`, `SnapshotFile`, `HnswSnapshot`): a binary format
  with variable-length lists, written to a buffer and parsed by two readers, the second of
  which must stay aligned with the first; tied to the invariant of the index.
- **Write-ahead log on an object store** (`S3Wal`): every store operation may fail, take
  effect and still fail, or be the last one before a crash, and reads run while others
  append and trim; what was acknowledged is read.
- **Consistent hashing and migration** (`HashRing`, `Routing`, `Cluster`, `RingCopies`,
  `RingExactness`).
- **Flat, IVF and scatter-gather search** (`Ranking`, `Selection`, `Rows`, `PostingLists`,
  `Flat`, `Ivf`, `IvfPq`, `ScatterGather`): fast forms that equal brute force.
- **k-means and quantizers** (`Euclid`, `KMeans`, `ProductQuantizer`, `ScalarQuantizer`).
- **Metadata filters** (`Filters`, `BitmapIndex`, `FilterShapes`): a query compiled to bitmaps
  against its evaluator.
- **Compaction recovery** (`Compaction`, `CompactionSamples`, `CompactionFaults`,
  `CompactionStorage`): replayed renames and deletes under crashes and failures.
- **Admission controller** (`Admission`), **SPANN posting file and index** (`PostingStore`,
  `Spann`), **segment cache** (`SegmentCache`). `Common` holds shared facts about sets and lists.

Objects that the code updates in place are classes whose methods are proved against a
specification; the specification functions and the lemmas about them carry the results.
Goroutines are atomic steps at lock boundaries, in any interleaving: a query, a drain, a
rebuild or a log read with several locked sections is split at them. Distances, components
and scales are exact reals where arithmetic matters and 32-bit patterns where only bytes
do. Random levels, centroids from a clustering, SHA-256, the hash of a key, map iteration
order, worker order and faults are arbitrary parameters.

Where a natural claim fails, the code is modelled as it is: the ring with colliding
positions, an OR with an empty branch, cancelled handed-over slots, re-executed renames
that bring a source back, compaction actions overtaken after a failure, snapshots of deleted
nodes, buffered ids that are live already or in flight, deletes during an IVF rebuild,
cancelled and overlapping rebuilds, a brand-new visited tracker. Each such claim comes with
the condition under which it holds, an exact one wherever the table says "if and only if".

## Model

| member | source | states |
|---|---|---|
| `Visited.VisitedTracker.Pooled` | internal/index/hnsw/hnsw.go:111-117 | a brand-new pooled tracker takes every node for visited |
| `Visited.VisitedTracker.NextGen` | internal/index/hnsw/hnsw.go:99-108 | afterwards no node is marked, across 32-bit wraparound of the generation too |
| `Visited.VisitedTracker.Visit` | internal/index/hnsw/hnsw.go:1131-1146 | marks exactly one more node, growing the stamps, and tells whether it was new |
| `Heaps.Push` | internal/index/hnsw/hnsw.go:1173-1176 | keeps the heap order and adds exactly the new hit |
| `Heaps.Pop` | internal/index/hnsw/hnsw.go:1257-1263 | takes out a root that is best of all and leaves a heap of the others |
| `Heaps.DrainAscending` | internal/index/hnsw/hnsw.go:1185-1189 | popping a farthest-first heap empty gives an ascending permutation of it |
| `Hnsw.HNSWIndex.CollectUnvisited` | internal/index/hnsw/hnsw.go:1128-1145 | returns exactly the unmarked neighbours, each once, and marks all of them |
| `Hnsw.HNSWIndex.BatchDistance` | internal/index/hnsw/hnsw.go:1147-1155 | fills the preallocated buffer within its 2m slots with the exact distances |
| `Hnsw.HNSWIndex.Offer` | internal/index/hnsw/hnsw.go:1171-1179 | both heaps keep their order and the result keeps the ef closest of everything evaluated |
| `Hnsw.HNSWIndex.Expand` | internal/index/hnsw/hnsw.go:1125-1182 | after expanding a node every unblocked neighbour of it was evaluated |
| `Hnsw.HNSWIndex.SearchLayer` | internal/index/hnsw/hnsw.go:1093-1190 | terminates; always the closest node seen and not yet expanded is expanded, and only while fewer than ef seen nodes are closer; the answer is ascending, distinct, at most ef long, the ef closest of all evaluated nodes, every returned node was expanded, and all evaluated nodes are reachable, for any state of the tracker |
| `BeamOrder.OneAnswer` | internal/index/hnsw/hnsw.go:1093-1190 | when no two nodes are equally far from the query, start, width and tracker determine the answer of a finished beam search |
| `Beam.NeighboursCovered` | internal/index/hnsw/hnsw.go:1105-1190 | every unblocked neighbour of a returned node is returned or no closer than the worst of a full result |
| `Beam.WideBeamIsExhaustive` | internal/index/hnsw/hnsw.go:1093-1190 | a beam as wide as the reachable set returns exactly the reachable set |
| `Beam.BeamFillsUp` | internal/index/hnsw/hnsw.go:1093-1190 | a finished beam search returns as many nodes as are reachable, or as many as fit into the beam |
| `Beam.AllBlockedReturnsEntryOnly` | internal/index/hnsw/hnsw.go:111-117 | on a tracker that marks everything the search returns its entry point only |
| `Beam.ExhaustiveExactly` | internal/index/hnsw/hnsw.go:1093-1190 | a beam as wide as the reachable set returns exactly the reachable set if and only if no node of it but the entry point was marked beforehand |
| `Hnsw.HNSWIndex.GreedyClosest` | internal/index/hnsw/hnsw.go:1068-1088 | walks from the start by greedy steps, each to the last neighbour that improved, and ends at a node with no closer live neighbour on the layer |
| `HnswGraph.OneStep` | internal/index/hnsw/hnsw.go:1071-1086 | a greedy step leads to one node only, so the walk is determined by its start |
| `Hnsw.HNSWIndex.SelectNeighborsHeuristic` | internal/index/hnsw/hnsw.go:1195-1226 | the picks in candidate order, at most m; a candidate is picked if and only if it is no closer to an earlier pick than to the query, until the list is full |
| `HnswGraph.ChosenNotEmpty` | internal/index/hnsw/hnsw.go:1195-1226 | the first candidate is always picked |
| `Hnsw.HNSWIndex.PruneConnections` | internal/index/hnsw/hnsw.go:1229-1246 | short lists stay; a longer one is ranked by exact distance and keeps exactly the friends that pass the diversity heuristic, nearest first, at most maxConn |
| `Hnsw.HNSWIndex.AddBackEdge` | internal/index/hnsw/hnsw.go:279-286 | the neighbour gains the edge at the end of its list, and a list that overflows becomes what pruning keeps of it; no other list changes and the graph invariant holds again |
| `Hnsw.HNSWIndex.LinkLayer` | internal/index/hnsw/hnsw.go:277-286 | the node gets exactly its neighbours, each of them is linked back with pruning, and no other list changes |
| `Hnsw.HNSWIndex.ConnectLayer` | internal/index/hnsw/hnsw.go:267-292 | the list of the node is the selection from a finished beam search of the layer, the neighbours are linked back, no other list changes, and the next entry point is the closest candidate |
| `Hnsw.HNSWIndex.Connect` | internal/index/hnsw/hnsw.go:250-292 | greedy descent through every layer above the node; then on each layer down to the bottom a beam search of the construction width that starts where the layer above ended, the selection from it at m or 2m, and the links back; every other list is untouched |
| `HnswGraph.NewNodeHasEdges` | internal/index/hnsw/hnsw.go:267-292 | unless it is the first one, a new node has the closest candidate of each layer as its first neighbour there |
| `HnswSmall.BatchKeepsCoherent` | internal/index/hnsw/hnsw.go:982-1012 | as long as the graph has at most 2m + 1 nodes, draining any batch keeps every node reachable from every other on the bottom layer |
| `Hnsw.HNSWIndex.Descend` | internal/index/hnsw/hnsw.go:250-254 | a greedy walk on each layer above the target, one starting where the one above it ended |
| `Hnsw.HNSWIndex.InsertLocked` | internal/index/hnsw/hnsw.go:212-301 | refuses exactly the live ids; otherwise the graph grows by one node linked as specified on every layer it has in common with the old graph, the entry point moves exactly to a node of a new top level, the live contents gain the vector and the index invariant (levels, degree bounds, no self-loops or duplicates, live nodes one-to-one with ids) holds again |
| `Hnsw.HNSWIndex.Delete` | internal/index/hnsw/hnsw.go:814-824 | soft delete removes exactly the id from the live contents, leaves the buffer alone and keeps the invariant |
| `Hnsw.HNSWIndex.Insert` | internal/index/hnsw/hnsw.go:193-208 | buffers a vector of the right dimension, refuses others |
| `Hnsw.HNSWIndex.TakeBatch` | internal/index/hnsw/hnsw.go:983-987 | the first locked section of a drain takes the whole buffer and changes nothing else |
| `Hnsw.HNSWIndex.ApplyBatch` | internal/index/hnsw/hnsw.go:993-1004 | the second one inserts the batch in order, each insert growing the graph as specified, first insert of an id winning, leaves the buffer alone, and the reported map names the new nodes |
| `HnswRuns.Interleave` | internal/index/hnsw/hnsw.go:193-208 | any sequence of locked sections of inserts, deletes and drains, several drains overlapping, keeps the index invariant and acts on live contents, buffer and batches in flight as specified; a small connected graph stays connected |
| `HnswRuns.LiveExactly` | internal/index/hnsw/hnsw.go:982-1012 | after any run an id is live if and only if it was and was not deleted, or a batch that holds it was inserted and it was not deleted since |
| `HnswRuns.PresentStays` | internal/index/hnsw/hnsw.go:982-1012 | without deletes no id is lost: it stays live, buffered or in flight |
| `HnswRuns.DeletedComesBack` | internal/index/hnsw/hnsw.go:814-824 | after a delete and a drain the id is live if and only if it was buffered |
| `HnswRuns.FirstInsertWins` | internal/index/hnsw/hnsw.go:982-1012 | while overlapping drains finish in the order they began, the first insert of an id wins, wherever its batch is |
| `HnswRuns.OrderMattersExactly` | internal/index/hnsw/hnsw.go:982-1012 | two batches give the same contents in either order, whatever is live, if and only if they agree on the ids they share |
| `HnswSearch.TakeLive` | internal/index/hnsw/hnsw.go:354-367 | takes the first k candidates that are not deleted |
| `HnswSearch.SearchGraph` | internal/index/hnsw/hnsw.go:332-367 | the answer is the first k live candidates of a finished beam search from a local minimum of the layer above, on any tracker; with a beam as wide as the graph the exact k nearest of the live ids reachable around the marked nodes; at most one hit when everything is marked |
| `HnswSearch.GraphAnswerExactly` | internal/index/hnsw/hnsw.go:332-367 | on a connected bottom layer without deletions and with room for every node, the answer is the exact one over all live ids if and only if no node but the entry point was marked; a clear tracker suffices in general |
| `HnswSearch.SearchDirtyBuffer` | internal/index/hnsw/hnsw.go:924-966 | the k closest of the copied buffer in ascending order, with multiplicities, for any buffer |
| `HnswSearch.MergeResults` | internal/index/hnsw/hnsw.go:969-978 | the k closest of both answers in ascending order, with multiplicities, shared ids included |
| `HnswSearch.Search` | internal/index/hnsw/hnsw.go:305-380 | error and empty cases; the buffer is copied first, any locked sections of others run, then the graph is searched from the end of the greedy descent with width nprobe, or efSearch when it is not positive, raised to k: the answer is the k closest of the copied buffer and of the first k live candidates of the beam, with a wide beam of everything reachable around the marked nodes, for any tracker and any buffer |
| `HnswSearch.AnswerFillsUp` | internal/index/hnsw/hnsw.go:326-367 | without deletions the graph gives k hits, or all it can reach around the marked nodes when they are fewer |
| `HnswSearch.SmallIsExact` | internal/index/hnsw/hnsw.go:326-367 | on such a graph a query on a clear tracker as wide as the graph gives the exact k nearest of all live ids, whatever was inserted, drained and deleted before |
| `HnswSearch.NewBufferIsTopK` | internal/index/hnsw/hnsw.go:305-380 | when the graph part misses nothing and the copied buffer repeats no id and holds none live in the graph as it is searched, the answer is the exact k nearest over both |
| `HnswSearch.DistinctExactly` | internal/index/hnsw/hnsw.go:924-978 | with room for everything the answer names each id once if and only if the copied buffer repeats no id and holds none live in the graph as it is searched |
| `HnswRuns.StillNewExactly` | internal/index/hnsw/hnsw.go:316-320 | a buffer that was new when copied is new to the graph searched later if and only if no batch with one of its ids was inserted in between and stayed |
| `HnswRuns.DrainInBetween` | internal/index/hnsw/hnsw.go:316-320 | one whole drain in between makes every copied id live, so any nonempty buffer is not new any more |
| `HnswSearch.DistinctAmidExactly` | internal/index/hnsw/hnsw.go:305-380 | a query on a buffer that was new when copied repeats an id if and only if such an insertion came in between |
| `HnswSearch.AnswersSeen` | internal/index/hnsw/hnsw.go:305-380 | with room for everything a query names exactly the copied ids and the ids live when the graph is searched |
| `HnswRuns.MissedExactly` | internal/index/hnsw/hnsw.go:316-320 | an id that nobody deletes is missed if and only if it was neither live nor buffered at the copy but in a batch in flight, and no batch that holds it was inserted before the graph is searched |
| `HnswRuns.NothingMissedExactly` | internal/index/hnsw/hnsw.go:982-993 | queries miss nothing, whatever runs in between, if and only if no id is in flight only |
| `Snapshot.HeaderRoundTrip` | internal/index/hnsw/snapshot.go:32-43 | the 78-byte header parses back to itself |
| `Snapshot.NodeRoundTrip` | internal/index/hnsw/snapshot.go:55-82 | one node record with its variable-length friend lists parses back whatever follows it |
| `Snapshot.PrintedIsParsed` | internal/index/hnsw/snapshot.go:48-99 | parsing a saved graph gives dimension, m, ids, levels, friends, vectors, entry point, max level and seqID back, a rebuilt id map and no deletions |
| `Snapshot.RoundTripExactly` | internal/index/hnsw/snapshot.go:48-298 | for a graph whose live ids and nodes correspond one to one, the loaded graph equals the saved one if and only if it had no deletions |
| `Snapshot.IdMapInverts` | internal/index/hnsw/snapshot.go:196-239 | with distinct ids the rebuilt id map is the inverse of the node list |
| `SnapshotFile.SnapshotToFile` | internal/index/hnsw/snapshot.go:48-99 | the written bytes are exactly the format of the graph the index holds |
| `SnapshotFile.Reader.Record` | internal/index/hnsw/snapshot.go:198-238 | reading a node agrees with the one-pass parser, value, position and error |
| `SnapshotFile.ReadNodes` | internal/index/hnsw/snapshot.go:191-240 | the first pass yields the parsed nodes and id map, or the parser error |
| `SnapshotFile.SkipLists` | internal/index/hnsw/snapshot.go:260-269 | skips each list by its 32-bit product of count and width, wrapped or not, or gives the read error |
| `SnapshotFile.ReadSlab` | internal/index/hnsw/snapshot.go:242-270 | row i of the slab is the vector the skipping reader finds for node i, or the read error, on every file |
| `SnapshotFile.SkippedExactly` | internal/index/hnsw/snapshot.go:260-269 | skipping a friend list lands where parsing it lands if and only if it has fewer than 2^30 entries |
| `SnapshotFile.RowsAreParsed` | internal/index/hnsw/snapshot.go:242-270 | the skipping reader stays aligned with the parser and finds its vectors, record after record, for friend lists under 2^30 entries |
| `SnapshotFile.LoadHNSWFromSnapshot` | internal/index/hnsw/snapshot.go:158-298 | on every file the load gives the nodes of the first pass with the vectors of the second, the first error, or the panic of a level below -1 |
| `SnapshotFile.TwoPassIsParse` | internal/index/hnsw/snapshot.go:158-298 | the two passes give what a one-pass parser gives, errors included, whenever the parsed friend lists are under 2^30 entries |
| `SnapshotFile.SaveAndLoad` | internal/index/hnsw/snapshot.go:48-298 | saving and loading always succeeds and restores the graph but for deletions and the id map, which is rebuilt; with one-to-one ids the graph is restored exactly if and only if it had no deletions |
| `HnswSnapshot.ValidIsSavable` | internal/index/hnsw/snapshot.go:48-99 | every index that satisfies the HNSW invariant and fits the field widths meets all conditions of saving |
| `HnswSnapshot.SnapshotExactly` | internal/index/hnsw/snapshot.go:48-298 | such an index survives saving and loading unchanged if and only if it had no deletions |
| `S3Wal.S3WAL.Open` | internal/storage/s3wal.go:114-139 | a reload after any crash takes over the stored manifest, or an empty one when there is none, re-establishes the log invariant, and fails only on a store fault |
| `S3Wal.S3WAL.Append` | internal/storage/s3wal.go:143-199 | the records of an acknowledged batch are numbered on from the head and carry the payloads of the caller in order; log, store and manifest after every outcome are stated exactly, a failure is that of a faulty store operation, and every fault or crash in between keeps the invariant |
| `S3Wal.S3WAL.AdvanceCursor` | internal/storage/s3wal.go:238-265 | drops exactly the fragments below the cursor; a failure is that of a faulty store operation, and a fault or crash between any two deletes or the manifest write keeps the invariant |
| `S3Wal.S3WAL.WriteManifest` | internal/storage/s3wal.go:293-307 | the stored manifest follows the one in memory whatever the outcome of the write |
| `S3Wal.S3WAL.Crash` | internal/storage/s3wal.go:91-111 | losing the memory at any point keeps the invariant of the store |
| `S3Wal.S3WAL.ReadSince` | internal/storage/s3wal.go:203-234 | the fragment list is copied once and any appends and cursor moves of others run before every fetch; if no cursor beyond the read position was requested by the end, the read returns exactly the records up to the head at the copy, in order, acknowledged ones with their acknowledged contents, and fails only if the process is down or the fetch it failed on was a store fault |
| `S3Wal.S3WAL.Fetch` | internal/storage/s3wal.go:211-231 | one fetch gives what was read before and the records of its object after the position, or fails exactly when the store does or the object is gone; a complete read stays complete, whatever happened since the copy |
| `S3Wal.S3WAL.Interleave` | internal/storage/s3wal.go:143-265 | any appends and cursor moves keep the log invariant and what a reader with an older copy still needs |
| `S3Wal.S3WAL.AcknowledgedIsRead` | internal/storage/s3wal.go:143-234 | every acknowledged record above the read position is in a complete read, with its contents |
| `S3Wal.DeleteSound` | internal/storage/s3wal.go:249-262 | deleting a fragment below every requested cursor leaves all needed ones backed |
| `S3Wal.AppendedSound` | internal/storage/s3wal.go:174-189 | extending the manifest over a stored fragment keeps the chain gap-free and backed |
| `HashRing.AddedCanonical` | internal/cluster/hash.go:49-71 | adding a node to a canonical ring without collisions gives the canonical ring of the larger membership |
| `HashRing.RemovedCanonical` | internal/cluster/hash.go:74-93 | removing a node gives the canonical ring of the smaller membership and does not panic |
| `HashRing.CapacityNotNegative` | internal/cluster/hash.go:84-90 | without collisions the slice capacity computed by a removal is not negative |
| `HashRing.NamesAreDistinct` | internal/cluster/hash.go:57-61 | the string hashed for a virtual node determines the node and the number, whatever they contain |
| `HashRing.CollisionsAreTheHash` | internal/cluster/hash.go:57-66 | positions collide if and only if the hash itself collides on two of these strings |
| `HashRing.RunIsCanonical` | internal/cluster/hash.go:49-93 | after every run of additions and removals the ring holds exactly the sorted positions of the current members |
| `HashRing.CanonicalUnique` | internal/cluster/hash.go:49-93 | a canonical ring is determined by its members |
| `Routing.RoutesToSuccessor` | internal/cluster/hash.go:97-118 | a key goes to the owner of the least position at or above its hash, with wraparound |
| `Routing.EqualMembershipsRouteAlike` | internal/cluster/hash.go:49-118 | runs that end with the same members end with the same ring and route every key alike |
| `Routing.RemovalStrikesOut` | internal/cluster/hash.go:74-151 | a removal strikes the node out of every preference list and changes nothing else |
| `Routing.ReplicasAfterRemoval` | internal/cluster/hash.go:122-151 | the first n replicas after a removal are the first n of the former n+1 with the node struck out |
| `Routing.OnlyItsKeysMove` | internal/cluster/hash.go:74-118 | only keys of the removed node move, each to its former first replica |
| `RingExactness.DeterminedExactly` | internal/cluster/hash.go:49-93 | the ring is a function of its membership if and only if no two virtual nodes in use share a position, except two of the empty node id |
| `RingCopies.RunIsTidy` | internal/cluster/hash.go:49-93 | with coinciding virtual nodes of the empty id every run still leaves each position once per virtual node of its one owner, and no call panics |
| `HashRing.SweptFilters` | internal/cluster/hash.go:83-92 | the sweep that forgets owners as it goes is a filter by the original owners, if the node owns no position twice or is the empty id |
| `Cluster.Ring.AddNode` | internal/cluster/hash.go:49-71 | the mutated ring is the specified one |
| `Cluster.Ring.RemoveNode` | internal/cluster/hash.go:74-93 | the mutated ring is the specified one, or the call panics exactly when the capacity is negative |
| `Cluster.Ring.Search` | internal/cluster/hash.go:107-115 | binary search finds the number of positions below the hash |
| `Cluster.Ring.GetNode` | internal/cluster/hash.go:97-118 | returns the primary of the key, empty on an empty ring |
| `Cluster.Ring.GetNodes` | internal/cluster/hash.go:122-151 | returns the first n distinct owners of the clockwise walk |
| `Cluster.TriggerOnNodeRemoval` | internal/migration/trigger.go:18-96 | plans one move per collection whose primary died and that still has an owner, in order, and removes the node |
| `Cluster.PlansAreHandovers` | internal/migration/trigger.go:28-85 | without collisions the plans are exactly the handovers to former first replicas |
| `Selection.TopK` | internal/index/flat/heap.go:47-75 | the bounded heap returns k smallest of the input in ascending order, with multiplicities |
| `Selection.SelectionIsTopK` | internal/index/flat/heap.go:47-75 | selecting from one hit per id is an exact top-k |
| `Selection.TopKDistancesUnique` | internal/index/flat/heap.go:47-75 | the distances of an exact top-k are determined, ties or not |
| `Flat.FlatIndex.Insert` | internal/index/flat/flat.go:86-112 | adds exactly the vector, growing when full; refuses duplicates and wrong dimensions |
| `Flat.FlatIndex.Grow` | internal/index/flat/flat.go:116-131 | doubling the capacity changes nothing that is stored |
| `Flat.FlatIndex.Delete` | internal/index/flat/flat.go:209-235 | swap with last removes exactly the id |
| `Flat.FlatIndex.Search` | internal/index/flat/flat.go:136-204 | exact k nearest over the stored vectors |
| `PostingLists.RemoveFromList` | internal/index/ivf/ivf.go:332-342 | swap with last removes exactly the id from the posting list |
| `PostingLists.BuildPostings` | internal/index/ivf/ivf.go:494-506 | the new lists and cluster map are each other's inverse over exactly the given ids |
| `Ivf.MergeResults` | internal/index/ivf/ivf.go:250-287 | the k closest of the ids of both answers, first occurrence winning, for any overlap |
| `Ivf.MergedIsExact` | internal/index/ivf/ivf.go:250-287 | exact answers over tiers that agree on shared ids merge to the exact answer over both |
| `Ivf.NearestKCentroids` | internal/index/ivf/kmeans.go:288-308 | partial selection sort returns an exact top-k of the centroids |
| `Ivf.IVFIndex.Insert` | internal/index/ivf/ivf.go:126-145 | adds exactly the vector; tiers stay disjoint unless the id is held by an unfinished rebuild |
| `Ivf.IVFIndex.Delete` | internal/index/ivf/ivf.go:290-329 | removes exactly the id from the rows or else from the buffer, whether the tiers overlap or not; it takes effect if and only if no unfinished rebuild holds the id; lists, cluster map and rows stay one consistent map |
| `Ivf.IVFIndex.Search` | internal/index/ivf/ivf.go:148-247 | merges exact answers over the nprobe nearest clusters, or the default number of them when it is not positive, and the buffer in any state; exact over both when no id is in both; with no rebuild in flight and nprobe at least the cluster count, exactly the brute-force answer |
| `Ivf.IVFIndex.FullProbeIsBruteForce` | internal/index/ivf/ivf.go:148-247 | when all clusters are probed, an exact answer over the probed ones is exact over all vectors |
| `Ivf.IVFIndex.BeginRebuild` | internal/index/ivf/ivf.go:411-448 | copies every stored and buffered vector once, also while another rebuild is under way; the buffer starts afresh; nothing is lost unless another rebuild was under way |
| `Ivf.IVFIndex.FinishRebuild` | internal/index/ivf/ivf.go:494-575 | installs exactly the copied vectors, one list per centroid and each vector in the cluster it was assigned to; for the latest rebuild nothing is lost or duplicated with what was inserted meanwhile, an overtaken one puts its older copy in place; an id is in both tiers afterwards if and only if it was copied and buffered again |
| `Ivf.IVFIndex.OverlappingRebuilds` | internal/index/ivf/ivf.go:411-575 | of two overlapping rebuilds the swap that comes last wins and drops what the other one drained, in either order |
| `Ivf.IVFIndex.CancelRebuild` | internal/index/ivf/ivf.go:444-470 | a rebuild given up loses exactly the copied ids that are neither stored nor buffered: none if and only if there are none |
| `Ivf.IVFIndex.ReapplyDeletes` | internal/index/ivf/ivf.go:549-572 | the loop that should repeat deletes finds none of its ids, so it changes nothing |
| `ScatterGather.Dedupe` | internal/api/handlers_v2.go:544-553 | keeps the closest hit of each id and all ids |
| `ScatterGather.Merge` | internal/api/handlers_v2.go:539-559 | sorts, deduplicates and cuts at k |
| `ScatterGather.MergedIsTopK` | internal/api/handlers_v2.go:522-559 | exact shard answers with agreeing replicas merge to an exact global top-k for any overlap and arrival order |
| `ScatterGather.GatherAndMerge` | internal/api/handlers_v2.go:522-559 | the gathered and merged answer is the exact global top-k |
| `KMeans.MeanIsBest` | internal/index/ivf/kmeans.go:217-241 | the mean of a cluster minimises its cost over all points |
| `KMeans.MeansImprove` | internal/index/ivf/kmeans.go:217-241 | moving centroids to the means never raises the distortion |
| `KMeans.RepairImproves` | internal/index/ivf/kmeans.go:243-256 | reseeding an empty cluster at a vector and moving that vector there never raises the distortion |
| `KMeans.AssignImproves` | internal/index/ivf/kmeans.go:161-198 | reassigning every vector to a nearest centroid never raises the distortion |
| `KMeans.EachIndexOnce` | internal/index/ivf/kmeans.go:162-190 | the parallel chunks cover each vector exactly once |
| `KMeans.KMeans.NearestCentroid` | internal/index/ivf/kmeans.go:201-213 | the first of the nearest centroids |
| `KMeans.KMeans.AssignParallel` | internal/index/ivf/kmeans.go:161-198 | for any order of the workers every vector ends at a nearest centroid and the change count is the number of vectors whose cluster differs from before |
| `KMeans.KMeans.FindFarthestVector` | internal/index/ivf/kmeans.go:263-280 | the first of the vectors farthest from their centroids among those not used yet |
| `KMeans.KMeans.UpdateCentroids` | internal/index/ivf/kmeans.go:217-259 | every cluster moves to the mean of its members, every empty one in turn to the farthest vector not taken yet, which joins it; the distortion does not rise |
| `KMeans.MembersGetMean` | internal/index/ivf/kmeans.go:217-241 | after an update, repairs included, every cluster that had members sits at their mean |
| `KMeans.KMeans.Fit` | internal/index/ivf/kmeans.go:38-74 | rounds of assignment and update until nothing changes, little changes twice, or the limit of rounds; every round is such an assignment and such an update, and the distortion never rises; few vectors are represented exactly |
| `ProductQuantizer.Encode` | internal/quantize/product.go:166-196 | the first of the nearest codebook entries for every block, or an error |
| `ProductQuantizer.Decode` | internal/quantize/product.go:199-214 | the concatenation of the selected entries, or an error |
| `ProductQuantizer.BuildDistanceTable` | internal/quantize/product.go:219-235 | the table of block distances of the query |
| `ProductQuantizer.DistanceADC` | internal/quantize/product.go:240-246 | the sum of the looked-up entries |
| `ProductQuantizer.AdcIsExact` | internal/quantize/product.go:219-246 | the looked-up sum equals the squared distance from the query to the decoded vector |
| `ProductQuantizer.EncodeIsOptimal` | internal/quantize/product.go:166-196 | no other of the 256^M codes decodes closer to the vector |
| `ProductQuantizer.SearchDistanceIsExportDistance` | internal/index/ivf/ivf.go:183-207 | the distance of a residual search equals the distance to the vector that an export reconstructs |
| `IvfPq.IVFPQIndex.LookedUpIsExported` | internal/index/ivf/ivf.go:183-207 | for every id the distance looked up with the centroid of its cluster and its code row is the distance to the vector an export reconstructs for it |
| `IvfPq.IVFPQIndex.ScanList` | internal/index/ivf/ivf.go:183-207 | scanning a list gives every id of the cluster once, with the distance to its exported vector |
| `IvfPq.IVFPQIndex.SearchProbed` | internal/index/ivf/ivf.go:170-231 | the exact k nearest of the exported vectors of the probed clusters |
| `IvfPq.IVFPQIndex.ExportVectors` | internal/index/ivf/ivf.go:595-615 | reconstructs every stored id from its own cluster and code row, ids in any order |
| `IvfPq.IVFPQIndex.RemoveStored` | internal/index/ivf/ivf.go:290-329 | swap with last keeps code rows and row map aligned: exactly the id disappears from the export and every other one is exported as before |
| `IvfPq.IVFPQIndex.Install` | internal/index/ivf/ivf.go:472-547 | every id goes to its assigned cluster with a nearest encoding of its residual |
| `IvfPq.IVFPQIndex.ExportIsNearest` | internal/index/ivf/ivf.go:472-491 | no other codes would reconstruct an installed vector more closely |
| `ScalarQuantizer.ScalarQuantizer.Train` | internal/quantize/scalar.go:40-84 | learns the exact minimum and maximum of every dimension, or changes nothing on an error |
| `ScalarQuantizer.ScalarQuantizer.Encode` | internal/quantize/scalar.go:88-112 | the code of every dimension, or an error |
| `ScalarQuantizer.ScalarQuantizer.Decode` | internal/quantize/scalar.go:115-128 | the restored vector, or an error |
| `ScalarQuantizer.ScalarQuantizer.EncodeBatch` | internal/quantize/scalar.go:131-154 | row i of the batch is the encoding of vector i |
| `ScalarQuantizer.ScalarQuantizer.DistanceL2SQ` | internal/quantize/scalar.go:159-167 | the squared distance to the decoded vector |
| `ScalarQuantizer.ScalarQuantizer.EncodedIsClose` | internal/quantize/scalar.go:88-128 | a vector within the trained range is restored to half a scale step per dimension, exactly where constant |
| `ScalarQuantizer.ScalarQuantizer.EncodedIsNearest` | internal/quantize/scalar.go:88-128 | no other code decodes closer, for any vector |
| `ScalarQuantizer.ScalarQuantizer.CodesSurvive` | internal/quantize/scalar.go:88-128 | encoding a decoded code gives it back if and only if it is zero on constant dimensions |
| `BitmapIndex.KeysUnambiguous` | internal/index/bitmap_index.go:76-78 | composite keys are injective for NUL-free field names |
| `BitmapIndex.MetadataBitmapIndex.Set` | internal/index/bitmap_index.go:84-111 | sets exactly one bit and adds exactly one pair for a number; the index stays exact for NUL-free names set once |
| `BitmapIndex.MetadataBitmapIndex.Remove` | internal/index/bitmap_index.go:115-135 | clears exactly one bit and drops one occurrence of the pair of a number; the index stays exact when the value is the one the node carries |
| `BitmapIndex.MetadataBitmapIndex.ResolveNumericRange` | internal/index/bitmap_index.go:268-316 | the binary-searched slice of the sorted pairs names exactly the nodes with a pair in range; no bitmap exactly without pairs, a numeric threshold or a range operator |
| `BitmapIndex.MetadataBitmapIndex.ResolveFieldFilter` | internal/index/bitmap_index.go:212-265 | bit n is set exactly when the stored bitmaps and pairs give the condition node n, for every condition and any state of the index |
| `BitmapIndex.MetadataBitmapIndex.KeepsByMetadata` | internal/index/bitmap_index.go:212-316 | in an exact index these are the nodes whose metadata prints alike, or has a number in range |
| `BitmapIndex.MetadataBitmapIndex.KeepsIsMatch` | internal/metadata/filter.go:180-243 | they are the known nodes that match when index and evaluator see the values alike |
| `BitmapIndex.MetadataBitmapIndex.EqualityExactly` | internal/metadata/filter.go:246-271 | an equality or inequality agrees with the evaluator on all known nodes if and only if no two numbers compare otherwise than they print |
| `Filters.LexicographicIsOrder` | internal/metadata/filter.go:274-282 | values that are not both numbers compare by the first character in which their prints differ, a proper prefix first |
| `BitmapIndex.MetadataBitmapIndex.ResolveInner` | internal/index/bitmap_index.go:167-209 | intersection and union of bitmaps, for every filter and any state of the index; no bitmap exactly for unconstrained filters |
| `BitmapIndex.MetadataBitmapIndex.Resolve` | internal/index/bitmap_index.go:144-164 | bit n is set exactly when the compiled filter keeps node n; in an exact index exactly when the evaluator matches it, for filters whose OR lists are uniform; no result means the filter matches all; sorting changes no pair |
| `BitmapIndex.AdmittedMatches` | internal/metadata/filter.go:153-176 | a node the bitmap admits is matched by the evaluator, for every filter |
| `BitmapIndex.AdmitsIsMatch` | internal/metadata/filter.go:153-176 | with uniform ORs bitmap and evaluator agree on every node |
| `BitmapIndex.MixedOrIsNotExact` | internal/index/bitmap_index.go:186-207 | an OR with an empty and a failing branch: the evaluator accepts, the bitmap rejects |
| `FilterShapes.AgreeExactly` | internal/index/bitmap_index.go:167-209 | bitmap and evaluator agree under every truth assignment to the conditions of a filter if and only if each of its ORs has no empty branch beside a constrained one |
| `FilterShapes.ReadingsAgree` | internal/metadata/filter.go:153-176 | both readings of a filter over truth assignments are the evaluator and the bitmap when the assignment comes from metadata |
| `Admission.AdmissionController.AcquireLocked` | internal/storage/admission.go:63-79 | the locked section is the acquire step |
| `Admission.AdmissionController.CancelLocked` | internal/storage/admission.go:85-104 | leaving the queue and draining the channel is the cancel step |
| `Admission.AdmissionController.Receive` | internal/storage/admission.go:80-84 | receiving from the channel is the wake step |
| `Admission.AdmissionController.Release` | internal/storage/admission.go:111-127 | the release step: hand over to the first waiter or free the slot |
| `Admission.StepKeepsInv` | internal/storage/admission.go:63-127 | every step keeps slots, channels and queues consistent |
| `Admission.RunKeepsInv` | internal/storage/admission.go:63-127 | so does every interleaving |
| `Admission.SlotAccounting` | internal/storage/admission.go:63-127 | in every reachable state inFlight is holders plus handed-but-unreceived slots and at most the maximum |
| `Admission.NoSlotLeaks` | internal/storage/admission.go:63-127 | when nobody holds or waits, no count, token or queue entry is left |
| `Admission.GrantsAreFifo` | internal/storage/admission.go:111-119 | over every run slots are handed over in order of arrival |
| `Admission.OldestIsServed` | internal/storage/admission.go:111-119 | a release serves the longest waiting unserved channel |
| `Admission.BusyExactly` | internal/storage/admission.go:85-104 | waiters keep a full prefix after a step if and only if it does not cancel a handed slot over a non-empty queue |
| `Admission.NobodyBarges` | internal/storage/admission.go:63-127 | in runs without such cancellations a slot is free only when nobody is queued |
| `Admission.StrandedWaiter` | internal/storage/admission.go:85-104 | a run of five steps that leaves a waiter queued on an idle prefix |
| `CompactionStorage.Storage.ExecuteCompactionAction` | internal/storage/compact_action.go:96-125 | performs exactly the first operations up to the first one that fails or at which the machine stops; an operation on a missing file cannot fail |
| `CompactionStorage.Storage.RecoverCompactionActions` | internal/storage/compact_action.go:130-184 | with any failures and a stop anywhere, every action was carried out to some point and its file removed only after the last operation; it stops exactly when the machine does; without failures a finished recovery is the full one and an interrupted one leaves a crash state |
| `CompactionStorage.Storage.StartUntilDone` | internal/storage/compact_action.go:127-184 | any number of start-ups that stop anywhere, and any that also fail anywhere if the actions commute, followed by one that works equal one uninterrupted execution |
| `Compaction.SafeIsReplayable` | internal/storage/compact_action.go:93-125 | if no rename brings an earlier source back, re-executing after a crash at any point gives the uninterrupted result |
| `Compaction.ReplayableExactly` | internal/storage/compact_action.go:93-125 | for renames that lead one way the order condition is also necessary |
| `CompactionSamples.ReplayableOnSamples` | internal/storage/compact_action.go:93-125 | any action survives every crash on every disk if and only if it does on the finitely many disks that hold some of the files it names, each with its own content |
| `Compaction.LateArrivalIsLost` | internal/storage/compact_action.go:93-125 | two renames for which a replay moves a file on |
| `Compaction.SwapSurvives` | internal/storage/compact_action.go:93-125 | a circular pair of renames survives every crash although it violates the order condition |
| `Compaction.CrashIsForgotten` | internal/storage/compact_action.go:127-184 | a crash anywhere in the sequence of action files does not change what recovery yields |
| `Compaction.CrashesAreForgotten` | internal/storage/compact_action.go:127-184 | nor does any number of crashes |
| `Compaction.RecoveredIsSettled` | internal/storage/compact_action.go:154-181 | recovery leaves only unreadable action files and is idempotent |
| `CompactionFaults.TurnIsForgotten` | internal/storage/compact_action.go:154-181 | a start-up with any failures does not change where recovery ends up, for safe actions that commute, although failed ones are overtaken |
| `CompactionFaults.TolerantExactly` | internal/storage/compact_action.go:154-181 | two safe actions tolerate every failure from every disk if and only if they commute |
| `CompactionFaults.ApartCommute` | internal/storage/compact_action.go:93-125 | actions on different files commute |
| `CompactionFaults.OvertakenRenameFails` | internal/storage/compact_action.go:162-168 | two renames of one file for which a failure of the first changes the outcome |
| `PostingStore.WritePostings` | internal/index/spann/posting_store.go:171-219 | writes exactly the file of the lists, or fails exactly at a vector that is too short |
| `PostingStore.ReadHeader` | internal/index/spann/posting_store.go:90-116 | the directory of any file, or the size error |
| `PostingStore.GetPostings` | internal/index/spann/posting_store.go:120-155 | the records the directory points to, nothing for unknown centroids, the bounds error, or the slice panic of an offset or end that is negative or wraps as a signed 64-bit integer |
| `PostingStore.ReadBack` | internal/index/spann/posting_store.go:90-219 | reading a written file gives each centroid exactly its list and every other one nothing |
| `PostingStore.ReadBackCut` | internal/index/spann/posting_store.go:90-219 | the same for all lists the writer accepts, longer vectors cut to the dimension |
| `Spann.SPANNIndex.Insert` | internal/index/spann/spann.go:113-148 | refuses known ids and wrong dimensions, otherwise the live contents gain exactly the posting |
| `Spann.SPANNIndex.Delete` | internal/index/spann/spann.go:232-252 | removes exactly the id from the live contents |
| `Spann.Assign` | internal/index/spann/spann.go:333-352 | every vector lands in exactly one list, the one of the first of its nearest centroids, and the id map names it |
| `Spann.SPANNIndex.Rebuild` | internal/index/spann/spann.go:285-377 | keeps exactly the live contents for any centroids, as many as configured or as there are vectors, through the file and back, each vector at a nearest centroid, and empties buffer and deletions; without live vectors nothing changes |
| `Spann.SPANNIndex.ExportVectors` | internal/index/spann/spann.go:524-559 | every live vector exactly once |
| `SegmentCache.SegmentCache.Get` | internal/cache/segment_cache.go:57-66 | a hit is the most recently Put value and becomes the most recent entry |
| `SegmentCache.SegmentCache.Put` | internal/cache/segment_cache.go:72-124 | update, remember or admit; the seen list gains exactly the key and loses only the oldest one when full; entries and recency list stay in bijection with an exact byte count, seen and cached keys disjoint, the value is the latest; within the limit unless an update grows past it |
| `SegmentCache.SegmentCache.MakeRoom` | internal/cache/segment_cache.go:109-112 | evicts exactly the shortest least-recent suffix that makes room |
| `SegmentCache.SegmentCache.EvictLRU` | internal/cache/segment_cache.go:177-186 | drops exactly the least recent entry |
| `SegmentCache.SegmentCache.Remember` | internal/cache/segment_cache.go:86-98 | adds the key to the seen list, forgetting the oldest when full |
| `SegmentCache.SegmentCache.Remove` | internal/cache/segment_cache.go:127-140 | removes exactly the key from cache and seen filter |
| `SegmentCache.WithoutKeepsOrder` | internal/cache/segment_cache.go:57-66 | taking a key out of a list leaves the order of the others, hence of evictions, as it is |
| `SegmentCache.SegmentCache.Clear` | internal/cache/segment_cache.go:189-197 | empties everything |

## Left out

- HNSW `Rebuild`: it resets the nodes but keeps the vector slab, so rebuilt nodes read stale vectors; it is outside the graph invariant.
- Filtered HNSW searches, context cancellation inside a search, and the callback after a drain.
- HnswSearch.GraphAnswerExactly: that marks are harmful is stated for indexes without deletions, since a marked node may be deleted anyway.
- HnswSearch.SmallIsExact: in larger graphs pruning may cut nodes off, and a query then finds what SearchGraph says it reaches.
- BeamOrder.OneAnswer: among equally distant nodes the order of the heaps decides, which is stated as a choice.
- SnapshotFile.TwoPassIsParse: for a friend list of 2^30 entries or more the 32-bit product of its count wraps and the second pass may part from the first; what the load gives then is stated by LoadHNSWFromSnapshot only.
- SnapshotFile.SaveAndLoad: search and construction widths, the metric and the running background drain are not part of the model; a load sets them to fixed defaults.
- Snapshots with huge node or friend counts as allocation failures.
- Temporary files, fsync and atomic rename of snapshots.
- The conditional-PUT loop of the log and several writers: the ETag it needs is only assigned inside that loop, so it is never entered.
- Serialisation of log fragments and manifest to JSON, and the hexadecimal form of fragment keys.
- Ivf.IVFIndex.BeginRebuild: requires that no id is in both tiers; FinishRebuild says when one is, and a rebuild begun then would give it two rows.
- Flat, row-major float storage is modelled as one vector per row in the flat and IVF indexes and in k-means; block arithmetic is kept where product and scalar quantization use it.
- IvfPq.IVFPQIndex.Install: the quantizer is trained already; the dirty buffer and the locked phases of a rebuild are those of the plain IVF index and are not repeated.
- The `math.MaxFloat32` sentinels of minimum searches: with exact reals the first candidate starts the search; SPANN keeps its sentinel as a parameter.
- k-means++ seeding, training of product codebooks, float rounding, SIMD kernels and the `dot` metric.
- Cluster.TriggerOnNodeRemoval: the ring is locked for each of its calls only; the model runs the trigger with no other membership change in between. The logging of replicas that need re-replication has no effect and is not modelled.
- BitmapIndex.AdmitsIsMatch: conditions that occur twice or depend on each other can make a filter with a mixed OR exact on all metadata; which filters those are is a satisfiability question. With independent conditions FilterShapes.AgreeExactly is exact.
- Parsing of filters from JSON and their translation to SQL.
- Compaction.ReplayableExactly: the order condition is exact for renames that lead one way, use each source once and are not deleted again; for all other actions CompactionSamples.ReplayableOnSamples gives an exact test.
- CompactionFaults.TolerantExactly: necessity is stated for two actions; for longer lists commuting in pairs is sufficient.
- JSON parsing of action files, and errors while listing their directory.
- Spann.SPANNIndex.Rebuild: requires that counts fit the 32-bit fields of the format and the file length a signed 64-bit integer; I/O errors while rewriting the file are not modelled.
- SPANN search, which is an HNSW query over centroids followed by a scan.
- Observability counters and statistics of the admission controller and the cache.
- Collection manager, WAL replay across collections, garbage collection, HTTP and gRPC handlers, SDKs, SQLite metadata, authentication and rate limiting.
