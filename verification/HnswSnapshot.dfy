/** What the invariant of a live HNSW index means for its snapshots. */
module HnswSnapshot {
  import opened Common
  import opened Wire
  import opened Snapshot
  import opened SnapshotFile
  import Hnsw
  import HnswGraph

  /** A 32-bit float pattern. */
  type Pattern = x: nat | x < U32

  const NODE_LIMIT: nat := 0x8000_0000
  const DEGREE_LIMIT: nat := 0x1000_0000

  /** The parts of an index that a snapshot covers; bits gives the 32-bit pattern of a component. */
  ghost function IndexOf(h: Hnsw.HNSWIndex, bits: real -> Pattern): Index
    reads h
  {
    Index(h.dim, h.m, h.maxLevel, h.entryPoint,
          seq(|h.nodes|, i requires 0 <= i < |h.nodes| reads h =>
              Node(h.nodes[i].id, h.nodes[i].level, h.nodes[i].friends)),
          h.idToNode, h.deleted,
          seq(|h.vectorSlab|, i requires 0 <= i < |h.vectorSlab| reads h => bits(h.vectorSlab[i])), h.vectorOffsets)
  }

  /** Ids, levels and counts fit the widths of the format. */
  ghost predicate Representable(h: Hnsw.HNSWIndex)
    reads h
  {
    && h.dim < U32 && h.m < DEGREE_LIMIT && |h.nodes| < NODE_LIMIT
    && forall i :: 0 <= i < |h.nodes| ==> h.nodes[i].id < U64 && h.nodes[i].level < NODE_LIMIT
  }

  lemma {:induction false} IndexIsOk(h: Hnsw.HNSWIndex, bits: real -> Pattern)
    requires h.VectorsOk()
    ensures IndexOk(IndexOf(h, bits))
  {
  }

  /** The id invariant of the index is that of its graph. */
  lemma {:induction false} IdsCarryOver(h: Hnsw.HNSWIndex, bits: real -> Pattern)
    requires h.VectorsOk() && h.IdsOk() && IndexOk(IndexOf(h, bits))
    ensures GraphIdsOk(GraphOf(IndexOf(h, bits)))
  {
    var g := GraphOf(IndexOf(h, bits));
    assert |g.nodes| == |h.nodes| && forall i :: 0 <= i < |h.nodes| ==> g.nodes[i].id == h.nodes[i].id;
  }

  lemma {:induction false} NodeFits(h: Hnsw.HNSWIndex, bits: real -> Pattern, i: nat)
    requires h.VectorsOk() && HnswGraph.GraphOk(h.nodes, h.m) && Representable(h) && IndexOk(IndexOf(h, bits))
    requires i < |h.nodes|
    ensures NodeOk(RecordOf(IndexOf(h, bits), i), h.dim) && SmallLists(h.nodes[i].friends)
  {
    assert HnswGraph.NodeOk(h.nodes, h.m, i);
    var n := RecordOf(IndexOf(h, bits), i);
    var off := h.vectorOffsets[i];
    forall d | 0 <= d < |n.vector| ensures n.vector[d] < U32 {
      assert n.vector[d] == bits(h.vectorSlab[off + d]);
    }
    forall lc | 0 <= lc < |n.friends| ensures Snapshot.ListOk(n.friends[lc]) && 4 * |n.friends[lc]| < U32 {
      ListFits(h, i, lc);
    }
  }

  lemma {:induction false} ListFits(h: Hnsw.HNSWIndex, i: nat, lc: nat)
    requires i < |h.nodes| < NODE_LIMIT && h.m < DEGREE_LIMIT && HnswGraph.NodeOk(h.nodes, h.m, i)
    requires lc < |h.nodes[i].friends|
    ensures Snapshot.ListOk(h.nodes[i].friends[lc]) && 4 * |h.nodes[i].friends[lc]| < U32
  {
    assert HnswGraph.ListOk(h.nodes, h.m, i, lc, h.nodes[i].friends[lc]);
  }

  /** A valid index saves to a graph of the format. */
  lemma {:induction false} ValidIsSavable(h: Hnsw.HNSWIndex, bits: real -> Pattern)
    requires h.Valid() && Representable(h)
    ensures IndexOk(IndexOf(h, bits))
    ensures GraphOk(GraphOf(IndexOf(h, bits))) && AllSmall(GraphOf(IndexOf(h, bits)))
    ensures GraphIdsOk(GraphOf(IndexOf(h, bits)))
  {
    IndexIsOk(h, bits);
    IdsCarryOver(h, bits);
    var ix := IndexOf(h, bits);
    var g := GraphOf(ix);
    hide Snapshot.NodeOk, SmallLists, HnswGraph.GraphOk, IndexOk, RecordOf, GraphIdsOk;
    forall i: nat | i < |g.nodes| ensures Snapshot.NodeOk(g.nodes[i], g.dim) && SmallLists(g.nodes[i].friends) {
      NodeFits(h, bits, i);
      FriendsOfRecord(ix, i);
    }
  }

  lemma {:induction false} FriendsOfRecord(ix: Index, i: nat)
    requires IndexOk(ix) && i < |ix.nodes|
    ensures RecordOf(ix, i).friends == ix.nodes[i].friends
  {
  }

  /** Saving and loading a valid index gives its graph back if and only if nothing was deleted. */
  lemma {:induction false} SnapshotExactly(h: Hnsw.HNSWIndex, bits: real -> Pattern, seqID: nat,
                                           sha: seq<byte> -> Digest)
    requires h.Valid() && Representable(h) && seqID < U64
    ensures IndexOk(IndexOf(h, bits))
    ensures var g := GraphOf(IndexOf(h, bits)); Parse(Print(g, seqID, sha), sha) == Loaded(g, seqID) <==>
              h.deleted == {}
  {
    ValidIsSavable(h, bits);
    hide Print, Parse, GraphOk, GraphIdsOk, Hnsw.HNSWIndex.Valid, Representable;
    RoundTripExactly(GraphOf(IndexOf(h, bits)), seqID, sha);
  }
}
