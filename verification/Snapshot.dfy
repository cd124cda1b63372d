/**
 The binary HNSW snapshot: a 78-byte header and, per node, its id, level, vector and
 friend lists of varying length. Loading parses the data section twice, once for the
 nodes and once, skipping over everything else, for the vectors. Vector components are
 the 32-bit patterns of the floats.
 */
module Snapshot {
  import opened Wire

  datatype NodeRecord = NodeRecord(id: nat, level: int, vector: seq<nat>, friends: seq<seq<int>>)

  datatype Graph = Graph(dim: nat, m: nat, maxLevel: int, entryPoint: int, nodes: seq<NodeRecord>,
                         idToNode: map<nat, nat>, deleted: set<nat>)

  datatype Header = Header(magic: seq<byte>, version: nat, dim: nat, m: nat, nodeCount: nat, maxLevel: int,
                           entryPoint: int, seqID: nat, endianness: nat, checksum: seq<byte>)

  datatype Result = Loaded(graph: Graph, seqID: nat) | Failed(error: LoadError)

  type Digest = s: seq<byte> | |s| == 32 witness seq(32, i => 0)

  const MAGIC: seq<byte> := [0x48, 0x53, 0x4E, 0x50]
  const VERSION: nat := 2
  const LITTLE: nat := 1
  const HEADER_SIZE: nat := 78

  // ---------------------------------------------------------------- the format

  function PrintList(friends: seq<int>): seq<byte> {
    Le(|friends|, 4) + PrintMany(friends, PrintI32)
  }

  function PrintNode(n: NodeRecord): seq<byte> {
    Le(n.id, 8) + (PrintI32(n.level) + (PrintMany(n.vector, PrintU32) + PrintMany(n.friends, PrintList)))
  }

  function PrintHeader(h: Header): seq<byte> {
    h.magic + (Le(h.version, 4) + (Le(h.dim, 4) + (Le(h.m, 4) + (Le(h.nodeCount, 8) + (PrintI32(h.maxLevel)
    + (Le(Unsigned(h.entryPoint, U64), 8) + (Le(h.seqID, 8) + (Le(h.endianness, 2) + h.checksum))))))))
  }

  function HeaderOf(g: Graph, seqID: nat, checksum: seq<byte>): Header {
    Header(MAGIC, VERSION, g.dim, g.m, |g.nodes|, g.maxLevel, g.entryPoint, seqID, LITTLE, checksum)
  }

  /** The file a snapshot of the graph consists of. */
  function Print(g: Graph, seqID: nat, sha: seq<byte> -> Digest): seq<byte> {
    var data := PrintMany(g.nodes, PrintNode);
    PrintHeader(HeaderOf(g, seqID, sha(data))) + data
  }

  function ParseList(s: seq<byte>): Parsed<seq<int>> {
    match ParseWord(s, 4)
    case Malformed(e) => Malformed(e)
    case Parsed(count, rest) => ParseMany(rest, count, ParseI32)
  }

  function ParseNode(s: seq<byte>, dim: nat): Parsed<NodeRecord> {
    match ParseWord(s, 8)
    case Malformed(e) => Malformed(e)
    case Parsed(id, s1) =>
      match ParseI32(s1)
      case Malformed(e) => Malformed(e)
      case Parsed(level, s2) =>
        match ParseMany(s2, dim, ParseU32)
        case Malformed(e) => Malformed(e)
        case Parsed(vector, s3) =>
          if level < -1 then Malformed(NegativeLevel)
          else
            match ParseMany(s3, level + 1, ParseList)
            case Malformed(e) => Malformed(e)
            case Parsed(friends, s4) => Parsed(NodeRecord(id, level, vector, friends), s4)
  }

  function NodeParser(dim: nat): seq<byte> -> Parsed<NodeRecord> {
    s => ParseNode(s, dim)
  }

  function ParseHeader(s: seq<byte>): Header
    requires |s| == HEADER_SIZE
  {
    Header(s[..4], FromLe(s[4..8]), FromLe(s[8..12]), FromLe(s[12..16]), FromLe(s[16..24]),
           Signed(FromLe(s[24..28]), U32), Signed(FromLe(s[28..36]), U64),
           FromLe(s[36..44]), FromLe(s[44..46]), s[46..78])
  }

  /** Each id with the index of the last node that carries it. */
  function IdMap(nodes: seq<NodeRecord>): map<nat, nat> {
    if nodes == [] then map[] else IdMap(nodes[..|nodes| - 1])[nodes[|nodes| - 1].id := |nodes| - 1]
  }

  /** One pass over the file, vectors included. */
  function Parse(raw: seq<byte>, sha: seq<byte> -> Digest): Result {
    if |raw| < HEADER_SIZE then Failed(TooSmall)
    else
      var h, data := ParseHeader(raw[..HEADER_SIZE]), raw[HEADER_SIZE..];
      if h.magic != MAGIC then Failed(BadMagic)
      else if h.version != VERSION then Failed(BadVersion)
      else if h.endianness != LITTLE then Failed(BadEndianness)
      else if sha(data) != h.checksum then Failed(BadChecksum)
      else
        match ParseMany(data, h.nodeCount, NodeParser(h.dim))
        case Malformed(e) => Failed(e)
        case Parsed(nodes, _) =>
          Loaded(Graph(h.dim, h.m, h.maxLevel, h.entryPoint, nodes, IdMap(nodes), {}), h.seqID)
  }

  // ---------------------------------------------------------------- round trip

  ghost predicate NodeOk(n: NodeRecord, dim: nat) {
    && n.id < U64 && -1 <= n.level && Fits(n.level, U32) && |n.vector| == dim && |n.friends| == n.level + 1
    && (forall w :: w in n.vector ==> w < U32)
    && forall f :: f in n.friends ==> ListOk(f)
  }

  ghost predicate ListOk(friends: seq<int>) {
    |friends| < U32 && forall f :: f in friends ==> Fits(f, U32)
  }

  ghost predicate GraphOk(g: Graph) {
    && g.dim < U32 && g.m < U32 && |g.nodes| < U64 && Fits(g.maxLevel, U32) && Fits(g.entryPoint, U64)
    && forall n :: n in g.nodes ==> NodeOk(n, g.dim)
  }

  lemma {:induction false} ListInverts(friends: seq<int>)
    requires ListOk(friends)
    ensures Inverts(ParseList, PrintList, friends)
  {
    forall tail: seq<byte> ensures ParseList(PrintList(friends) + tail) == Parsed(friends, tail) {
      var body := PrintMany(friends, PrintI32) + tail;
      assert PrintList(friends) + tail == Le(|friends|, 4) + body;
      Ranges();
      WordRoundTrip(|friends|, 4, body);
      forall f | f in friends ensures Inverts(ParseI32, PrintI32, f) {
        I32Inverts(f);
      }
      ManyRoundTrip(friends, PrintI32, ParseI32, tail);
    }
  }

  lemma {:induction false} VectorRoundTrip(vector: seq<nat>, tail: seq<byte>)
    requires forall w :: w in vector ==> w < U32
    ensures ParseMany(PrintMany(vector, PrintU32) + tail, |vector|, ParseU32) == Parsed(vector, tail)
  {
    forall w | w in vector ensures Inverts(ParseU32, PrintU32, w) {
      U32Inverts(w);
    }
    ManyRoundTrip(vector, PrintU32, ParseU32, tail);
  }

  lemma {:induction false} ListsRoundTrip(friends: seq<seq<int>>, tail: seq<byte>)
    requires forall f :: f in friends ==> ListOk(f)
    ensures ParseMany(PrintMany(friends, PrintList) + tail, |friends|, ParseList) == Parsed(friends, tail)
  {
    hide ListOk;
    forall f | f in friends ensures Inverts(ParseList, PrintList, f) {
      ListInverts(f);
    }
    ManyRoundTrip(friends, PrintList, ParseList, tail);
  }

  lemma {:induction false} NodeRoundTrip(n: NodeRecord, dim: nat, tail: seq<byte>)
    requires NodeOk(n, dim)
    ensures ParseNode(PrintNode(n) + tail, dim) == Parsed(n, tail)
  {
    hide PrintMany, ParseMany, ParseList, PrintList, ListOk, Le, FromLe;
    var s3 := PrintMany(n.friends, PrintList) + tail;
    var s2 := PrintMany(n.vector, PrintU32) + s3;
    var s1 := PrintI32(n.level) + s2;
    assert PrintNode(n) + tail == Le(n.id, 8) + s1;
    Ranges();
    WordRoundTrip(n.id, 8, s1);
    I32Inverts(n.level);
    assert ParseI32(s1) == Parsed(n.level, s2);
    VectorRoundTrip(n.vector, s3);
    ListsRoundTrip(n.friends, tail);
  }

  lemma {:induction false} NodeInverts(n: NodeRecord, dim: nat)
    requires NodeOk(n, dim)
    ensures Inverts(NodeParser(dim), PrintNode, n)
  {
    forall tail: seq<byte> ensures NodeParser(dim)(PrintNode(n) + tail) == Parsed(n, tail) {
      NodeRoundTrip(n, dim, tail);
    }
  }

  lemma {:induction false} HeaderRoundTrip(h: Header)
    requires |h.magic| == 4 && |h.checksum| == 32
    requires h.version < U32 && h.dim < U32 && h.m < U32 && h.nodeCount < U64 && h.seqID < U64 && h.endianness < U16
    requires Fits(h.maxLevel, U32) && Fits(h.entryPoint, U64)
    ensures |PrintHeader(h)| == HEADER_SIZE && ParseHeader(PrintHeader(h)) == h
  {
    hide Le, FromLe;
    var s := PrintHeader(h);
    var l, e := Unsigned(h.maxLevel, U32), Unsigned(h.entryPoint, U64);
    Ranges();
    SignedRoundTrip(h.maxLevel, U32);
    SignedRoundTrip(h.entryPoint, U64);
    LeRoundTrip(h.version, 4);
    LeRoundTrip(h.dim, 4);
    LeRoundTrip(h.m, 4);
    LeRoundTrip(h.nodeCount, 8);
    LeRoundTrip(l, 4);
    LeRoundTrip(e, 8);
    LeRoundTrip(h.seqID, 8);
    LeRoundTrip(h.endianness, 2);
    assert s[..4] == h.magic;
    assert s[4..8] == Le(h.version, 4);
    assert s[8..12] == Le(h.dim, 4);
    assert s[12..16] == Le(h.m, 4);
    assert s[16..24] == Le(h.nodeCount, 8);
    assert s[24..28] == Le(l, 4);
    assert s[28..36] == Le(e, 8);
    assert s[36..44] == Le(h.seqID, 8);
    assert s[44..46] == Le(h.endianness, 2);
    assert s[46..78] == h.checksum;
  }

  /** What a load makes of a saved graph: everything but the id map and the deletions comes from the file. */
  lemma {:induction false} PrintedIsParsed(g: Graph, seqID: nat, sha: seq<byte> -> Digest)
    requires GraphOk(g) && seqID < U64
    ensures Parse(Print(g, seqID, sha), sha) == Loaded(g.(idToNode := IdMap(g.nodes), deleted := {}), seqID)
  {
    hide PrintMany, ParseMany, PrintHeader, ParseHeader, IdMap, NodeParser;
    var data := PrintMany(g.nodes, PrintNode);
    var h := HeaderOf(g, seqID, sha(data));
    HeaderRoundTrip(h);
    var raw := Print(g, seqID, sha);
    assert raw[..HEADER_SIZE] == PrintHeader(h) && raw[HEADER_SIZE..] == data;
    forall n | n in g.nodes ensures Inverts(NodeParser(g.dim), PrintNode, n) {
      NodeInverts(n, g.dim);
    }
    ManyRoundTrip(g.nodes, PrintNode, NodeParser(g.dim), []);
    assert data + [] == data;
  }

  /** With distinct ids the rebuilt id map is the inverse of the node list. */
  lemma {:induction false} IdMapInverts(nodes: seq<NodeRecord>)
    requires forall i, j :: 0 <= i < j < |nodes| ==> nodes[i].id != nodes[j].id
    ensures forall i :: 0 <= i < |nodes| ==> nodes[i].id in IdMap(nodes) && IdMap(nodes)[nodes[i].id] == i
    ensures forall id :: id in IdMap(nodes) ==> IdMap(nodes)[id] < |nodes| && nodes[IdMap(nodes)[id]].id == id
  {
    if nodes != [] {
      IdMapInverts(nodes[..|nodes| - 1]);
    }
  }

  /** Known ids name nodes that carry them, and every live node is the one its id names. */
  ghost predicate GraphIdsOk(g: Graph) {
    && (forall id :: id in g.idToNode ==> g.idToNode[id] < |g.nodes| && g.nodes[g.idToNode[id]].id == id)
    && (forall i :: 0 <= i < |g.nodes| && i !in g.deleted ==>
        g.nodes[i].id in g.idToNode && g.idToNode[g.nodes[i].id] == i)
    && forall i :: i in g.deleted ==> i < |g.nodes|
  }

  /** Without deletions the id invariant leaves one possible id map. */
  lemma {:induction false} IdMapDetermined(g: Graph)
    requires GraphIdsOk(g) && g.deleted == {}
    ensures g.idToNode == IdMap(g.nodes)
  {
    forall i, j | 0 <= i < j < |g.nodes| ensures g.nodes[i].id != g.nodes[j].id {
      assert g.idToNode[g.nodes[i].id] == i && g.idToNode[g.nodes[j].id] == j;
    }
    IdMapInverts(g.nodes);
    hide IdMap;
    forall id ensures id in g.idToNode <==> id in IdMap(g.nodes) {
      if id in IdMap(g.nodes) {
        assert g.nodes[IdMap(g.nodes)[id]].id == id;
      }
      if id in g.idToNode {
        assert g.nodes[g.idToNode[id]].id == id;
      }
    }
  }

  /** Loading a snapshot gives back the graph exactly when it had no deletions to forget. */
  lemma {:induction false} RoundTripExactly(g: Graph, seqID: nat, sha: seq<byte> -> Digest)
    requires GraphOk(g) && GraphIdsOk(g) && seqID < U64
    ensures Parse(Print(g, seqID, sha), sha) == Loaded(g, seqID) <==> g.deleted == {}
  {
    hide Print, Parse, IdMap, GraphOk;
    PrintedIsParsed(g, seqID, sha);
    if g.deleted == {} {
      IdMapDetermined(g);
    }
  }
}
