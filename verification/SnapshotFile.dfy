/** Saving and loading a snapshot as the index does it: an append buffer and two readers. */
module SnapshotFile {
  import opened Wire
  import opened Snapshot

  datatype Node = Node(id: nat, level: int, friends: seq<seq<int>>)

  /** The parts of an index that a snapshot covers; vectors lie in one slab. */
  datatype Index = Index(dim: nat, m: nat, maxLevel: int, entryPoint: int, nodes: seq<Node>, idToNode: map<nat, nat>,
                         deleted: set<nat>, vectorSlab: seq<nat>, vectorOffsets: seq<nat>)

  ghost predicate SlabOk(dim: nat, slab: seq<nat>, offsets: seq<nat>) {
    forall i :: 0 <= i < |offsets| ==> offsets[i] + dim <= |slab|
  }

  ghost predicate IndexOk(ix: Index) {
    |ix.vectorOffsets| == |ix.nodes| && SlabOk(ix.dim, ix.vectorSlab, ix.vectorOffsets)
  }

  function NodeVector(ix: Index, i: nat): seq<nat>
    requires IndexOk(ix) && i < |ix.nodes|
  {
    ix.vectorSlab[ix.vectorOffsets[i]..ix.vectorOffsets[i] + ix.dim]
  }

  function RecordOf(ix: Index, i: nat): NodeRecord
    requires IndexOk(ix) && i < |ix.nodes|
  {
    NodeRecord(ix.nodes[i].id, ix.nodes[i].level, NodeVector(ix, i), ix.nodes[i].friends)
  }

  ghost function RecordsOf(ix: Index): seq<NodeRecord>
    requires IndexOk(ix)
  {
    seq(|ix.nodes|, i requires 0 <= i < |ix.nodes| => RecordOf(ix, i))
  }

  /** The graph an index stands for. */
  ghost function GraphOf(ix: Index): Graph
    requires IndexOk(ix)
  {
    Graph(ix.dim, ix.m, ix.maxLevel, ix.entryPoint, RecordsOf(ix), ix.idToNode, ix.deleted)
  }

  // ---------------------------------------------------------------- saving

  method AppendVector(buf: seq<byte>, v: seq<nat>) returns (out: seq<byte>)
    ensures out == buf + PrintMany(v, PrintU32)
  {
    out := buf;
    for j := 0 to |v|
      invariant out == buf + PrintMany(v[..j], PrintU32)
    {
      PrintManyGrows(v, PrintU32, j);
      out := out + Le(v[j], 4);
    }
    assert v[..|v|] == v;
  }

  method AppendFriends(buf: seq<byte>, friends: seq<int>) returns (out: seq<byte>)
    ensures out == buf + PrintList(friends)
  {
    var start := buf + Le(|friends|, 4);
    out := start;
    for j := 0 to |friends|
      invariant out == start + PrintMany(friends[..j], PrintI32)
    {
      PrintManyGrows(friends, PrintI32, j);
      out := out + Le(Unsigned(friends[j], U32), 4);
    }
    assert friends[..|friends|] == friends;
  }

  method AppendLists(buf: seq<byte>, friends: seq<seq<int>>) returns (out: seq<byte>)
    ensures out == buf + PrintMany(friends, PrintList)
  {
    hide PrintList;
    out := buf;
    for lc := 0 to |friends|
      invariant out == buf + PrintMany(friends[..lc], PrintList)
    {
      PrintManyGrows(friends, PrintList, lc);
      out := AppendFriends(out, friends[lc]);
    }
    assert friends[..|friends|] == friends;
  }

  method AppendNode(buf: seq<byte>, ix: Index, i: nat) returns (out: seq<byte>)
    requires IndexOk(ix) && i < |ix.nodes|
    ensures out == buf + PrintNode(RecordOf(ix, i))
  {
    hide Le, PrintMany;
    var n := ix.nodes[i];
    out := buf + Le(n.id, 8);
    out := out + Le(Unsigned(n.level, U32), 4);
    out := AppendVector(out, NodeVector(ix, i));
    out := AppendLists(out, n.friends);
  }

  method SnapshotToFile(ix: Index, seqID: nat, sha: seq<byte> -> Digest) returns (raw: seq<byte>)
    requires IndexOk(ix)
    ensures raw == Print(GraphOf(ix), seqID, sha)
  {
    ghost var records := RecordsOf(ix);
    var data: seq<byte> := [];
    for i := 0 to |ix.nodes|
      invariant data == PrintMany(records[..i], PrintNode)
    {
      hide PrintNode;
      PrintManyGrows(records, PrintNode, i);
      data := AppendNode(data, ix, i);
    }
    assert records[..|ix.nodes|] == records;
    var h := Header(MAGIC, VERSION, ix.dim, ix.m, |ix.nodes|, ix.maxLevel, ix.entryPoint, seqID, LITTLE, sha(data));
    raw := PrintHeader(h) + data;
  }

  // ---------------------------------------------------------------- loading

  datatype Got<+T> = Got(value: T) | Lost(error: LoadError)

  /** What a reader returned and where it stands agree with the parser. */
  ghost predicate Agrees<T(!new)>(p: Parsed<T>, g: Got<T>, rest: seq<byte>) {
    match p
    case Malformed(e) => g == Lost(e)
    case Parsed(v, r) => g == Got(v) && rest == r
  }

  /** Seeking past the end leaves nothing to read. */
  function Dropped(s: seq<byte>, n: nat): seq<byte> {
    if n <= |s| then s[n..] else []
  }

  class Reader {
    const data: seq<byte>
    var pos: nat

    constructor (data: seq<byte>)
      ensures this.data == data && Rest() == data
    {
      this.data := data;
      pos := 0;
    }

    /** What is left to read; seeking past the end leaves nothing. */
    ghost function Rest(): seq<byte>
      reads this
    {
      if pos <= |data| then data[pos..] else []
    }

    method Word(k: nat) returns (g: Got<nat>)
      requires k > 0
      modifies this
      ensures Agrees(ParseWord(old(Rest()), k), g, Rest())
    {
      if pos + k > |data| {
        return Lost(Truncated);
      }
      assert data[pos..][..k] == data[pos..pos + k] && data[pos..][k..] == data[pos + k..];
      g := Got(FromLe(data[pos..pos + k]));
      pos := pos + k;
    }

    method Seek(n: nat)
      modifies this
      ensures Rest() == Dropped(old(Rest()), n)
    {
      pos := pos + n;
    }

    method Vector(dim: nat) returns (g: Got<seq<nat>>)
      modifies this
      ensures Agrees(ParseMany(old(Rest()), dim, ParseU32), g, Rest())
    {
      ghost var s := Rest();
      var v := [];
      ContinuesStart(s, dim, ParseU32);
      while |v| < dim
        invariant Continues(s, dim, ParseU32, v, Rest())
        decreases dim - |v|
      {
        hide Continues, ParseMany, ParseWord;
        ContinuesStep(s, dim, ParseU32, v, Rest());
        var w := Word(4);
        if w.Lost? { return Lost(w.error); }
        v := v + [w.value];
      }
      ContinuesEnd(s, dim, ParseU32, v, Rest());
      g := Got(v);
    }

    method Friends() returns (g: Got<seq<int>>)
      modifies this
      ensures Agrees(ParseList(old(Rest())), g, Rest())
    {
      var count := Word(4);
      if count.Lost? { return Lost(count.error); }
      ghost var s := Rest();
      var fs := [];
      ContinuesStart(s, count.value, ParseI32);
      while |fs| < count.value
        invariant Continues(s, count.value, ParseI32, fs, Rest())
        decreases count.value - |fs|
      {
        hide Continues, ParseMany, ParseWord;
        ContinuesStep(s, count.value, ParseI32, fs, Rest());
        var w := Word(4);
        if w.Lost? { return Lost(w.error); }
        fs := fs + [Signed(w.value, U32)];
      }
      ContinuesEnd(s, count.value, ParseI32, fs, Rest());
      g := Got(fs);
    }

    method Lists(n: nat) returns (g: Got<seq<seq<int>>>)
      modifies this
      ensures Agrees(ParseMany(old(Rest()), n, ParseList), g, Rest())
    {
      ghost var s := Rest();
      var lists := [];
      ContinuesStart(s, n, ParseList);
      while |lists| < n
        invariant Continues(s, n, ParseList, lists, Rest())
        decreases n - |lists|
      {
        hide Continues, ParseMany, ParseList;
        ContinuesStep(s, n, ParseList, lists, Rest());
        var l := Friends();
        if l.Lost? { return Lost(l.error); }
        lists := lists + [l.value];
      }
      ContinuesEnd(s, n, ParseList, lists, Rest());
      g := Got(lists);
    }

    method Record(dim: nat) returns (g: Got<NodeRecord>)
      modifies this
      ensures Agrees(ParseNode(old(Rest()), dim), g, Rest())
    {
      hide ParseMany, ParseList;
      var id := Word(8);
      if id.Lost? { return Lost(id.error); }
      var w := Word(4);
      if w.Lost? { return Lost(w.error); }
      var level := Signed(w.value, U32);
      var v := Vector(dim);
      if v.Lost? { return Lost(v.error); }
      if level < -1 { return Lost(NegativeLevel); }
      var lists := Lists(level + 1);
      if lists.Lost? { return Lost(lists.error); }
      g := Got(NodeRecord(id.value, level, v.value, lists.value));
    }
  }

  function Stripped(n: NodeRecord): Node {
    Node(n.id, n.level, n.friends)
  }

  ghost function AllStripped(records: seq<NodeRecord>): seq<Node> {
    seq(|records|, i requires 0 <= i < |records| => Stripped(records[i]))
  }

  /** The first pass: nodes and id map. */
  method ReadNodes(r: Reader, dim: nat, count: nat) returns (g: Got<seq<Node>>, ids: map<nat, nat>)
    modifies r
    ensures match ParseMany(old(r.Rest()), count, NodeParser(dim))
            case Malformed(e) => g == Lost(e)
            case Parsed(records, _) => g == Got(AllStripped(records)) && ids == IdMap(records)
  {
    ghost var s, p := r.Rest(), NodeParser(dim);
    ghost var records: seq<NodeRecord> := [];
    var nodes: seq<Node> := [];
    ids := map[];
    ContinuesStart(s, count, p);
    while |nodes| < count
      invariant nodes == AllStripped(records) && ids == IdMap(records)
      invariant Continues(s, count, p, records, r.Rest())
      decreases count - |nodes|
    {
      hide Continues, ParseMany, ParseNode, IdMap;
      ContinuesStep(s, count, p, records, r.Rest());
      var n := r.Record(dim);
      if n.Lost? { return Lost(n.error), ids; }
      ids := ids[n.value.id := |nodes|];
      nodes := nodes + [Stripped(n.value)];
      IdMapGrows(records, n.value);
      records := records + [n.value];
    }
    ContinuesEnd(s, count, p, records, r.Rest());
    g := Got(nodes);
  }

  lemma {:induction false} IdMapGrows(records: seq<NodeRecord>, n: NodeRecord)
    ensures IdMap(records + [n]) == IdMap(records)[n.id := |records|]
  {
    assert (records + [n])[..|records|] == records;
  }

  // ---------------------------------------------------------------- the second pass

  /** Skips one friend list by its count; the byte length is a 32-bit product. */
  function SkipList(s: seq<byte>): Parsed<()> {
    match ParseWord(s, 4)
    case Malformed(e) => Malformed(e)
    case Parsed(count, rest) => Parsed((), Dropped(rest, count * 4 % U32))
  }

  function Layers(level: int): nat {
    if level < 0 then 0 else level + 1
  }

  /** The row of one node: id and level skipped, vector read, friend lists skipped. */
  function ParseRow(s: seq<byte>, dim: nat, level: int): Parsed<seq<nat>> {
    match ParseMany(Dropped(s, 12), dim, ParseU32)
    case Malformed(e) => Malformed(e)
    case Parsed(v, s1) =>
      match ParseMany(s1, Layers(level), SkipList)
      case Malformed(e) => Malformed(e)
      case Parsed(_, s2) => Parsed(v, s2)
  }

  /** The rows of all nodes, given the levels the first pass found. */
  function ParseRows(s: seq<byte>, dim: nat, levels: seq<int>): (r: Parsed<seq<seq<nat>>>)
    ensures r.Parsed? ==> |r.value| == |levels|
    decreases |levels|
  {
    if levels == [] then Parsed([], s)
    else
      match ParseRow(s, dim, levels[0])
      case Malformed(e) => Malformed(e)
      case Parsed(v, rest) => Prepend([v], ParseRows(rest, dim, levels[1..]))
  }

  method SkipLists(r: Reader, n: nat) returns (g: Got<()>)
    modifies r
    ensures match ParseMany(old(r.Rest()), n, SkipList)
            case Malformed(e) => g == Lost(e)
            case Parsed(_, rest) => g.Got? && r.Rest() == rest
  {
    ghost var s := r.Rest();
    ghost var skipped: seq<()> := [];
    ContinuesStart(s, n, SkipList);
    for lc := 0 to n
      invariant |skipped| == lc && Continues(s, n, SkipList, skipped, r.Rest())
    {
      hide Continues, ParseMany, ParseWord;
      ContinuesStep(s, n, SkipList, skipped, r.Rest());
      var count := r.Word(4);
      if count.Lost? { return Lost(count.error); }
      r.Seek(count.value * 4 % U32);
      skipped := skipped + [()];
    }
    ContinuesEnd(s, n, SkipList, skipped, r.Rest());
    g := Got(());
  }

  method ReadRow(r: Reader, dim: nat, level: int) returns (g: Got<seq<nat>>)
    modifies r
    ensures Agrees(ParseRow(old(r.Rest()), dim, level), g, r.Rest()) && (g.Got? ==> |g.value| == dim)
  {
    hide ParseMany, SkipList;
    r.Seek(12);
    var v := r.Vector(dim);
    if v.Lost? { return v; }
    var skipped := SkipLists(r, Layers(level));
    if skipped.Lost? { return Lost(skipped.error); }
    g := v;
  }

  /** Reading rows continues from those already read. */
  ghost predicate RowsContinue(s: seq<byte>, dim: nat, levels: seq<int>, rows: seq<seq<nat>>, rest: seq<byte>) {
    |rows| <= |levels| && ParseRows(s, dim, levels) == Prepend(rows, ParseRows(rest, dim, levels[|rows|..]))
  }

  lemma {:induction false} RowsStart(s: seq<byte>, dim: nat, levels: seq<int>)
    ensures RowsContinue(s, dim, levels, [], s)
  {
    hide ParseRows;
    assert levels[0..] == levels;
    var p := ParseRows(s, dim, levels);
    assert p.Parsed? ==> [] + p.value == p.value;
  }

  lemma {:induction false} RowsStep(s: seq<byte>, dim: nat, levels: seq<int>, rows: seq<seq<nat>>, rest: seq<byte>)
    requires RowsContinue(s, dim, levels, rows, rest) && |rows| < |levels|
    ensures var p := ParseRow(rest, dim, levels[|rows|]);
            && (p.Malformed? ==> ParseRows(s, dim, levels) == Malformed(p.error))
            && (p.Parsed? ==> RowsContinue(s, dim, levels, rows + [p.value], p.rest))
  {
    hide ParseRow;
    var p, todo := ParseRow(rest, dim, levels[|rows|]), levels[|rows|..];
    assert todo[1..] == levels[|rows| + 1..] && todo[0] == levels[|rows|];
    if p.Parsed? {
      var q := ParseRows(p.rest, dim, todo[1..]);
      assert q.Parsed? ==> rows + ([p.value] + q.value) == rows + [p.value] + q.value;
    }
  }

  lemma {:induction false} RowsEnd(s: seq<byte>, dim: nat, levels: seq<int>, rows: seq<seq<nat>>, rest: seq<byte>)
    requires RowsContinue(s, dim, levels, rows, rest) && |rows| == |levels|
    ensures ParseRows(s, dim, levels) == Parsed(rows, rest)
  {
    assert levels[|rows|..] == [];
    assert rows + [] == rows;
  }

  /** Row i of the slab is rows[i]. */
  ghost predicate SlabHolds(dim: nat, slab: seq<nat>, offsets: seq<nat>, rows: seq<seq<nat>>) {
    && |offsets| == |rows| && SlabOk(dim, slab, offsets)
    && forall i :: 0 <= i < |rows| ==> slab[offsets[i]..offsets[i] + dim] == rows[i]
  }

  lemma {:induction false} SlabGrows(dim: nat, slab: seq<nat>, offsets: seq<nat>, rows: seq<seq<nat>>, v: seq<nat>)
    requires SlabHolds(dim, slab, offsets, rows) && |v| == dim
    ensures SlabHolds(dim, slab + v, offsets + [|slab|], rows + [v])
  {
    var more, rows' := offsets + [|slab|], rows + [v];
    assert forall i :: 0 <= i < |offsets| ==> more[i] == offsets[i] && offsets[i] + dim <= |slab|;
    forall i | 0 <= i < |rows'| ensures (slab + v)[more[i]..more[i] + dim] == rows'[i] {
      if i < |rows| {
        assert (slab + v)[offsets[i]..offsets[i] + dim] == slab[offsets[i]..offsets[i] + dim];
      } else {
        assert (slab + v)[|slab|..|slab| + dim] == v;
      }
    }
  }

  ghost function Levels(nodes: seq<Node>): seq<int> {
    seq(|nodes|, i requires 0 <= i < |nodes| => nodes[i].level)
  }

  /** The second pass: the slab holds the rows, or the row parser's error is reported. */
  method ReadSlab(r: Reader, dim: nat, nodes: seq<Node>) returns (g: Got<(seq<nat>, seq<nat>)>)
    modifies r
    ensures match ParseRows(old(r.Rest()), dim, Levels(nodes))
            case Malformed(e) => g == Lost(e)
            case Parsed(rows, _) => g.Got? && SlabHolds(dim, g.value.0, g.value.1, rows)
  {
    ghost var s, levels := r.Rest(), Levels(nodes);
    ghost var rows: seq<seq<nat>> := [];
    var slab: seq<nat>, offsets: seq<nat> := [], [];
    RowsStart(s, dim, levels);
    for i := 0 to |nodes|
      invariant |rows| == i && RowsContinue(s, dim, levels, rows, r.Rest())
      invariant SlabHolds(dim, slab, offsets, rows)
    {
      hide RowsContinue, SlabHolds, ParseRow, ParseRows;
      RowsStep(s, dim, levels, rows, r.Rest());
      var v := ReadRow(r, dim, nodes[i].level);
      if v.Lost? { return Lost(v.error); }
      SlabGrows(dim, slab, offsets, rows, v.value);
      offsets := offsets + [|slab|];
      slab := slab + v.value;
      rows := rows + [v.value];
    }
    RowsEnd(s, dim, levels, rows, r.Rest());
    g := Got((slab, offsets));
  }

  // ---------------------------------------------------------------- both passes agree

  /** The byte length of every friend list fits the 32-bit product the second pass computes. */
  ghost predicate SmallLists(friends: seq<seq<int>>) {
    forall lc :: 0 <= lc < |friends| ==> 4 * |friends[lc]| < U32
  }

  lemma {:induction false} ListLength(s: seq<byte>)
    requires ParseList(s).Parsed?
    ensures ParseWord(s, 4) == Parsed(|ParseList(s).value|, s[4..])
    ensures 4 + 4 * |ParseList(s).value| <= |s| && ParseList(s).rest == s[4..][4 * |ParseList(s).value|..]
  {
    FourBytesEach(s[4..], ParseWord(s, 4).value);
  }

  /** Skipping a list lands where parsing it lands exactly when its length in bytes fits 32 bits. */
  lemma {:induction false} SkippedExactly(s: seq<byte>)
    requires ParseList(s).Parsed?
    ensures SkipList(s) == Parsed((), ParseList(s).rest) <==> 4 * |ParseList(s).value| < U32
  {
    ListLength(s);
    hide ParseList, ParseWord;
  }

  /** Skipping friend lists by their counts ends where parsing them ends. */
  lemma {:induction false} SkippedIsParsed(s: seq<byte>, n: nat)
    requires ParseMany(s, n, ParseList).Parsed? && SmallLists(ParseMany(s, n, ParseList).value)
    ensures ParseMany(s, n, SkipList).Parsed? && ParseMany(s, n, SkipList).rest == ParseMany(s, n, ParseList).rest
    decreases n
  {
    if n > 0 {
      hide ParseMany, ParseList, SkipList;
      ManySplit(s, n, ParseList);
      var lists := ParseMany(s, n, ParseList).value;
      TailSmall(lists);
      SkippedExactly(s);
      SkippedIsParsed(ParseList(s).rest, n - 1);
      ManyJoin(s, n, SkipList);
    }
  }

  lemma {:induction false} TailSmall(lists: seq<seq<int>>)
    requires lists != [] && SmallLists(lists)
    ensures 4 * |lists[0]| < U32 && SmallLists(lists[1..])
  {
  }

  lemma {:induction false} RowParts(s: seq<byte>, dim: nat)
    ensures var p := ParseNode(s, dim);
            p.Parsed? ==>
              && |s| >= 12 && p.value.level >= -1
              && var v := ParseMany(s[12..], dim, ParseU32);
                 && v.Parsed? && v.value == p.value.vector
                 && ParseMany(v.rest, p.value.level + 1, ParseList) == Parsed(p.value.friends, p.rest)
  {
    hide ParseMany, ParseList;
    if |s| >= 12 {
      assert s[8..][4..] == s[12..];
    }
  }

  /** The second pass reads the vector of a node and ends where the first pass ends. */
  lemma {:induction false} RowIsParsed(s: seq<byte>, dim: nat)
    requires ParseNode(s, dim).Parsed? && SmallLists(ParseNode(s, dim).value.friends)
    ensures var p := ParseNode(s, dim); ParseRow(s, dim, p.value.level) == Parsed(p.value.vector, p.rest)
  {
    RowParts(s, dim);
    hide ParseMany, ParseList, SkipList, ParseNode, SmallLists;
    var p := ParseNode(s, dim).value;
    SkippedIsParsed(ParseMany(s[12..], dim, ParseU32).rest, p.level + 1);
  }

  ghost function RecordLevels(records: seq<NodeRecord>): seq<int> {
    seq(|records|, i requires 0 <= i < |records| => records[i].level)
  }

  ghost function RecordVectors(records: seq<NodeRecord>): seq<seq<nat>> {
    seq(|records|, i requires 0 <= i < |records| => records[i].vector)
  }

  ghost predicate AllSmall(g: Graph) {
    RecordsSmall(g.nodes)
  }

  ghost predicate RecordsSmall(records: seq<NodeRecord>) {
    forall i :: 0 <= i < |records| ==> SmallLists(records[i].friends)
  }

  lemma {:induction false} FirstRecord(records: seq<NodeRecord>)
    requires records != []
    ensures RecordLevels(records) == [records[0].level] + RecordLevels(records[1..])
    ensures RecordVectors(records) == [records[0].vector] + RecordVectors(records[1..])
  {
  }

  lemma {:induction false} RowsJoin(s: seq<byte>, dim: nat, levels: seq<int>)
    requires levels != [] && ParseRow(s, dim, levels[0]).Parsed?
    ensures var p := ParseRow(s, dim, levels[0]);
            ParseRows(s, dim, levels) == Prepend([p.value], ParseRows(p.rest, dim, levels[1..]))
  {
  }

  lemma {:induction false} RestSmall(records: seq<NodeRecord>)
    requires records != [] && RecordsSmall(records)
    ensures SmallLists(records[0].friends) && RecordsSmall(records[1..])
  {
    hide SmallLists;
  }

  /** The second pass stays aligned with the first through friend lists of any lengths. */
  lemma {:induction false} RowsAreParsed(s: seq<byte>, dim: nat, n: nat)
    requires ParseMany(s, n, NodeParser(dim)).Parsed? && RecordsSmall(ParseMany(s, n, NodeParser(dim)).value)
    ensures var p := ParseMany(s, n, NodeParser(dim));
            ParseRows(s, dim, RecordLevels(p.value)) == Parsed(RecordVectors(p.value), p.rest)
    decreases n
  {
    var records := ParseMany(s, n, NodeParser(dim)).value;
    if n == 0 {
      assert RecordLevels(records) == [] && RecordVectors(records) == [];
    } else {
      ManySplit(s, n, NodeParser(dim));
      var first := ParseNode(s, dim);
      hide ParseMany, ParseNode, SmallLists, ParseRow, RecordsSmall, ParseRows, RecordLevels, RecordVectors;
      RestSmall(records);
      RowIsParsed(s, dim);
      RowsAreParsed(first.rest, dim, n - 1);
      FirstRecord(records);
      RowsJoin(s, dim, RecordLevels(records));
    }
  }

  // ---------------------------------------------------------------- the whole file

  datatype LoadResult = Restored(index: Index, seqID: nat) | Refused(error: LoadError) | Panics

  /** A level below -1 is no error return: making its friend lists panics. */
  function Refusal(e: LoadError): LoadResult {
    if e == NegativeLevel then Panics else Refused(e)
  }

  ghost function WithVectors(records: seq<NodeRecord>, rows: seq<seq<nat>>): seq<NodeRecord>
    requires |rows| == |records|
  {
    seq(|records|, i requires 0 <= i < |records| => records[i].(vector := rows[i]))
  }

  /** What a load gives for any file: the nodes of the first pass with the vectors of the second. */
  ghost function TwoPass(raw: seq<byte>, sha: seq<byte> -> Digest): Result {
    match Parse(raw, sha)
    case Failed(e) => Failed(e)
    case Loaded(g, seqID) =>
      match ParseRows(raw[HEADER_SIZE..], g.dim, RecordLevels(g.nodes))
      case Malformed(e) => Failed(e)
      case Parsed(rows, _) => Loaded(g.(nodes := WithVectors(g.nodes, rows)), seqID)
  }

  /** The two passes give what one pass gives, unless a friend list is too long to be skipped. */
  lemma {:induction false} TwoPassIsParse(raw: seq<byte>, sha: seq<byte> -> Digest)
    ensures Parse(raw, sha).Failed? ==> TwoPass(raw, sha) == Parse(raw, sha)
    ensures Parse(raw, sha).Loaded? && AllSmall(Parse(raw, sha).graph) ==> TwoPass(raw, sha) == Parse(raw, sha)
  {
    var p := Parse(raw, sha);
    if p.Loaded? && AllSmall(p.graph) {
      hide ParseMany, ParseHeader, NodeParser, IdMap, RecordsSmall, ParseRows;
      var h := ParseHeader(raw[..HEADER_SIZE]);
      RowsAreParsed(raw[HEADER_SIZE..], h.dim, h.nodeCount);
      assert WithVectors(p.graph.nodes, RecordVectors(p.graph.nodes)) == p.graph.nodes;
    }
  }

  lemma {:induction false} LevelsStripped(records: seq<NodeRecord>)
    ensures Levels(AllStripped(records)) == RecordLevels(records)
  {
  }

  /** Nodes and rows put together again. */
  lemma {:induction false} Reassembled(ix: Index, records: seq<NodeRecord>, rows: seq<seq<nat>>)
    requires ix.nodes == AllStripped(records) && |rows| == |records|
    requires SlabHolds(ix.dim, ix.vectorSlab, ix.vectorOffsets, rows)
    ensures IndexOk(ix) && RecordsOf(ix) == WithVectors(records, rows)
  {
  }

  /** Loading gives the two-pass result on every file, errors and the panic included. */
  method LoadHNSWFromSnapshot(raw: seq<byte>, sha: seq<byte> -> Digest) returns (r: LoadResult)
    ensures match TwoPass(raw, sha)
            case Failed(e) => r == (if e == NegativeLevel then Panics else Refused(e))
            case Loaded(g, seqID) => r.Restored? && IndexOk(r.index) && GraphOf(r.index) == g && r.seqID == seqID
  {
    hide ParseMany, ParseHeader, NodeParser, IdMap, ParseRows, SlabHolds, AllStripped, RecordsOf;
    if |raw| < HEADER_SIZE { return Refused(TooSmall); }
    var h, data := ParseHeader(raw[..HEADER_SIZE]), raw[HEADER_SIZE..];
    if h.magic != MAGIC { return Refused(BadMagic); }
    if h.version != VERSION { return Refused(BadVersion); }
    if h.endianness != LITTLE { return Refused(BadEndianness); }
    if sha(data) != h.checksum { return Refused(BadChecksum); }
    var first := new Reader(data);
    var nodes, ids := ReadNodes(first, h.dim, h.nodeCount);
    if nodes.Lost? { return Refusal(nodes.error); }
    ghost var records := ParseMany(data, h.nodeCount, NodeParser(h.dim)).value;
    LevelsStripped(records);
    var second := new Reader(data);
    var rows := ReadSlab(second, h.dim, nodes.value);
    if rows.Lost? { return Refusal(rows.error); }
    var ix := Index(h.dim, h.m, h.maxLevel, h.entryPoint, nodes.value, ids, {}, rows.value.0, rows.value.1);
    Reassembled(ix, records, ParseRows(data, h.dim, RecordLevels(records)).value);
    r := Restored(ix, h.seqID);
  }

  /** A save followed by a load gives back the index's graph, unless it had deletions. */
  method SaveAndLoad(ix: Index, seqID: nat, sha: seq<byte> -> Digest) returns (r: LoadResult)
    requires IndexOk(ix) && seqID < U64 && GraphOk(GraphOf(ix)) && AllSmall(GraphOf(ix))
    ensures r.Restored? && IndexOk(r.index) && r.seqID == seqID
    ensures GraphOf(r.index) == GraphOf(ix).(idToNode := IdMap(RecordsOf(ix)), deleted := {})
    ensures GraphIdsOk(GraphOf(ix)) ==> (GraphOf(r.index) == GraphOf(ix) <==> ix.deleted == {})
  {
    if GraphIdsOk(GraphOf(ix)) && ix.deleted == {} {
      IdMapDetermined(GraphOf(ix));
    }
    hide Print, Parse, IdMap, GraphOk, RecordsSmall, GraphIdsOk, TwoPass;
    var raw := SnapshotToFile(ix, seqID, sha);
    PrintedIsParsed(GraphOf(ix), seqID, sha);
    TwoPassIsParse(raw, sha);
    r := LoadHNSWFromSnapshot(raw, sha);
  }
}
