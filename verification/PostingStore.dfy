/**
 The SPANN posting file: records of all non-empty posting lists, then a directory of
 16-byte slots, then the number of slots. Vector components are 32-bit float patterns.
 */
module PostingStore {
  import opened Common
  import opened Wire

  datatype Posting = Posting(id: nat, vector: seq<nat>)

  datatype Slot = Slot(centroid: nat, offset: nat, count: nat)

  const SLOT: nat := 16

  function RecordSize(dim: nat): nat {
    8 + 4 * dim
  }

  // ---------------------------------------------------------------- items of fixed width

  /** n times w, by repeated addition. */
  function Times(n: nat, w: nat): nat {
    if n == 0 then 0 else Times(n - 1, w) + w
  }

  lemma {:induction false} TimesIsProduct(n: nat, w: nat)
    ensures Times(n, w) == n * w
  {
    if n > 0 {
      TimesIsProduct(n - 1, w);
      assert n * w == (n - 1) * w + w;
    }
  }

  lemma {:induction false} TimesFits(i: nat, n: nat, w: nat)
    requires i < n
    ensures Times(i, w) + w == Times(i + 1, w) <= Times(n, w)
    decreases n
  {
    if i < n - 1 {
      TimesFits(i, n - 1, w);
    }
  }

  ghost predicate Width<T(!new)>(print1: T -> seq<byte>, xs: seq<T>, w: nat) {
    forall x :: x in xs ==> |print1(x)| == w
  }

  lemma {:induction false} ManyLength<T(!new)>(xs: seq<T>, print1: T -> seq<byte>, w: nat)
    requires Width(print1, xs, w)
    ensures |PrintMany(xs, print1)| == Times(|xs|, w)
  {
    if xs != [] {
      ManyLength(xs[1..], print1, w);
    }
  }

  /** The i-th item of fixed-width items starts at i times the width. */
  lemma {:induction false} ItemAt<T(!new)>(xs: seq<T>, print1: T -> seq<byte>, w: nat, i: nat)
    requires Width(print1, xs, w)
    ensures |PrintMany(xs, print1)| == Times(|xs|, w)
    ensures i < |xs| ==>
              && Times(i, w) + w <= Times(|xs|, w)
              && PrintMany(xs, print1)[Times(i, w)..Times(i, w) + w] == print1(xs[i])
  {
    ManyLength(xs, print1, w);
    if i < |xs| {
      TimesFits(i, |xs|, w);
      FirstAndRest(xs, print1, w);
      if i > 0 {
        ItemAt(xs[1..], print1, w, i - 1);
        TimesFits(i - 1, |xs| - 1, w);
        hide PrintMany, Width, Times;
        Shifted(print1(xs[0]), PrintMany(xs[1..], print1), Times(i - 1, w), w);
      }
    }
  }

  lemma {:induction false} FirstAndRest<T(!new)>(xs: seq<T>, print1: T -> seq<byte>, w: nat)
    requires xs != [] && Width(print1, xs, w)
    ensures PrintMany(xs, print1) == print1(xs[0]) + PrintMany(xs[1..], print1) && |print1(xs[0])| == w
    ensures Width(print1, xs[1..], w)
    ensures PrintMany(xs, print1)[..w] == print1(xs[0])
  {
  }

  lemma {:induction false} Shifted(a: seq<byte>, b: seq<byte>, p: nat, w: nat)
    requires p + w <= |b|
    ensures (a + b)[|a| + p..|a| + p + w] == b[p..p + w]
  {
  }

  // ---------------------------------------------------------------- the format

  function PrintPosting(p: Posting, dim: nat): seq<byte> {
    Le(p.id, 8) + PrintMany(if |p.vector| < dim then p.vector else p.vector[..dim], PrintU32)
  }

  function PostingPrinter(dim: nat): Posting -> seq<byte> {
    p => PrintPosting(p, dim)
  }

  function PrintSlot(s: Slot): seq<byte> {
    Le(s.centroid, 4) + (Le(s.offset, 8) + Le(s.count, 4))
  }

  /** The records of all lists. */
  function DataOf(lists: seq<seq<Posting>>, dim: nat): seq<byte> {
    if lists == [] then []
    else DataOf(lists[..|lists| - 1], dim) + PrintMany(lists[|lists| - 1], PostingPrinter(dim))
  }

  /** The directory: one slot per non-empty list. */
  function SlotsOf(lists: seq<seq<Posting>>, dim: nat): seq<Slot> {
    if lists == [] then []
    else
      var n := |lists| - 1;
      SlotsOf(lists[..n], dim) + if lists[n] == [] then [] else [Slot(n, |DataOf(lists[..n], dim)|, |lists[n]|)]
  }

  function FileOf(lists: seq<seq<Posting>>, dim: nat): seq<byte> {
    DataOf(lists, dim) + PrintMany(SlotsOf(lists, dim), PrintSlot) + Le(|SlotsOf(lists, dim)|, 4)
  }

  ghost predicate PostingOk(p: Posting, dim: nat) {
    p.id < U64 && |p.vector| == dim && forall w :: w in p.vector ==> w < U32
  }

  ghost predicate ListOk(l: seq<Posting>, dim: nat) {
    |l| < U32 && forall p :: p in l ==> PostingOk(p, dim)
  }

  /** Everything fits the integer widths of the format. */
  ghost predicate ListsOk(lists: seq<seq<Posting>>, dim: nat) {
    && |lists| < U32 && |DataOf(lists, dim)| < I64
    && forall i :: 0 <= i < |lists| ==> ListOk(lists[i], dim)
  }

  // ---------------------------------------------------------------- reading

  function SlotAt(data: seq<byte>, p: nat): Slot
    requires p + SLOT <= |data|
  {
    Slot(FromLe(data[p..p + 4]), FromLe(data[p + 4..p + 12]), FromLe(data[p + 12..p + 16]))
  }

  /** The number of slots the file claims. */
  function SlotCount(data: seq<byte>): nat
    requires |data| >= 4
  {
    FromLe(data[|data| - 4..])
  }

  /** The first n slots of the directory starting at start, later ones winning. */
  function Directory(data: seq<byte>, start: nat, n: nat): map<nat, Slot>
    requires start + n * SLOT <= |data|
  {
    if n == 0 then map[]
    else
      var s := SlotAt(data, start + (n - 1) * SLOT);
      Directory(data, start, n - 1)[s.centroid := s]
  }

  /** An opened file: no directory for one too short to have any, an error for one too short for its own. */
  function Opened(data: seq<byte>): Option<map<nat, Slot>> {
    if |data| < 4 then Some(map[])
    else
      var n := SlotCount(data);
      if |data| < n * SLOT + 4 then None else Some(Directory(data, |data| - 4 - n * SLOT, n))
  }

  function WordAt(chunk: seq<byte>, p: nat): nat
    requires p + 4 <= |chunk|
  {
    FromLe(chunk[p..p + 4])
  }

  function RecordAt(chunk: seq<byte>, dim: nat, p: nat): Posting
    requires p + RecordSize(dim) <= |chunk|
  {
    Posting(FromLe(chunk[p..p + 8]), seq(dim, d requires 0 <= d < dim => WordAt(chunk, p + 8 + d * 4)))
  }

  function Records(chunk: seq<byte>, dim: nat, n: nat): seq<Posting>
    requires Times(n, RecordSize(dim)) <= |chunk|
  {
    if n == 0 then []
    else
      Records(chunk, dim, n - 1) + [RecordAt(chunk, dim, Times(n - 1, RecordSize(dim)))]
  }

  /** Two's complement: what a 64-bit signed integer makes of x. */
  function Signed(x: int): (r: int)
    ensures -I64 <= r < I64 && (x - r) % U64 == 0
  {
    if x % U64 >= I64 then x % U64 - U64 else x % U64
  }

  datatype Lookup = Found(postings: seq<Posting>) | OutOfRange | Panics

  /**
   The list of a centroid. A slot that points outside the file is an error; one whose
   offset is negative as a signed integer, or whose end wraps around, gives a slice panic.
   */
  function Postings(data: seq<byte>, dim: nat, offsets: map<nat, Slot>, centroid: nat): Lookup {
    if centroid !in offsets || offsets[centroid].count == 0 then Found([])
    else
      var s := offsets[centroid];
      var off, size := Signed(s.offset), Times(s.count, RecordSize(dim));
      var end := Signed(off + size);
      if end > |data| then OutOfRange
      else if off < 0 || end != off + size then Panics
      else Found(Records(data[off..end], dim, s.count))
  }

  // ---------------------------------------------------------------- round trip

  lemma {:induction false} WordsOfVector(vector: seq<nat>, d: nat)
    requires d < |vector| && forall w :: w in vector ==> w < U32
    ensures |PrintMany(vector, PrintU32)| == 4 * |vector|
    ensures d * 4 + 4 <= 4 * |vector| && WordAt(PrintMany(vector, PrintU32), d * 4) == vector[d]
  {
    ItemAt(vector, PrintU32, 4, d);
    TimesIsProduct(d, 4);
    TimesIsProduct(|vector|, 4);
    Ranges();
    assert vector[d] in vector;
    LeRoundTrip(vector[d], 4);
  }

  lemma {:induction false} PostingWidth(p: Posting, dim: nat)
    requires PostingOk(p, dim)
    ensures |PrintPosting(p, dim)| == RecordSize(dim)
  {
    assert p.vector[..dim] == p.vector;
    ItemAt(p.vector, PrintU32, 4, 0);
    TimesIsProduct(dim, 4);
  }

  lemma {:induction false} RecordRoundTrip(p: Posting, dim: nat)
    requires PostingOk(p, dim)
    ensures |PrintPosting(p, dim)| == RecordSize(dim) && RecordAt(PrintPosting(p, dim), dim, 0) == p
  {
    PostingWidth(p, dim);
    var s := PrintPosting(p, dim);
    assert p.vector[..dim] == p.vector;
    var head, body := Le(p.id, 8), PrintMany(p.vector, PrintU32);
    assert s == head + body;
    hide Le, FromLe, PrintMany, PrintPosting, WordAt, RecordAt;
    assert s[0..8] == head;
    Ranges();
    LeRoundTrip(p.id, 8);
    forall d | 0 <= d < dim ensures WordAt(s, 8 + d * 4) == p.vector[d] {
      WordAfterHead(head, p.vector, d);
    }
    RecordIs(s, dim, p);
  }

  lemma {:induction false} RecordIs(s: seq<byte>, dim: nat, p: Posting)
    requires |s| == RecordSize(dim) && FromLe(s[0..8]) == p.id && |p.vector| == dim
    requires forall d :: 0 <= d < dim ==> WordAt(s, 8 + d * 4) == p.vector[d]
    ensures RecordAt(s, dim, 0) == p
  {
    hide FromLe, WordAt;
    assert RecordAt(s, dim, 0).vector == p.vector;
  }

  lemma {:induction false} WordAfterHead(head: seq<byte>, vector: seq<nat>, d: nat)
    requires |head| == 8 && d < |vector| && forall w :: w in vector ==> w < U32
    ensures var s := head + PrintMany(vector, PrintU32); 8 + d * 4 + 4 <= |s| && WordAt(s, 8 + d * 4) == vector[d]
  {
    hide PrintMany, FromLe;
    WordsOfVector(vector, d);
    Shifted(head, PrintMany(vector, PrintU32), d * 4, 4);
  }

  /** A record is read alike wherever it lies. */
  lemma {:induction false} RecordMoved(chunk: seq<byte>, dim: nat, p: nat)
    requires p + RecordSize(dim) <= |chunk|
    ensures RecordAt(chunk, dim, p) == RecordAt(chunk[p..p + RecordSize(dim)], dim, 0)
  {
    var r := chunk[p..p + RecordSize(dim)];
    assert r[0..8] == chunk[p..p + 8];
    forall d | 0 <= d < dim ensures WordAt(chunk, p + 8 + d * 4) == WordAt(r, 8 + d * 4) {
      assert r[8 + d * 4..8 + d * 4 + 4] == chunk[p + 8 + d * 4..p + 8 + d * 4 + 4];
    }
  }

  lemma {:induction false} ListWidth(l: seq<Posting>, dim: nat)
    requires ListOk(l, dim)
    ensures Width(PostingPrinter(dim), l, RecordSize(dim))
  {
    forall p | p in l ensures |PostingPrinter(dim)(p)| == RecordSize(dim) {
      PostingWidth(p, dim);
    }
  }

  lemma {:induction false} RecordsRoundTrip(l: seq<Posting>, dim: nat, n: nat)
    requires ListOk(l, dim) && n <= |l|
    ensures |PrintMany(l, PostingPrinter(dim))| == Times(|l|, RecordSize(dim))
    ensures Times(n, RecordSize(dim)) <= Times(|l|, RecordSize(dim))
    ensures Records(PrintMany(l, PostingPrinter(dim)), dim, n) == l[..n]
  {
    ListWidth(l, dim);
    hide PrintMany, ListOk, Width, RecordAt;
    ManyLength(l, PostingPrinter(dim), RecordSize(dim));
    if n > 0 {
      TimesFits(n - 1, |l|, RecordSize(dim));
      RecordsRoundTrip(l, dim, n - 1);
      OneRecord(l, dim, n - 1);
      assert l[..n] == l[..n - 1] + [l[n - 1]];
    }
  }

  lemma {:induction false} OneRecord(l: seq<Posting>, dim: nat, i: nat)
    requires ListOk(l, dim) && i < |l|
    ensures Times(i, RecordSize(dim)) + RecordSize(dim) <= |PrintMany(l, PostingPrinter(dim))|
    ensures RecordAt(PrintMany(l, PostingPrinter(dim)), dim, Times(i, RecordSize(dim))) == l[i]
  {
    hide *;
    var chunk, w := PrintMany(l, PostingPrinter(dim)), RecordSize(dim);
    var p := Times(i, w);
    ItemOfList(l, dim, i);
    RecordMoved(chunk, dim, p);
    RecordRoundTrip(l[i], dim);
  }

  lemma {:induction false} ItemOfList(l: seq<Posting>, dim: nat, i: nat)
    requires ListOk(l, dim) && i < |l|
    ensures var chunk, w, p := PrintMany(l, PostingPrinter(dim)), RecordSize(dim), Times(i, RecordSize(dim));
            p + w <= |chunk| && chunk[p..p + w] == PrintPosting(l[i], dim)
    ensures PostingOk(l[i], dim)
  {
    assert l[i] in l;
    ListWidth(l, dim);
    hide PrintMany, Width, Times, RecordSize, PrintPosting, PostingOk;
    ItemAt(l, PostingPrinter(dim), RecordSize(dim), i);
  }

  // ---------------------------------------------------------------- the directory

  ghost predicate SlotOk(s: Slot) {
    s.centroid < U32 && s.offset < U64 && s.count < U32
  }

  lemma {:induction false} SlotRoundTrip(s: Slot)
    requires SlotOk(s)
    ensures |PrintSlot(s)| == SLOT && SlotAt(PrintSlot(s), 0) == s
  {
    hide Le, FromLe;
    Ranges();
    LeRoundTrip(s.centroid, 4);
    LeRoundTrip(s.offset, 8);
    LeRoundTrip(s.count, 4);
    var b := PrintSlot(s);
    assert b[0..4] == Le(s.centroid, 4) && b[4..12] == Le(s.offset, 8) && b[12..16] == Le(s.count, 4);
  }

  lemma {:induction false} SlotMoved(data: seq<byte>, p: nat)
    requires p + SLOT <= |data|
    ensures SlotAt(data, p) == SlotAt(data[p..p + SLOT], 0)
  {
    var b := data[p..p + SLOT];
    assert b[0..4] == data[p..p + 4] && b[4..12] == data[p + 4..p + 12] && b[12..16] == data[p + 12..p + 16];
  }

  /** The directory as a map. */
  function ByCentroid(slots: seq<Slot>): map<nat, Slot> {
    if slots == [] then map[]
    else ByCentroid(slots[..|slots| - 1])[slots[|slots| - 1].centroid := slots[|slots| - 1]]
  }

  /** The slots lie in the data one after the other. */
  ghost predicate SlotsAt(data: seq<byte>, start: nat, slots: seq<Slot>) {
    start + |slots| * SLOT <= |data| && forall i :: 0 <= i < |slots| ==> SlotAt(data, start + i * SLOT) == slots[i]
  }

  lemma {:induction false} DirectoryReads(data: seq<byte>, start: nat, slots: seq<Slot>, n: nat)
    requires SlotsAt(data, start, slots) && n <= |slots|
    ensures Directory(data, start, n) == ByCentroid(slots[..n])
  {
    hide SlotAt;
    if n > 0 {
      DirectoryReads(data, start, slots, n - 1);
      assert slots[..n][..n - 1] == slots[..n - 1];
    }
  }

  lemma {:induction false} SlotsWidth(slots: seq<Slot>)
    ensures Width(PrintSlot, slots, SLOT)
  {
  }

  lemma {:induction false} OneSlot(before: seq<byte>, slots: seq<Slot>, after: seq<byte>, i: nat)
    requires (forall s :: s in slots ==> SlotOk(s)) && i < |slots|
    ensures |PrintMany(slots, PrintSlot)| == |slots| * SLOT && i * SLOT + SLOT <= |slots| * SLOT
    ensures SlotAt(before + PrintMany(slots, PrintSlot) + after, |before| + i * SLOT) == slots[i]
  {
    SlotsWidth(slots);
    hide SlotAt, PrintMany, PrintSlot;
    ItemAt(slots, PrintSlot, SLOT, i);
    TimesIsProduct(i, SLOT);
    TimesIsProduct(|slots|, SLOT);
    var h := PrintMany(slots, PrintSlot);
    var data := before + h + after;
    SlotMoved(data, |before| + i * SLOT);
    Shifted(before, h, i * SLOT, SLOT);
    assert data[|before| + i * SLOT..|before| + i * SLOT + SLOT] == PrintSlot(slots[i]);
    assert slots[i] in slots;
    SlotRoundTrip(slots[i]);
  }

  lemma {:induction false} DirectoryRoundTrip(before: seq<byte>, slots: seq<Slot>, after: seq<byte>)
    requires forall s :: s in slots ==> SlotOk(s)
    ensures |PrintMany(slots, PrintSlot)| == |slots| * SLOT
    ensures Directory(before + PrintMany(slots, PrintSlot) + after, |before|, |slots|) == ByCentroid(slots)
  {
    SlotsWidth(slots);
    ManyLength(slots, PrintSlot, SLOT);
    TimesIsProduct(|slots|, SLOT);
    hide PrintMany, SlotAt, Directory, ByCentroid, Width, SlotOk;
    var data := before + PrintMany(slots, PrintSlot) + after;
    forall i | 0 <= i < |slots| ensures SlotAt(data, |before| + i * SLOT) == slots[i] {
      OneSlot(before, slots, after, i);
    }
    DirectoryReads(data, |before|, slots, |slots|);
    assert slots[..|slots|] == slots;
  }

  /** What the directory of a file says about a centroid. */
  lemma {:induction false} DirectoryMeans(lists: seq<seq<Posting>>, dim: nat, c: nat)
    ensures var dir := ByCentroid(SlotsOf(lists, dim));
            && (c in dir <==> c < |lists| && lists[c] != [])
            && (c in dir ==> dir[c] == Slot(c, |DataOf(lists[..c], dim)|, |lists[c]|))
  {
    if lists != [] {
      var n := |lists| - 1;
      var front := lists[..n];
      DirectoryMeans(front, dim, c);
      hide SlotsOf, ByCentroid, DataOf;
      DirectoryOfLast(lists, dim, c);
      if c < n {
        assert front[..c] == lists[..c] && front[c] == lists[c];
      }
    }
  }

  /** The last list adds its own slot and leaves the others. */
  lemma {:induction false} DirectoryOfLast(lists: seq<seq<Posting>>, dim: nat, c: nat)
    requires lists != []
    ensures var n := |lists| - 1;
            var dir, before := ByCentroid(SlotsOf(lists, dim)), ByCentroid(SlotsOf(lists[..n], dim));
            && (c != n || lists[n] == [] ==> (c in dir <==> c in before) && (c in dir ==> dir[c] == before[c]))
            && (c == n && lists[n] != [] ==> c in dir && dir[c] == Slot(n, |DataOf(lists[..n], dim)|, |lists[n]|))
  {
    var n := |lists| - 1;
    LastSlot(lists, dim);
    hide SlotsOf, ByCentroid, DataOf;
    ByCentroidGrows(SlotsOf(lists[..n], dim), Slot(n, |DataOf(lists[..n], dim)|, |lists[n]|));
  }

  lemma {:induction false} LastSlot(lists: seq<seq<Posting>>, dim: nat)
    requires lists != []
    ensures var n := |lists| - 1;
            var front := lists[..n];
            SlotsOf(lists, dim) ==
              if lists[n] == [] then SlotsOf(front, dim)
              else SlotsOf(front, dim) + [Slot(n, |DataOf(front, dim)|, |lists[n]|)]
  {
    var front := SlotsOf(lists[..|lists| - 1], dim);
    assert front + [] == front;
  }

  lemma {:induction false} ByCentroidGrows(slots: seq<Slot>, s: Slot)
    ensures ByCentroid(slots + [s]) == ByCentroid(slots)[s.centroid := s]
  {
    assert (slots + [s])[..|slots|] == slots;
  }

  lemma {:induction false} SlotsInRange(lists: seq<seq<Posting>>, dim: nat)
    requires |lists| < U32 && |DataOf(lists, dim)| < I64 && forall i :: 0 <= i < |lists| ==> |lists[i]| < U32
    ensures |SlotsOf(lists, dim)| <= |lists| && forall s :: s in SlotsOf(lists, dim) ==> SlotOk(s)
  {
    if lists != [] {
      SlotsInRange(lists[..|lists| - 1], dim);
    }
  }

  lemma {:induction false} DataAt(lists: seq<seq<Posting>>, dim: nat, c: nat)
    requires c < |lists|
    ensures Within(DataOf(lists, dim), |DataOf(lists[..c], dim)|, PrintMany(lists[c], PostingPrinter(dim)))
  {
    var n := |lists| - 1;
    var front := lists[..n];
    var last := PrintMany(lists[n], PostingPrinter(dim));
    assert DataOf(lists, dim) == DataOf(front, dim) + last;
    hide DataOf, PrintMany;
    if c < n {
      DataAt(front, dim, c);
      assert front[..c] == lists[..c];
      WithinMore(DataOf(front, dim), last, |DataOf(front[..c], dim)|, PrintMany(lists[c], PostingPrinter(dim)));
    } else {
      assert lists[..c] == front;
    }
  }

  /** The piece lies in the data at the offset. */
  ghost predicate Within(data: seq<byte>, off: nat, piece: seq<byte>) {
    off + |piece| <= |data| && data[off..off + |piece|] == piece
  }

  lemma {:induction false} WithinMore(data: seq<byte>, more: seq<byte>, off: nat, piece: seq<byte>)
    requires Within(data, off, piece)
    ensures Within(data + more, off, piece)
  {
  }

  lemma {:induction false} CountAtEnd(before: seq<byte>, n: nat)
    requires n < U32
    ensures SlotCount(before + Le(n, 4)) == n
  {
    var file := before + Le(n, 4);
    assert file[|file| - 4..] == Le(n, 4);
    Ranges();
    LeRoundTrip(n, 4);
  }

  lemma {:induction false} OpenedDirectory(data: seq<byte>, slots: seq<Slot>)
    requires (forall s :: s in slots ==> SlotOk(s)) && |slots| < U32
    ensures Opened(data + PrintMany(slots, PrintSlot) + Le(|slots|, 4)) == Some(ByCentroid(slots))
  {
    hide PrintMany, Directory, Le, FromLe, ByCentroid, SlotCount, SlotOk;
    DirectoryRoundTrip(data, slots, Le(|slots|, 4));
    CountAtEnd(data + PrintMany(slots, PrintSlot), |slots|);
  }

  lemma {:induction false} OpenedFile(lists: seq<seq<Posting>>, dim: nat)
    requires ListsOk(lists, dim)
    ensures Opened(FileOf(lists, dim)) == Some(ByCentroid(SlotsOf(lists, dim)))
  {
    SlotsInRange(lists, dim);
    hide DataOf, SlotsOf, PrintMany, Opened, Le, ByCentroid, SlotOk, PrintSlot;
    OpenedDirectory(DataOf(lists, dim), SlotsOf(lists, dim));
  }

  /** Reading the file back gives each centroid exactly its list, and every other one nothing. */
  lemma {:induction false} ReadBack(lists: seq<seq<Posting>>, dim: nat, c: nat)
    requires ListsOk(lists, dim)
    ensures Opened(FileOf(lists, dim)).Some?
    ensures Postings(FileOf(lists, dim), dim, Opened(FileOf(lists, dim)).value, c) ==
            Found(if c < |lists| then lists[c] else [])
  {
    OpenedFile(lists, dim);
    DirectoryMeans(lists, dim, c);
    var file := FileOf(lists, dim);
    var offsets := Opened(file).value;
    hide DataOf, SlotsOf, PrintMany, Opened, ByCentroid, Postings, HoldsAt, FileOf;
    if c < |lists| && lists[c] != [] {
      ChunkInFile(lists, dim, c);
      SlotReads(file, dim, offsets, c, |DataOf(lists[..c], dim)|, lists[c]);
    } else {
      NoSlot(file, dim, offsets, c);
    }
  }

  // ---------------------------------------------------------------- longer vectors

  /** The posting with its vector cut to the dimension. */
  ghost function Cut(p: Posting, dim: nat): Posting
    requires dim <= |p.vector|
  {
    Posting(p.id, p.vector[..dim])
  }

  ghost function CutList(l: seq<Posting>, dim: nat): seq<Posting>
    requires LongEnough(l, dim)
  {
    seq(|l|, i requires 0 <= i < |l| => Cut(l[i], dim))
  }

  ghost function CutLists(lists: seq<seq<Posting>>, dim: nat): seq<seq<Posting>>
    requires forall i :: 0 <= i < |lists| ==> LongEnough(lists[i], dim)
  {
    seq(|lists|, i requires 0 <= i < |lists| => CutList(lists[i], dim))
  }

  lemma {:induction false} CutListPrintsAlike(l: seq<Posting>, dim: nat)
    requires LongEnough(l, dim)
    ensures PrintMany(CutList(l, dim), PostingPrinter(dim)) == PrintMany(l, PostingPrinter(dim))
  {
    if l != [] {
      CutListPrintsAlike(l[1..], dim);
      assert CutList(l, dim)[1..] == CutList(l[1..], dim);
      assert Cut(l[0], dim).vector[..dim] == l[0].vector[..dim];
      assert PrintPosting(Cut(l[0], dim), dim) == PrintPosting(l[0], dim);
    }
  }

  lemma {:induction false} CutPrintsAlike(lists: seq<seq<Posting>>, dim: nat)
    requires forall i :: 0 <= i < |lists| ==> LongEnough(lists[i], dim)
    ensures DataOf(CutLists(lists, dim), dim) == DataOf(lists, dim)
    ensures SlotsOf(CutLists(lists, dim), dim) == SlotsOf(lists, dim)
  {
    if lists != [] {
      var n := |lists| - 1;
      CutPrintsAlike(lists[..n], dim);
      assert CutLists(lists, dim)[..n] == CutLists(lists[..n], dim);
      CutListPrintsAlike(lists[n], dim);
      hide LongEnough, PrintMany;
      assert CutLists(lists, dim)[n] == CutList(lists[n], dim);
    }
  }

  /** A written file gives each centroid its list with the vectors cut to the dimension. */
  lemma {:induction false} ReadBackCut(lists: seq<seq<Posting>>, dim: nat, c: nat)
    requires (forall i :: 0 <= i < |lists| ==> LongEnough(lists[i], dim)) && ListsOk(CutLists(lists, dim), dim)
    ensures Opened(FileOf(lists, dim)).Some?
    ensures Postings(FileOf(lists, dim), dim, Opened(FileOf(lists, dim)).value, c) ==
            Found(if c < |lists| then CutList(lists[c], dim) else [])
  {
    CutPrintsAlike(lists, dim);
    assert FileOf(CutLists(lists, dim), dim) == FileOf(lists, dim);
    ReadBack(CutLists(lists, dim), dim, c);
  }

  lemma {:induction false} NoSlot(data: seq<byte>, dim: nat, offsets: map<nat, Slot>, c: nat)
    requires c !in offsets
    ensures Postings(data, dim, offsets, c) == Found([])
  {
  }

  lemma {:induction false} SlotReads(data: seq<byte>, dim: nat, offsets: map<nat, Slot>, c: nat, off: nat,
                                     l: seq<Posting>)
    requires c in offsets && offsets[c] == Slot(c, off, |l|) && l != [] && HoldsAt(data, off, dim, l)
    requires off + Times(|l|, RecordSize(dim)) < I64
    ensures Postings(data, dim, offsets, c) == Found(l)
  {
    hide Records, RecordSize;
  }

  /** The records of l lie in the file at the offset. */
  ghost predicate HoldsAt(file: seq<byte>, off: nat, dim: nat, l: seq<Posting>) {
    var end := off + Times(|l|, RecordSize(dim));
    end <= |file| && Records(file[off..end], dim, |l|) == l
  }

  lemma {:induction false} WholeList(l: seq<Posting>, dim: nat)
    requires ListOk(l, dim)
    ensures var chunk := PrintMany(l, PostingPrinter(dim));
            |chunk| == Times(|l|, RecordSize(dim)) && Records(chunk, dim, |l|) == l
  {
    hide PrintMany, Records, Times, RecordSize, ListOk;
    RecordsRoundTrip(l, dim, |l|);
    assert l[..|l|] == l;
  }

  lemma {:induction false} ChunkInFile(lists: seq<seq<Posting>>, dim: nat, c: nat)
    requires c < |lists| && ListOk(lists[c], dim)
    ensures HoldsAt(FileOf(lists, dim), |DataOf(lists[..c], dim)|, dim, lists[c])
    ensures |DataOf(lists[..c], dim)| + Times(|lists[c]|, RecordSize(dim)) <= |DataOf(lists, dim)|
  {
    var data, off, chunk := DataOf(lists, dim), |DataOf(lists[..c], dim)|, PrintMany(lists[c], PostingPrinter(dim));
    DataAt(lists, dim, c);
    WholeList(lists[c], dim);
    var h, n := PrintMany(SlotsOf(lists, dim), PrintSlot), Le(|SlotsOf(lists, dim)|, 4);
    assert FileOf(lists, dim) == data + h + n;
    hide DataOf, SlotsOf, PrintMany, Records, Times, RecordSize, FileOf, Within, HoldsAt;
    WithinMore(data, h, off, chunk);
    WithinMore(data + h, n, off, chunk);
    WithinHolds(data + h + n, off, dim, lists[c], chunk);
  }

  lemma {:induction false} WithinHolds(file: seq<byte>, off: nat, dim: nat, l: seq<Posting>, chunk: seq<byte>)
    requires Within(file, off, chunk) && |chunk| == Times(|l|, RecordSize(dim)) && Records(chunk, dim, |l|) == l
    ensures HoldsAt(file, off, dim, l)
  {
    hide Records, Times, RecordSize;
  }

  // ---------------------------------------------------------------- the code

  /** Every vector has at least the dimension of the index. */
  ghost predicate LongEnough(l: seq<Posting>, dim: nat) {
    forall j :: 0 <= j < |l| ==> |l[j].vector| >= dim
  }

  method WriteList(l: seq<Posting>, dim: nat) returns (r: Option<seq<byte>>)
    ensures r.Some? <==> LongEnough(l, dim)
    ensures r.Some? ==> r.value == PrintMany(l, PostingPrinter(dim))
  {
    var out: seq<byte> := [];
    for j := 0 to |l|
      invariant forall k :: 0 <= k < j ==> |l[k].vector| >= dim
      invariant out == PrintMany(l[..j], PostingPrinter(dim))
    {
      if |l[j].vector| < dim { return None; }
      hide PrintMany;
      PrintManyGrows(l, PostingPrinter(dim), j);
      out := out + PrintPosting(l[j], dim);
    }
    assert l[..|l|] == l;
    r := Some(out);
  }

  lemma {:induction false} NextList(lists: seq<seq<Posting>>, dim: nat, i: nat)
    requires i < |lists|
    ensures DataOf(lists[..i + 1], dim) == DataOf(lists[..i], dim) + PrintMany(lists[i], PostingPrinter(dim))
    ensures SlotsOf(lists[..i + 1], dim) ==
              if lists[i] == [] then SlotsOf(lists[..i], dim)
              else SlotsOf(lists[..i], dim) + [Slot(i, |DataOf(lists[..i], dim)|, |lists[i]|)]
  {
    LastSlot(lists[..i + 1], dim);
    assert lists[..i + 1][..i] == lists[..i];
  }

  lemma {:induction false} NothingPrinted(dim: nat)
    ensures PrintMany([], PostingPrinter(dim)) == []
  {
  }

  lemma {:induction false} SlotAppended(slots: seq<Slot>, s: Slot)
    ensures PrintMany(slots + [s], PrintSlot) == PrintMany(slots, PrintSlot) + PrintSlot(s)
  {
    PrintManyGrows(slots + [s], PrintSlot, |slots|);
    assert (slots + [s])[..|slots| + 1] == slots + [s] && (slots + [s])[..|slots|] == slots;
  }

  /** Records, directory and slot count of the first i lists. */
  ghost predicate Written(lists: seq<seq<Posting>>, dim: nat, i: nat, file: seq<byte>, header: seq<byte>, slots: nat)
    requires i <= |lists|
  {
    && file == DataOf(lists[..i], dim) && header == PrintMany(SlotsOf(lists[..i], dim), PrintSlot)
    && slots == |SlotsOf(lists[..i], dim)|
  }

  lemma {:induction false} WrittenNext(lists: seq<seq<Posting>>, dim: nat, i: nat, file: seq<byte>, header: seq<byte>,
                                       slots: nat)
    requires i < |lists| && Written(lists, dim, i, file, header, slots)
    ensures var more := file + PrintMany(lists[i], PostingPrinter(dim));
            if lists[i] == [] then Written(lists, dim, i + 1, file, header, slots)
            else Written(lists, dim, i + 1, more, header + PrintSlot(Slot(i, |file|, |lists[i]|)), slots + 1)
  {
    hide DataOf, SlotsOf, PrintMany;
    NextList(lists, dim, i);
    if lists[i] == [] {
      NothingPrinted(dim);
      assert file + [] == file;
    } else {
      SlotAppended(SlotsOf(lists[..i], dim), Slot(i, |file|, |lists[i]|));
    }
  }

  /** Writes the file, or fails at a vector that is too short. */
  method WritePostings(lists: seq<seq<Posting>>, dim: nat) returns (r: Option<seq<byte>>)
    ensures r.Some? <==> forall i :: 0 <= i < |lists| ==> LongEnough(lists[i], dim)
    ensures r.Some? ==> r.value == FileOf(lists, dim)
  {
    hide LongEnough;
    var file: seq<byte>, header: seq<byte>, slots := [], [], 0;
    for i := 0 to |lists|
      invariant forall k :: 0 <= k < i ==> LongEnough(lists[k], dim)
      invariant Written(lists, dim, i, file, header, slots)
    {
      hide Written, PrintMany;
      WrittenNext(lists, dim, i, file, header, slots);
      if |lists[i]| == 0 {
        NoneShort(dim);
        continue;
      }
      var w := WriteList(lists[i], dim);
      if w.None? { return None; }
      var s := Slot(i, |file|, |lists[i]|);
      header := header + PrintSlot(s);
      slots := slots + 1;
      file := file + w.value;
    }
    assert lists[..|lists|] == lists;
    r := Some(file + header + Le(slots, 4));
  }

  lemma {:induction false} NoneShort(dim: nat)
    ensures LongEnough([], dim)
  {
  }

  /** Reads the trailing directory. */
  method ReadHeader(data: seq<byte>) returns (r: Option<map<nat, Slot>>)
    ensures r == Opened(data)
  {
    if |data| < 4 { return Some(map[]); }
    var n := FromLe(data[|data| - 4..]);
    if |data| < n * SLOT + 4 { return None; }
    var start := |data| - 4 - n * SLOT;
    var offsets: map<nat, Slot> := map[];
    for i := 0 to n
      invariant offsets == Directory(data, start, i)
    {
      var s := SlotAt(data, start + i * SLOT);
      offsets := offsets[s.centroid := s];
    }
    r := Some(offsets);
  }

  /** Copies the list of a centroid out of the file. */
  method GetPostings(data: seq<byte>, dim: nat, offsets: map<nat, Slot>, centroid: nat) returns (r: Lookup)
    ensures r == Postings(data, dim, offsets, centroid)
  {
    if centroid !in offsets || offsets[centroid].count == 0 { return Found([]); }
    var s, w := offsets[centroid], RecordSize(dim);
    var off, size := Signed(s.offset), Times(s.count, w);
    var end := Signed(off + size);
    if end > |data| { return OutOfRange; }
    if off < 0 || end != off + size { return Panics; }
    var chunk := data[off..end];
    var out: seq<Posting> := [];
    for i := 0 to s.count
      invariant Times(i, w) <= Times(s.count, w)
      invariant out == Records(chunk, dim, i)
    {
      TimesFits(i, s.count, w);
      var p := Times(i, w);
      var v := CopyVector(chunk, dim, p);
      out := out + [Posting(FromLe(chunk[p..p + 8]), v)];
    }
    r := Found(out);
  }

  method CopyVector(chunk: seq<byte>, dim: nat, p: nat) returns (v: seq<nat>)
    requires p + RecordSize(dim) <= |chunk|
    ensures v == RecordAt(chunk, dim, p).vector
  {
    v := [];
    for d := 0 to dim
      invariant v == RecordAt(chunk, dim, p).vector[..d]
    {
      v := v + [WordAt(chunk, p + 8 + d * 4)];
    }
  }
}
