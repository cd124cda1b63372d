/** The SPANN index: posting lists in a file, a buffer of later inserts and soft deletions. */
module Spann {
  import opened Common
  import opened Wire
  import opened PostingStore

  // ---------------------------------------------------------------- postings by id

  ghost predicate UniqueIds(s: seq<Posting>) {
    forall i, j :: 0 <= i < j < |s| ==> s[i].id != s[j].id
  }

  ghost predicate Apart(a: seq<Posting>, b: seq<Posting>) {
    forall p, q :: p in a && q in b ==> p.id != q.id
  }

  ghost function Stored(lists: seq<seq<Posting>>): set<Posting> {
    set c, p | 0 <= c < |lists| && p in lists[c] :: p
  }

  ghost predicate ListsApart(lists: seq<seq<Posting>>) {
    && (forall c :: 0 <= c < |lists| ==> UniqueIds(lists[c]))
    && forall c, d :: 0 <= c < |lists| && 0 <= d < |lists| && c != d ==> Apart(lists[c], lists[d])
  }

  /** The postings that are not deleted. */
  ghost function Kept(s: set<Posting>, deleted: set<nat>): set<Posting> {
    set p | p in s && p.id !in deleted
  }

  lemma {:induction false} UniqueCount(s: seq<Posting>)
    requires UniqueIds(s)
    ensures |Elements(s)| == |s|
  {
    ElementsSize(s);
  }

  lemma {:induction false} AppendUnique(s: seq<Posting>, p: Posting)
    requires UniqueIds(s) && Apart(s, [p])
    ensures UniqueIds(s + [p])
  {
    assert p in [p];
  }

  /** Appends the postings that are not deleted. */
  method AppendLive(out0: seq<Posting>, posts: seq<Posting>, deleted: set<nat>) returns (out: seq<Posting>)
    requires UniqueIds(out0) && UniqueIds(posts) && Apart(out0, posts)
    ensures UniqueIds(out) && Elements(out) == Elements(out0) + Kept(Elements(posts), deleted)
  {
    out := out0;
    for i := 0 to |posts|
      invariant UniqueIds(out) && Elements(out) == Elements(out0) + Kept(Elements(posts[..i]), deleted)
    {
      hide UniqueIds;
      var p := posts[i];
      assert posts[..i + 1] == posts[..i] + [p];
      if p.id !in deleted {
        NewPosting(out0, posts, deleted, out, i);
        AppendUnique(out, p);
        out := out + [p];
      }
    }
    assert posts[..|posts|] == posts;
  }

  lemma {:induction false} NewPosting(out0: seq<Posting>, posts: seq<Posting>, deleted: set<nat>, out: seq<Posting>,
                                      i: nat)
    requires UniqueIds(posts) && Apart(out0, posts) && i < |posts|
    requires Elements(out) == Elements(out0) + Kept(Elements(posts[..i]), deleted)
    ensures Apart(out, [posts[i]])
  {
    forall p | p in out ensures p.id != posts[i].id {
      assert p in Elements(out);
      assert posts[i] in posts;
    }
  }

  // ---------------------------------------------------------------- assigning to centroids

  ghost function Total(lists: seq<seq<Posting>>): nat {
    if lists == [] then 0 else Total(lists[..|lists| - 1]) + |lists[|lists| - 1]|
  }

  lemma {:induction false} TotalGrows(lists: seq<seq<Posting>>, c: nat, p: Posting)
    requires c < |lists|
    ensures Total(lists[c := lists[c] + [p]]) == Total(lists) + 1
  {
    var n := |lists| - 1;
    var more := lists[c := lists[c] + [p]];
    if c < n {
      TotalGrows(lists[..n], c, p);
      assert more[..n] == lists[..n][c := lists[c] + [p]];
    } else {
      assert more[..n] == lists[..n];
    }
  }

  lemma {:induction false} TotalBounds(lists: seq<seq<Posting>>, c: nat)
    requires c < |lists|
    ensures |lists[c]| <= Total(lists)
  {
    if c < |lists| - 1 {
      TotalBounds(lists[..|lists| - 1], c);
    }
  }

  lemma {:induction false} TimesAdds(m: nat, n: nat, w: nat)
    ensures Times(m + n, w) == Times(m, w) + Times(n, w)
  {
    if n > 0 {
      TimesAdds(m, n - 1, w);
    }
  }

  lemma {:induction false} LastLength(lists: seq<seq<Posting>>, dim: nat)
    requires lists != [] && ListOk(lists[|lists| - 1], dim)
    ensures |DataOf(lists, dim)| == |DataOf(lists[..|lists| - 1], dim)| + Times(|lists[|lists| - 1]|, RecordSize(dim))
  {
    var last := lists[|lists| - 1];
    assert DataOf(lists, dim) == DataOf(lists[..|lists| - 1], dim) + PrintMany(last, PostingPrinter(dim));
    hide *;
    ListWidth(last, dim);
    ManyLength(last, PostingPrinter(dim), RecordSize(dim));
  }

  lemma {:induction false} DataLength(lists: seq<seq<Posting>>, dim: nat)
    requires forall c :: 0 <= c < |lists| ==> ListOk(lists[c], dim)
    ensures |DataOf(lists, dim)| == Times(Total(lists), RecordSize(dim))
  {
    if lists != [] {
      hide ListOk, DataOf, RecordSize, Times;
      var n := |lists| - 1;
      DataLength(lists[..n], dim);
      LastLength(lists, dim);
      TimesAdds(Total(lists[..n]), |lists[n]|, RecordSize(dim));
    }
  }

  /** Each posting's id names the list that holds it, and nothing else is named. */
  ghost predicate Located(lists: seq<seq<Posting>>, ids: map<nat, int>) {
    && (forall c, p :: 0 <= c < |lists| && p in lists[c] ==> p.id in ids && ids[p.id] == c)
    && forall id :: id in ids ==> exists p :: p in Stored(lists) && p.id == id
  }

  /** No list holds the id of p. */
  ghost predicate FreshIn(lists: seq<seq<Posting>>, p: Posting) {
    forall c :: 0 <= c < |lists| ==> Apart(lists[c], [p])
  }

  lemma {:induction false} LocatedApart(lists: seq<seq<Posting>>, ids: map<nat, int>, c: nat, p: Posting)
    requires c < |lists| && Located(lists, ids) && ListsApart(lists) && p.id !in ids
    ensures ListsApart(lists[c := lists[c] + [p]])
    ensures Stored(lists[c := lists[c] + [p]]) == Stored(lists) + {p}
    ensures Located(lists[c := lists[c] + [p]], ids[p.id := c])
  {
    assert FreshIn(lists, p);
    hide Located, ListsApart, FreshIn, Stored;
    StoredGrows(lists, c, p);
    LocatedGrows(lists, ids, c, p);
    ListsApartGrow(lists, c, p);
  }

  lemma {:induction false} ListsApartGrow(lists: seq<seq<Posting>>, c: nat, p: Posting)
    requires c < |lists| && ListsApart(lists) && FreshIn(lists, p)
    ensures ListsApart(lists[c := lists[c] + [p]])
  {
    hide UniqueIds, Apart;
    var more := lists[c := lists[c] + [p]];
    AppendUnique(lists[c], p);
    forall d, e | 0 <= d < |more| && 0 <= e < |more| && d != e ensures Apart(more[d], more[e]) {
      assert Apart(lists[d], lists[e]);
      if d == c {
        ApartGrows(lists[d], p, lists[e]);
      } else if e == c {
        ApartGrows(lists[e], p, lists[d]);
        ApartSym(lists[e] + [p], lists[d]);
      }
    }
  }

  lemma {:induction false} ApartSym(a: seq<Posting>, b: seq<Posting>)
    requires Apart(a, b)
    ensures Apart(b, a)
  {
  }

  lemma {:induction false} ApartGrows(a: seq<Posting>, p: Posting, b: seq<Posting>)
    requires (Apart(a, b) || Apart(b, a)) && Apart(b, [p])
    ensures Apart(a + [p], b)
  {
    assert p in [p];
  }

  lemma {:induction false} StoredGrows(lists: seq<seq<Posting>>, c: nat, p: Posting)
    requires c < |lists|
    ensures Stored(lists[c := lists[c] + [p]]) == Stored(lists) + {p}
  {
    var more := lists[c := lists[c] + [p]];
    forall q | q in Stored(lists) + {p} ensures q in Stored(more) {
      if q == p {
        assert p in more[c];
      } else {
        var d :| 0 <= d < |lists| && q in lists[d];
        assert q in more[d];
      }
    }
    forall q | q in Stored(more) ensures q in Stored(lists) + {p} {
      var d :| 0 <= d < |more| && q in more[d];
      assert q in lists[d] || q == p;
    }
  }

  lemma {:induction false} LocatedGrows(lists: seq<seq<Posting>>, ids: map<nat, int>, c: nat, p: Posting)
    requires c < |lists| && Located(lists, ids) && p.id !in ids
    ensures Located(lists[c := lists[c] + [p]], ids[p.id := c])
  {
    var more, ids' := lists[c := lists[c] + [p]], ids[p.id := c];
    StoredGrows(lists, c, p);
    forall id | id in ids' ensures exists q :: q in Stored(more) && q.id == id {
      if id == p.id {
        assert p in Stored(more);
      } else {
        var q :| q in Stored(lists) && q.id == id;
        assert q in Stored(more);
      }
    }
    forall d, q: Posting | 0 <= d < |more| && q in more[d] ensures q.id in ids' && ids'[q.id] == d {
      assert q in lists[d] || (d == c && q == p);
    }
  }

  /** No centroid below the sentinel is closer than centroid c. */
  ghost predicate NearestOf(vector: seq<nat>, c: nat, k: nat, centroid: nat -> seq<nat>,
                            distFn: (seq<nat>, seq<nat>) -> real, sentinel: real) {
    && c < k
    && (forall d: nat :: d < k && distFn(vector, centroid(d)) < sentinel ==>
        distFn(vector, centroid(c)) <= distFn(vector, centroid(d)))
    && forall d: nat :: d < c ==>
        distFn(vector, centroid(c)) < distFn(vector, centroid(d)) && distFn(vector, centroid(c)) < sentinel
  }

  /** Every posting is in the list of a nearest centroid. */
  ghost predicate Placed(lists: seq<seq<Posting>>, centroid: nat -> seq<nat>, distFn: (seq<nat>, seq<nat>) -> real,
                         sentinel: real) {
    forall c: nat, p :: c < |lists| && p in lists[c] ==> NearestOf(p.vector, c, |lists|, centroid, distFn, sentinel)
  }

  lemma {:induction false} PlacedGrows(lists: seq<seq<Posting>>, c: nat, p: Posting, centroid: nat -> seq<nat>,
                                       distFn: (seq<nat>, seq<nat>) -> real, sentinel: real)
    requires c < |lists| && Placed(lists, centroid, distFn, sentinel)
    requires NearestOf(p.vector, c, |lists|, centroid, distFn, sentinel)
    ensures Placed(lists[c := lists[c] + [p]], centroid, distFn, sentinel)
  {
    hide NearestOf;
    var more := lists[c := lists[c] + [p]];
    forall d: nat, q: Posting | d < |more| && q in more[d]
      ensures NearestOf(q.vector, d, |more|, centroid, distFn, sentinel)
    {
      assert q in lists[d] || (d == c && q == p);
    }
  }

  /** The first centroid at least distance, if any is below the sentinel. */
  method Nearest(vector: seq<nat>, k: nat, centroid: nat -> seq<nat>, distFn: (seq<nat>, seq<nat>) -> real,
                 sentinel: real)
    returns (c: nat)
    requires k > 0
    ensures NearestOf(vector, c, k, centroid, distFn, sentinel)
  {
    c := 0;
    var best := sentinel;
    for d := 0 to k
      invariant c < k
      invariant best <= sentinel && (best < sentinel ==> best == distFn(vector, centroid(c)))
      invariant forall e: nat :: e < d ==> best <= distFn(vector, centroid(e))
      invariant forall e: nat :: e < c ==> best < distFn(vector, centroid(e))
      invariant c > 0 ==> best < sentinel
    {
      var x := distFn(vector, centroid(d));
      if x < best {
        best, c := x, d;
      }
    }
  }

  method Assign(all: seq<Posting>, k: nat, centroid: nat -> seq<nat>, distFn: (seq<nat>, seq<nat>) -> real,
                sentinel: real)
    returns (lists: seq<seq<Posting>>, ids: map<nat, int>)
    requires k > 0 && UniqueIds(all)
    ensures |lists| == k && ListsApart(lists) && Located(lists, ids)
    ensures Stored(lists) == Elements(all) && Total(lists) == |all| && Placed(lists, centroid, distFn, sentinel)
  {
    lists, ids := seq(k, _ => []), map[];
    EmptyTotal(k);
    for i := 0 to |all|
      invariant |lists| == k && ListsApart(lists) && Located(lists, ids)
      invariant Stored(lists) == Elements(all[..i]) && Total(lists) == i && Placed(lists, centroid, distFn, sentinel)
    {
      hide Placed, NearestOf, ListsApart, Total, Located, UniqueIds, Stored, Elements;
      var p := all[i];
      var c := Nearest(p.vector, k, centroid, distFn, sentinel);
      NextId(all, i, lists, ids);
      LocatedApart(lists, ids, c, p);
      TotalGrows(lists, c, p);
      PlacedGrows(lists, c, p, centroid, distFn, sentinel);
      lists := lists[c := lists[c] + [p]];
      ids := ids[p.id := c];
    }
    assert all[..|all|] == all;
  }

  lemma {:induction false} NextId(all: seq<Posting>, i: nat, lists: seq<seq<Posting>>, ids: map<nat, int>)
    requires i < |all| && UniqueIds(all) && Located(lists, ids) && Stored(lists) == Elements(all[..i])
    ensures all[i].id !in ids
    ensures Elements(all[..i + 1]) == Elements(all[..i]) + {all[i]}
  {
    assert all[..i + 1] == all[..i] + [all[i]];
    forall p | p in Elements(all[..i]) ensures p.id != all[i].id {
    }
  }

  lemma {:induction false} EmptyTotal(k: nat)
    ensures Total(seq(k, _ => [])) == 0
  {
    if k > 0 {
      EmptyTotal(k - 1);
      var e: seq<seq<Posting>> := seq(k, _ => []);
      assert e[..k - 1] == seq(k - 1, _ => []);
    }
  }

  // ---------------------------------------------------------------- the index

  /** An opened posting file. */
  datatype Store = Store(data: seq<byte>, offsets: map<nat, Slot>)

  ghost predicate Holds(store: Option<Store>, lists: seq<seq<Posting>>, dim: nat) {
    match store
    case None => lists == []
    case Some(s) => ListsOk(lists, dim) && s.data == FileOf(lists, dim) && Opened(s.data) == Some(s.offsets)
  }

  lemma {:induction false} HeldList(s: Store, lists: seq<seq<Posting>>, dim: nat, c: nat)
    requires Holds(Some(s), lists, dim)
    ensures Postings(s.data, dim, s.offsets, c) == Found(if c < |lists| then lists[c] else [])
    ensures c in s.offsets <==> c < |lists| && lists[c] != []
  {
    hide Postings, Opened, FileOf, ListsOk;
    ReadBack(lists, dim, c);
    OpenedFile(lists, dim);
    DirectoryMeans(lists, dim, c);
  }

  /** The postings held by some of the lists. */
  ghost function StoredIn(lists: seq<seq<Posting>>, which: set<nat>): set<Posting> {
    set c, p | c in which && 0 <= c < |lists| && p in lists[c] :: p
  }

  lemma {:induction false} StoredInGrows(lists: seq<seq<Posting>>, done: set<nat>, c: nat, deleted: set<nat>)
    requires c < |lists|
    ensures Kept(StoredIn(lists, done + {c}), deleted) == Kept(StoredIn(lists, done), deleted) +
              Kept(Elements(lists[c]), deleted)
  {
    assert StoredIn(lists, done + {c}) == StoredIn(lists, done) + Elements(lists[c]);
  }

  class SPANNIndex {
    const dim: nat
    const numCents: nat
    const distFn: (seq<nat>, seq<nat>) -> real
    const sentinel: real
    var store: Option<Store>
    var idToCentroid: map<nat, int>
    var deleted: set<nat>
    var dirtyBuf: seq<Posting>
    var built: bool
    /** The posting lists in the file. */
    ghost var lists: seq<seq<Posting>>

    /** Buffer and file hold each id at most once. */
    ghost predicate ContentsOk()
      reads this
    {
      && UniqueIds(dirtyBuf) && ListsApart(lists) && Holds(store, lists, dim)
      && (forall c :: 0 <= c < |lists| ==> Apart(dirtyBuf, lists[c]))
      && forall p :: p in dirtyBuf ==> PostingOk(p, dim)
    }

    /** The id map names what the file holds and, once built, what the buffer holds. */
    ghost predicate IdsOk()
      reads this
    {
      && (built <==> store.Some?)
      && (forall id :: id in deleted ==> exists p :: p in Elements(dirtyBuf) + Stored(lists) && p.id == id)
      && forall id :: id in idToCentroid <==>
           (exists p :: p in Stored(lists) && p.id == id) || (built && exists p :: p in dirtyBuf && p.id == id)
    }

    ghost predicate Valid()
      reads this
    {
      numCents > 0 && ContentsOk() && IdsOk()
    }

    /** The live contents. */
    ghost function Live(): set<Posting>
      reads this
    {
      Kept(Elements(dirtyBuf) + Stored(lists), deleted)
    }

    constructor (dim: nat, numCentroids: int, distFn: (seq<nat>, seq<nat>) -> real, sentinel: real)
      ensures Valid() && Live() == {} && !built && this.dim == dim && dirtyBuf == []
      ensures this.distFn == distFn && this.sentinel == sentinel
      ensures numCents == if numCentroids <= 0 then 256 else numCentroids
    {
      this.dim, this.distFn, this.sentinel := dim, distFn, sentinel;
      numCents := if numCentroids <= 0 then 256 else numCentroids;
      store, idToCentroid, deleted, dirtyBuf, built, lists := None, map[], {}, [], false, [];
      new;
      hide FileOf, PostingStore.Opened;
      assert Stored(lists) == {} && Elements(dirtyBuf) == {};
    }

    /** Buffers a vector under an id that is neither in the file nor in the buffer. */
    method Insert(id: nat, vector: seq<nat>) returns (ok: bool)
      requires Valid() && id < U64 && forall w :: w in vector ==> w < U32
      modifies this
      ensures Valid() && store == old(store) && lists == old(lists) && deleted == old(deleted)
      ensures ok <==> |vector| == dim && forall p :: p in Elements(old(dirtyBuf)) + Stored(lists) ==> p.id != id
      ensures dirtyBuf == if ok then old(dirtyBuf) + [Posting(id, vector)] else old(dirtyBuf)
      ensures ok ==> Live() == old(Live()) + {Posting(id, vector)}
    {
      hide UniqueIds, ListsApart, Holds, Apart;
      ok := false;
      if |vector| != dim || id in idToCentroid { return; }
      for i := 0 to |dirtyBuf|
        invariant forall j :: 0 <= j < i ==> dirtyBuf[j].id != id
      {
        if dirtyBuf[i].id == id {
          assert dirtyBuf[i] in Elements(old(dirtyBuf));
          return;
        }
      }
      var p := Posting(id, vector);
      BufferGrows(p);
      dirtyBuf := dirtyBuf + [p];
      if built {
        idToCentroid := idToCentroid[id := -1];
        assert p in dirtyBuf;
      }
      ok := true;
    }

    lemma {:induction false} BufferGrows(p: Posting)
      requires ContentsOk()
      requires forall q :: q in Elements(dirtyBuf) + Stored(lists) ==> q.id != p.id
      ensures UniqueIds(dirtyBuf + [p])
      ensures forall c :: 0 <= c < |lists| ==> Apart(dirtyBuf + [p], lists[c])
    {
      forall q | q in dirtyBuf ensures q.id != p.id {
        assert q in Elements(dirtyBuf);
      }
      AppendUnique(dirtyBuf, p);
      forall c | 0 <= c < |lists| ensures Apart(dirtyBuf + [p], lists[c]) {
        forall q | q in lists[c] ensures q.id != p.id {
          assert q in Stored(lists);
        }
        ApartGrows(dirtyBuf, p, lists[c]);
      }
    }

    /** Marks a known id deleted. */
    method Delete(id: nat) returns (found: bool)
      requires Valid()
      modifies this`deleted
      ensures Valid()
      ensures found <==> exists p :: p in Elements(dirtyBuf) + Stored(lists) && p.id == id
      ensures deleted == if found then old(deleted) + {id} else old(deleted)
      ensures Live() == set p | p in old(Live()) && p.id != id
    {
      hide UniqueIds, ListsApart, Holds, Apart;
      found := id in idToCentroid;
      if !found {
        for i := 0 to |dirtyBuf|
          invariant forall j :: 0 <= j < i ==> dirtyBuf[j].id != id
        {
          if dirtyBuf[i].id == id {
            assert dirtyBuf[i] in Elements(dirtyBuf);
            found := true;
            break;
          }
        }
      }
      if found {
        deleted := deleted + {id};
      }
    }

    /** Appends the live postings of the file, list after list in any order. */
    method AppendStored(out0: seq<Posting>) returns (out: seq<Posting>)
      requires ContentsOk() && UniqueIds(out0) && forall c :: 0 <= c < |lists| ==> Apart(out0, lists[c])
      ensures UniqueIds(out) && Elements(out) == Elements(out0) + Kept(Stored(lists), deleted)
    {
      out := out0;
      if store.None? {
        return;
      }
      var s := store.value;
      var todo := s.offsets.Keys;
      ghost var done: set<nat> := {};
      while todo != {}
        invariant forall c :: c in s.offsets <==> c in todo || c in done
        invariant todo !! done
        invariant UniqueIds(out) && Elements(out) == Elements(out0) + Kept(StoredIn(lists, done), deleted)
      {
        hide UniqueIds, ListsApart, Holds, Apart, StoredIn;
        var c :| c in todo;
        HeldList(s, lists, dim, c);
        var posts := GetPostings(s.data, dim, s.offsets, c);
        NextStored(out0, out, c, done);
        out := AppendLive(out, posts.postings, deleted);
        StoredInGrows(lists, done, c, deleted);
        todo, done := todo - {c}, done + {c};
      }
      AllStored(s, done);
    }

    lemma {:induction false} NextStored(out0: seq<Posting>, out: seq<Posting>, c: nat, done: set<nat>)
      requires ContentsOk() && c < |lists| && c !in done && forall c :: 0 <= c < |lists| ==> Apart(out0, lists[c])
      requires Elements(out) == Elements(out0) + Kept(StoredIn(lists, done), deleted)
      ensures UniqueIds(lists[c]) && Apart(out, lists[c])
    {
      hide Holds;
      forall p, q | p in out && q in lists[c] ensures p.id != q.id {
        assert p in Elements(out);
        if p in out0 {
          assert Apart(out0, lists[c]);
        } else {
          var d :| d in done && 0 <= d < |lists| && p in lists[d];
          assert Apart(lists[d], lists[c]);
        }
      }
    }

    /** Lists without a slot are empty. */
    lemma {:induction false} AllStored(s: Store, done: set<nat>)
      requires Holds(Some(s), lists, dim) && forall c :: c in s.offsets <==> c in done
      ensures StoredIn(lists, done) == Stored(lists)
    {
      forall p | p in Stored(lists) ensures p in StoredIn(lists, done) {
        var c :| 0 <= c < |lists| && p in lists[c];
        HeldList(s, lists, dim, c);
      }
    }

    lemma {:induction false} StoredVersusBuffer(out: seq<Posting>)
      requires ContentsOk() && Elements(out) == Kept(Stored(lists), deleted)
      ensures Apart(out, dirtyBuf)
    {
      forall p, q | p in out && q in dirtyBuf ensures p.id != q.id {
        assert p in Elements(out);
        var c :| 0 <= c < |lists| && p in lists[c];
        assert Apart(dirtyBuf, lists[c]);
      }
    }

    /** Every live vector once: those of the file, then those of the buffer. */
    method ExportVectors() returns (out: seq<Posting>)
      requires Valid()
      ensures UniqueIds(out) && Elements(out) == Live() && |out| == |Live()|
    {
      hide ListsApart, Holds, UniqueIds, Apart, Stored, Kept, Elements;
      BufferFirst();
      out := AppendStored([]);
      StoredVersusBuffer(out);
      out := AppendLive(out, dirtyBuf, deleted);
      UniqueCount(out);
    }

    /** The live postings, those of the buffer first. */
    method CollectLive() returns (all: seq<Posting>)
      requires ContentsOk()
      ensures UniqueIds(all) && Elements(all) == Live() && |all| == |Live()|
    {
      hide ListsApart, Holds, UniqueIds;
      BufferFirst();
      all := AppendLive([], dirtyBuf, deleted);
      LiveBufferApart(all);
      all := AppendStored(all);
      UniqueCount(all);
    }

    lemma {:induction false} BufferFirst()
      ensures UniqueIds([]) && Apart([], dirtyBuf) && Elements<Posting>([]) == {}
      ensures forall c :: 0 <= c < |lists| ==> Apart([], lists[c])
      ensures Kept(Elements(dirtyBuf), deleted) + Kept(Stored(lists), deleted) == Live()
    {
    }

    lemma {:induction false} LiveBufferApart(s: seq<Posting>)
      requires ContentsOk() && Elements(s) == Kept(Elements(dirtyBuf), deleted)
      ensures forall c :: 0 <= c < |lists| ==> Apart(s, lists[c])
    {
      forall p | p in s ensures p in dirtyBuf {
        assert p in Elements(s);
      }
    }

    lemma {:induction false} LiveOk()
      requires ContentsOk()
      ensures forall p :: p in Live() ==> PostingOk(p, dim)
    {
      forall p | p in Live() ensures PostingOk(p, dim) {
        if p in Stored(lists) {
          var c :| 0 <= c < |lists| && p in lists[c];
          assert ListOk(lists[c], dim);
        }
      }
    }

    /**
     Spreads the live postings over posting lists by nearest centroid, whatever the
     centroids, writes the file and reopens it; with nothing live it does nothing.
     */
    method Rebuild(centroid: nat -> seq<nat>)
      requires Valid() && |Live()| < U32 && Times(|Live()|, RecordSize(dim)) < I64
      modifies this
      ensures Valid() && Live() == old(Live())
      ensures old(Live()) != {} ==>
                && built && dirtyBuf == [] && deleted == {}
                && |lists| == (if numCents < |old(Live())| then numCents else |old(Live())|)
                && Located(lists, idToCentroid) && Placed(lists, centroid, distFn, sentinel)
      ensures old(Live()) == {} ==>
                && store == old(store) && dirtyBuf == old(dirtyBuf) && deleted == old(deleted)
                && built == old(built) && idToCentroid == old(idToCentroid) && lists == old(lists)
    {
      hide ListsApart, Holds, UniqueIds, Located, ListsOk, Opened, FileOf, LongEnough, Times, RecordSize, Placed;
      var all := CollectLive();
      if |all| == 0 {
        return;
      }
      var k := if numCents > |all| then |all| else numCents;
      var newLists, ids := Assign(all, k, centroid, distFn, sentinel);
      LiveOk();
      NewListsOk(newLists, dim);
      var file := WritePostings(newLists, dim);
      OpenedFile(newLists, dim);
      var offsets := ReadHeader(file.value);
      ReopenedHolds(file.value, offsets.value, newLists, dim);
      Commit(file.value, offsets.value, newLists, ids);
    }

    /** Switches to the new file and forgets buffer and deletions. */
    method Commit(data: seq<byte>, offsets: map<nat, Slot>, ghost newLists: seq<seq<Posting>>, ids: map<nat, int>)
      requires numCents > 0 && ListsApart(newLists) && Holds(Some(Store(data, offsets)), newLists, dim)
      requires Located(newLists, ids)
      modifies this
      ensures Valid() && Live() == Stored(newLists) && lists == newLists && idToCentroid == ids
      ensures built && dirtyBuf == [] && deleted == {}
    {
      hide ListsApart, Holds;
      store, lists, idToCentroid := Some(Store(data, offsets)), newLists, ids;
      dirtyBuf, deleted, built := [], {}, true;
      LocatedNames(newLists, ids);
    }
  }

  lemma {:induction false} LocatedNames(lists: seq<seq<Posting>>, ids: map<nat, int>)
    requires Located(lists, ids)
    ensures forall id :: id in ids <==> exists p :: p in Stored(lists) && p.id == id
  {
    forall p | p in Stored(lists) ensures p.id in ids {
      var c :| 0 <= c < |lists| && p in lists[c];
    }
  }

  /** Lists that spread postings of the right shape fit the file format. */
  lemma {:induction false} NewListsOk(lists: seq<seq<Posting>>, dim: nat)
    requires |lists| < U32 && Total(lists) < U32 && Times(Total(lists), RecordSize(dim)) < I64
    requires forall p :: p in Stored(lists) ==> PostingOk(p, dim)
    ensures ListsOk(lists, dim) && forall c :: 0 <= c < |lists| ==> LongEnough(lists[c], dim)
  {
    hide Total, Times, RecordSize, DataOf, PostingOk, Stored, ListOk, LongEnough;
    forall c | 0 <= c < |lists| ensures ListOk(lists[c], dim) && LongEnough(lists[c], dim) {
      OneListOk(lists, dim, c);
    }
    DataLength(lists, dim);
  }

  lemma {:induction false} OneListOk(lists: seq<seq<Posting>>, dim: nat, c: nat)
    requires Total(lists) < U32 && c < |lists| && forall p :: p in Stored(lists) ==> PostingOk(p, dim)
    ensures ListOk(lists[c], dim) && LongEnough(lists[c], dim)
  {
    hide PostingOk, Total, LongEnough;
    TotalBounds(lists, c);
    forall p | p in lists[c] ensures PostingOk(p, dim) {
      assert p in Stored(lists);
    }
    OkIsLong(lists[c], dim);
  }

  lemma {:induction false} OkIsLong(l: seq<Posting>, dim: nat)
    requires forall p :: p in l ==> PostingOk(p, dim)
    ensures LongEnough(l, dim)
  {
    forall j | 0 <= j < |l| ensures |l[j].vector| >= dim {
      assert l[j] in l;
    }
  }

  lemma {:induction false} ReopenedHolds(data: seq<byte>, offsets: map<nat, Slot>, lists: seq<seq<Posting>>, dim: nat)
    requires ListsOk(lists, dim) && data == FileOf(lists, dim) && Opened(data) == Some(offsets)
    ensures Holds(Some(Store(data, offsets)), lists, dim)
  {
  }
}
