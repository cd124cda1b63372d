/** The inverted-file index: posting lists per cluster, a flat dirty buffer, and rebuilds in a drain and a swap step. */
module Ivf {
  import opened Common
  import opened Ranking
  import opened Selection
  import opened Rows
  import opened Flat
  import opened PostingLists
  import opened ScatterGather

  // ---------------------------------------------------------------- merging two answers

  lemma {:induction false} ExtendWithRest(result: seq<Hit>, rest: seq<Hit>)
    requires Ascending(result) && Ascending(rest)
    requires forall i, j :: 0 <= i < |result| && 0 <= j < |rest| ==> result[i].dist <= rest[j].dist
    ensures Ascending(result + rest)
  {
  }

  lemma {:induction false} SortedWitness(rest: multiset<Hit>) returns (s: seq<Hit>)
    ensures Ascending(s) && multiset(s) == rest
    decreases |rest|
  {
    s := [];
    if rest != multiset{} {
      var x :| x in rest;
      var t := SortedWitness(rest - multiset{x});
      s := InsertWitness(t, x);
    }
  }

  lemma {:induction false} InsertWitness(t: seq<Hit>, x: Hit) returns (s: seq<Hit>)
    requires Ascending(t)
    ensures Ascending(s) && multiset(s) == multiset(t) + multiset{x}
  {
    var k := |t|;
    while k > 0 && x.dist < t[k - 1].dist
      invariant 0 <= k <= |t|
      invariant k < |t| ==> x.dist < t[k].dist
    {
      k := k - 1;
    }
    SpliceAscends(t, k, x);
    SpliceContents(t, k, x);
    s := t[..k] + [x] + t[k..];
  }

  /** Selecting k of the deduplicated hits of two exact answers is an exact answer over both. */
  lemma {:induction false} MergedSelection(a: seq<Hit>, b: seq<Hit>, ma: map<nat, real>, mb: map<nat, real>, k: nat,
                        all: seq<Hit>, r: seq<Hit>, rest: multiset<Hit>)
    requires IsTopK(a, ma, k) && IsTopK(b, mb, k) && Agreeing(ma, mb)
    requires DistinctIds(all) && forall h :: h in all <==> h in a || h in b
    requires Ascending(r) && Selects(r, rest, multiset(all), k)
    ensures IsTopK(r, ma + mb, k)
  {
    hide IsTopK, Selects, Combines, Gathered, Ids;
    var deduped := SelectedFirst(all, r, rest, k);
    var responses, shards := [a, b], [ma, mb];
    GatheredPair(a, b);
    forall h ensures h in deduped <==> h in Gathered(responses) {
      assert h in multiset(deduped) <==> h in multiset(all);
    }
    assert ExactAnswers(responses, shards, k);
    CombinesTwo(ma, mb);
    SameIds(deduped, Gathered(responses));
    MergedIsTopK(responses, shards, ma + mb, k, deduped, r);
  }

  /** The selection followed by the sorted remainder: an ascending arrangement whose first k are the selection. */
  lemma {:induction false} SelectedFirst(all: seq<Hit>, r: seq<Hit>, rest: multiset<Hit>, k: nat)
    returns (deduped: seq<Hit>)
    requires DistinctIds(all) && Ascending(r) && Selects(r, rest, multiset(all), k)
    ensures Ascending(deduped) && DistinctIds(deduped) && multiset(deduped) == multiset(all)
    ensures r == if |deduped| > k then deduped[..k] else deduped
  {
    var tail := SortedWitness(rest);
    deduped := r + tail;
    forall i, j | 0 <= i < |r| && 0 <= j < |tail| ensures r[i].dist <= tail[j].dist {
      assert tail[j] in multiset(tail);
    }
    ExtendWithRest(r, tail);
    PermutedDistinct(all, deduped);
  }

  lemma {:induction false} SameIds(s: seq<Hit>, t: seq<Hit>)
    requires forall h :: h in s <==> h in t
    ensures Ids(s) == Ids(t)
  {
  }

  /** When shared ids have the same distance, deduplication loses no hit. */
  lemma {:induction false} UnseenKeepsHits(a: seq<Hit>, b: seq<Hit>, ma: map<nat, real>, mb: map<nat, real>, k: int)
    requires IsTopK(a, ma, k) && IsTopK(b, mb, k) && Agreeing(ma, mb)
    ensures var all := Unseen(Unseen([], a), b); DistinctIds(all) && forall h :: h in all <==> h in a || h in b
  {
    UnseenIds([], a);
    UnseenIds(Unseen([], a), b);
    PricedBy(a, ma, k);
    PricedBy(b, mb, k);
    hide Unseen, IsTopK;
    var first := Unseen([], a);
    var all := Unseen(first, b);
    forall h | h in a ensures h in all {
      assert h.id in Ids(first);
      var g :| g in first && g.id == h.id;
      assert g == h;
    }
    forall h | h in b ensures h in all {
      assert h.id in Ids(all);
      var g :| g in all && g.id == h.id;
      assert g.dist == h.dist;
    }
  }

  lemma {:induction false} PricedBy(r: seq<Hit>, m: map<nat, real>, k: int)
    requires IsTopK(r, m, k)
    ensures forall h :: h in r ==> h.id in m && h.dist == m[h.id]
  {
  }

  /** r merges two answers: the other one if one is empty, else the k closest after deduplication. */
  ghost predicate MergeOf(r: seq<Hit>, a: seq<Hit>, b: seq<Hit>, k: int, rest: multiset<Hit>) {
    if a == [] then r == b
    else if b == [] then r == a
    else Ascending(r) && Selects(r, rest, multiset(Unseen(Unseen([], a), b)), k)
  }

  /** Two exact answers whose shared ids agree merge to an exact answer over both. */
  lemma {:induction false} MergedIsExact(r: seq<Hit>, a: seq<Hit>, b: seq<Hit>, k: nat, rest: multiset<Hit>,
                                         ma: map<nat, real>, mb: map<nat, real>)
    requires MergeOf(r, a, b, k, rest) && k > 0 && IsTopK(a, ma, k) && IsTopK(b, mb, k) && Agreeing(ma, mb)
    ensures IsTopK(r, ma + mb, k)
  {
    if a == [] {
      assert ma == map[];
      assert ma + mb == mb;
    } else if b == [] {
      assert mb == map[];
      assert ma + mb == ma;
    } else {
      UnseenKeepsHits(a, b, ma, mb, k);
      hide IsTopK, Unseen, Selects;
      MergedSelection(a, b, ma, mb, k, Unseen(Unseen([], a), b), r, rest);
    }
  }

  /** Merges the posting-list and dirty-buffer answers, whatever ids they share. */
  method MergeResults(a: seq<Hit>, b: seq<Hit>, k: int) returns (r: seq<Hit>, ghost rest: multiset<Hit>)
    ensures MergeOf(r, a, b, k, rest)
    ensures (a == [] ==> r == b) && (b == [] ==> r == a) && (a != [] && b != [] ==> Ascending(r))
  {
    rest := multiset{};
    if |a| == 0 {
      return b, rest;
    }
    if |b| == 0 {
      return a, rest;
    }
    var all, seen := AppendUnseen([], {}, a);
    all, seen := AppendUnseen(all, seen, b);
    var distances := seq(|all|, i requires 0 <= i < |all| => all[i].dist);
    var ids := seq(|all|, i requires 0 <= i < |all| => all[i].id);
    r, rest := TopK(distances, ids, k);
    assert Zip(distances, ids) == all;
  }

  lemma {:induction false} AnswerIds(r: seq<Hit>, m: map<nat, real>, k: int)
    requires IsTopK(r, m, k)
    ensures Ids(r) <= m.Keys && DistinctIds(r)
  {
  }

  // ---------------------------------------------------------------- nearest centroids

  ghost function CentroidDistances(distFn: (Vec, Vec) -> real, query: Vec, centroids: seq<Vec>): map<nat, real> {
    map c: nat | c < |centroids| :: distFn(query, centroids[c])
  }

  /** The first i entries are in their final places: ascending and no farther than the others. */
  ghost predicate PrefixSelected(d: seq<Hit>, i: nat) {
    && i <= |d|
    && forall p, q :: 0 <= p < i && p < q < |d| ==> d[p].dist <= d[q].dist
  }

  /** One round of the partial selection sort. */
  method SelectNext(d: seq<Hit>, i: nat) returns (r: seq<Hit>)
    requires i < |d| && PrefixSelected(d, i)
    ensures |r| == |d| && multiset(r) == multiset(d) && PrefixSelected(r, i + 1)
  {
    var minIdx := i;
    for j := i + 1 to |d|
      invariant i <= minIdx < j
      invariant forall q :: i <= q < j ==> d[minIdx].dist <= d[q].dist
    {
      if d[j].dist < d[minIdx].dist {
        minIdx := j;
      }
    }
    r := d[i := d[minIdx]][minIdx := d[i]];
    forall p, q | 0 <= p < i + 1 && p < q < |r| ensures r[p].dist <= r[q].dist {
      var q' := if q == i then minIdx else if q == minIdx then i else q;
      assert r[q] == d[q'];
      assert r[p] == if p == i then d[minIdx] else d[p];
    }
  }

  /** The k nearest centroids by partial selection sort. */
  method NearestKCentroids(distFn: (Vec, Vec) -> real, centroids: seq<Vec>, query: Vec, k0: nat) returns (r: seq<Hit>)
    ensures IsTopK(r, CentroidDistances(distFn, query, centroids), k0)
  {
    var k := Min(k0, |centroids|);
    var dists := seq(|centroids|, c requires 0 <= c < |centroids| => Hit(c, distFn(query, centroids[c])));
    ghost var all := dists;
    AllCentroids(distFn, query, centroids, all);
    hide PrefixSelected, Tabulates;
    PrefixOfNone(dists);
    for i := 0 to k
      invariant |dists| == |all| && multiset(dists) == multiset(all) && PrefixSelected(dists, i)
    {
      dists := SelectNext(dists, i);
    }
    r := dists[..k];
    PrefixSelects(dists, k, k0);
    SelectionIsTopK(r, multiset(dists[k..]), multiset(all), CentroidDistances(distFn, query, centroids), k0);
  }

  lemma {:induction false} PrefixOfNone(d: seq<Hit>)
    ensures PrefixSelected(d, 0)
  {
  }

  lemma {:induction false} AllCentroids(distFn: (Vec, Vec) -> real, query: Vec, centroids: seq<Vec>, all: seq<Hit>)
    requires |all| == |centroids| && forall c :: 0 <= c < |all| ==> all[c] == Hit(c, distFn(query, centroids[c]))
    ensures Tabulates(multiset(all), CentroidDistances(distFn, query, centroids))
  {
    var m := CentroidDistances(distFn, query, centroids);
    forall c | c in m ensures exists i :: 0 <= i < |all| && all[i].id == c {
      assert all[c].id == c;
    }
    DistinctCounts(all, m);
  }

  lemma {:induction false} PrefixSelects(d: seq<Hit>, k: nat, k0: nat)
    requires PrefixSelected(d, k) && k == Min(k0, |d|)
    ensures Ascending(d[..k]) && Selects(d[..k], multiset(d[k..]), multiset(d), k0)
  {
    assert d == d[..k] + d[k..];
    forall i, y | 0 <= i < k && y in multiset(d[k..]) ensures d[i].dist <= y.dist {
      assert y in d[k..];
    }
  }

  // ---------------------------------------------------------------- the index

  class IVFIndex {
    const dim: nat
    const distFn: (Vec, Vec) -> real
    const defaultProbe: nat
    var centroids: seq<Vec>
    var postingList: seq<seq<nat>>
    var clusterOf: map<nat, nat>
    var built: bool
    var table: Table<real>
    var dirty: FlatIndex

    /** What the latest rebuild took with it, if it is between its drain and its swap. */
    ghost var inFlight: Option<map<nat, Vec>>

    ghost predicate Valid()
      reads this, dirty
    {
      && TableOk(table, dim) && dirty.Valid() && dirty.dim == dim && dirty.distFn == distFn
      && PostingsOk(postingList, clusterOf) && clusterOf.Keys == table.idToRow.Keys
      && (built ==> |centroids| == |postingList|)
      && (!built ==> table.count == 0)
    }

    ghost function Main(): map<nat, Vec>
      requires Valid()
      reads this, dirty
    {
      Contents(table, dim)
    }

    /**
     The vectors the index stands for: the stored ones, or what an unfinished rebuild will
     restore, plus the buffer.
     */
    ghost function Vectors(): map<nat, Vec>
      requires Valid()
      reads this, dirty
    {
      (if inFlight.Some? then inFlight.value else Main()) + dirty.Stored()
    }

    /** No id is in both tiers. */
    ghost predicate TiersApart()
      requires Valid()
      reads this, dirty
    {
      Main().Keys !! dirty.Stored().Keys
    }

    /** Nor will one be when the rebuild under way, which holds all that is stored, has finished. */
    ghost predicate Coherent()
      requires Valid()
      reads this, dirty
    {
      TiersApart() && (inFlight.Some? ==>
                       Main().Keys <= inFlight.value.Keys && inFlight.value.Keys !! dirty.Stored().Keys)
    }

    constructor (dim: nat, distFn: (Vec, Vec) -> real, defaultProbe: nat)
      ensures Valid() && Coherent() && Vectors() == map[] && inFlight.None?
      ensures this.dim == dim && this.distFn == distFn && !built
      ensures this.defaultProbe == if defaultProbe == 0 then 5 else defaultProbe
      ensures fresh(dirty)
    {
      this.dim, this.distFn := dim, distFn;
      this.defaultProbe := if defaultProbe == 0 then 5 else defaultProbe;
      centroids, postingList, clusterOf, built := [], [], map[], false;
      table := Table(seq(INITIAL_CAPACITY, _ => []), seq(INITIAL_CAPACITY, _ => 0), map[], 0);
      dirty := new FlatIndex(dim, distFn);
      inFlight := None;
    }

    /**
     Buffers a vector unless its id is stored or buffered. Ids drained by an
     unfinished rebuild are not checked: exactly re-inserting one of those breaks coherence.
     */
    method Insert(id: nat, vector: Vec) returns (ok: bool)
      requires Valid()
      modifies dirty
      ensures Valid() && inFlight == old(inFlight)
      ensures ok <==> |vector| == dim && id !in old(Main()) && id !in old(dirty.Stored())
      ensures Main() == old(Main())
      ensures dirty.Stored() == if ok then old(dirty.Stored())[id := vector] else old(dirty.Stored())
      ensures Vectors() == if ok then old(Vectors())[id := vector] else old(Vectors())
      ensures old(Coherent()) ==> (Coherent() <==> !(ok && inFlight.Some? && id in inFlight.value))
    {
      hide TableOk, Contents, PostingsOk;
      if |vector| != dim || id in table.idToRow || id in dirty.table.idToRow {
        return false;
      }
      ok := dirty.Insert(id, vector);
    }

    /**
     Deletes from the stored rows or else from the buffer. It takes effect exactly
     when no unfinished rebuild holds the id.
     */
    method Delete(id: nat)
      requires Valid()
      modifies this, dirty
      ensures Valid() && inFlight == old(inFlight) && dirty == old(dirty)
      ensures Main() == old(Main()) - {id} && clusterOf == old(clusterOf) - {id}
      ensures centroids == old(centroids) && built == old(built)
      ensures dirty.Stored() == if id in old(Main()) then old(dirty.Stored()) else old(dirty.Stored()) - {id}
      ensures old(Coherent()) ==> Coherent()
      ensures old(Coherent()) ==>
                Vectors() == if inFlight.Some? && id in inFlight.value then old(Vectors()) else old(Vectors()) - {id}
    {
      hide TableOk, Contents, PostingsOk;
      if id in table.idToRow {
        RemoveStored(id);
      } else {
        var _ := dirty.Delete(id);
      }
    }

    /** Drops a stored id from its posting list and its row. */
    method RemoveStored(id: nat)
      requires Valid() && id in table.idToRow
      modifies this`table, this`postingList, this`clusterOf
      ensures Valid() && Main() == old(Main()) - {id} && clusterOf == old(clusterOf) - {id}
    {
      hide TableOk, Contents, PostingsOk, WithoutRow, NoRepeats;
      var c := clusterOf[id];
      PostingOf(postingList, clusterOf, id);
      var list := RemoveFromList(postingList[c], id);
      RemovedPostingsOk(postingList, clusterOf, id, list);
      RowOf(table, dim, id);
      WithoutRowOk(table, dim, id);
      var smaller := WithoutRow(table, id);
      postingList := postingList[c := list];
      clusterOf := clusterOf - {id};
      table := smaller;
    }

    // ---------------------------------------------------------------- search

    /** The stored vectors whose cluster is probed. */
    ghost function Probed(probed: set<nat>): (p: map<nat, Vec>)
      requires Valid()
      reads this, dirty
      ensures p.Keys <= Main().Keys
    {
      map id | id in Main() && clusterOf[id] in probed :: Main()[id]
    }

    /** hits has one hit per stored id in the done clusters, and per id among the first j entries of list c. */
    ghost predicate GatheredSoFar(query: Vec, hits: seq<Hit>, done: set<nat>, c: nat, j: nat)
      requires Valid() && c < |postingList| && j <= |postingList[c]|
      reads this, dirty
    {
      forall e: Hit :: multiset(hits)[e] ==
        if e.id in Main() && e.dist == distFn(query, Main()[e.id])
           && (clusterOf[e.id] in done || e.id in postingList[c][..j]) then 1 else 0
    }

    lemma {:induction false} GatherOne(query: Vec, hits: seq<Hit>, done: set<nat>, c: nat, j: nat, h: Hit)
      requires Valid() && c < |postingList| && j < |postingList[c]| && c !in done
      requires GatheredSoFar(query, hits, done, c, j)
      requires h.id == postingList[c][j] && h.id in Main() && h.dist == distFn(query, Main()[h.id])
      ensures GatheredSoFar(query, hits + [h], done, c, j + 1)
    {
      hide TableOk, Contents;
      var l := postingList[c];
      assert l[..j + 1] == l[..j] + [l[j]];
      assert clusterOf[h.id] == c && h.id !in l[..j];
    }

    lemma {:induction false} GatherList(query: Vec, hits: seq<Hit>, done: set<nat>, c: nat, d: nat)
      requires Valid() && c < |postingList| && d < |postingList|
      requires GatheredSoFar(query, hits, done, c, |postingList[c]|)
      ensures GatheredSoFar(query, hits, done + {c}, d, 0)
    {
      hide TableOk, Contents;
      var l := postingList[c];
      assert l[..|l|] == l;
      forall id | id in Main() ensures clusterOf[id] == c <==> id in l {}
    }

    /** Distances of all vectors in one posting list, appended to what was gathered from earlier lists. */
    method GatherCluster(query: Vec, c: nat, ids0: seq<nat>, dists0: seq<real>, ghost done: set<nat>)
      returns (ids: seq<nat>, dists: seq<real>)
      requires Valid() && c < |postingList| && c !in done && |ids0| == |dists0|
      requires GatheredSoFar(query, Zip(dists0, ids0), done, c, 0)
      ensures |ids| == |dists| && GatheredSoFar(query, Zip(dists, ids), done, c, |postingList[c]|)
    {
      hide PostingsOk, GatheredSoFar;
      ids, dists := ids0, dists0;
      for j := 0 to |postingList[c]|
        invariant |ids| == |dists| && GatheredSoFar(query, Zip(dists, ids), done, c, j)
      {
        var id := postingList[c][j];
        ListedIsStored(c, j);
        var d := distFn(query, table.vectors[table.idToRow[id]]);
        GatherOne(query, Zip(dists, ids), done, c, j, Hit(id, d));
        assert Zip(dists + [d], ids + [id]) == Zip(dists, ids) + [Hit(id, d)];
        ids, dists := ids + [id], dists + [d];
      }
    }

    lemma {:induction false} ListedIsStored(c: nat, j: nat)
      requires Valid() && c < |postingList| && j < |postingList[c]|
      ensures postingList[c][j] in table.idToRow
    {
      assert postingList[c][j] in postingList[c];
    }

    /** Exact search of the lists of the given distinct clusters. */
    method SearchLists(query: Vec, clusters: seq<Hit>, k: int) returns (results: seq<Hit>)
      requires Valid() && DistinctIds(clusters)
      requires forall i :: 0 <= i < |clusters| ==> clusters[i].id < |postingList|
      ensures IsTopK(results, Distances(distFn, query, Probed(Ids(clusters))), k)
    {
      hide TableOk, Contents, PostingsOk, GatheredSoFar, IsTopK, Selects;
      var ids: seq<nat>, dists: seq<real> := [], [];
      if |clusters| > 0 {
        NothingGathered(query, clusters[0].id);
        assert clusters[..0] == [] && Ids([]) == {} && Zip(dists, ids) == [];
      }
      for i := 0 to |clusters|
        invariant |ids| == |dists|
        invariant i < |clusters| ==> GatheredSoFar(query, Zip(dists, ids), Ids(clusters[..i]), clusters[i].id, 0)
        invariant 0 < i == |clusters| ==> GatheredSoFar(query, Zip(dists, ids), Ids(clusters), clusters[0].id, 0)
        invariant |clusters| == 0 ==> ids == []
      {
        assert clusters[..i + 1] == clusters[..i] + [clusters[i]];
        IdsAppend(clusters[..i], clusters[i]);
        ids, dists := GatherCluster(query, clusters[i].id, ids, dists, Ids(clusters[..i]));
        GatherList(query, Zip(dists, ids), Ids(clusters[..i]), clusters[i].id,
                   clusters[if i + 1 < |clusters| then i + 1 else 0].id);
        assert i + 1 == |clusters| ==> clusters[..i + 1] == clusters;
      }
      ghost var rest;
      results, rest := TopK(dists, ids, k);
      GatheredTabulates(query, clusters, Zip(dists, ids));
      SelectionIsTopK(results, rest, multiset(Zip(dists, ids)), Distances(distFn, query, Probed(Ids(clusters))), k);
    }

    lemma {:induction false} NothingGathered(query: Vec, c: nat)
      requires Valid() && c < |postingList|
      ensures GatheredSoFar(query, [], {}, c, 0)
    {
    }

    lemma {:induction false} GatheredTabulates(query: Vec, clusters: seq<Hit>, hits: seq<Hit>)
      requires Valid()
      requires forall i :: 0 <= i < |clusters| ==> clusters[i].id < |postingList|
      requires |clusters| > 0 ==> GatheredSoFar(query, hits, Ids(clusters), clusters[0].id, 0)
      requires |clusters| == 0 ==> hits == []
      ensures Tabulates(multiset(hits), Distances(distFn, query, Probed(Ids(clusters))))
    {
      var m := Distances(distFn, query, Probed(Ids(clusters)));
      hide TableOk, Contents, PostingsOk;
      if clusters == [] {
        assert Ids(clusters) == {};
      }
      TabulatesSize(multiset(hits), m);
    }

    /** The posting-list half of a search. */
    method SearchMain(query: Vec, k: int, probes: nat) returns (lists: seq<Hit>, ghost probed: seq<Hit>)
      requires Valid() && k > 0
      ensures built && table.count > 0 ==>
                IsTopK(probed, CentroidDistances(distFn, query, centroids), probes)
      ensures IsTopK(lists, Distances(distFn, query, Probed(Ids(probed))), k)
    {
      hide TableOk, Contents, PostingsOk, IsTopK, Distances, CentroidDistances;
      lists, probed := [], [];
      if built && table.count > 0 {
        var nearest := NearestKCentroids(distFn, centroids, query, probes);
        CentroidAnswer(nearest, query, probes);
        lists := SearchLists(query, nearest, k);
        probed := nearest;
      } else {
        NothingProbed(query, k);
      }
    }

    /**
     Searches the nprobe nearest clusters and the buffer and merges the two exact
     answers. While the tiers share no id the result is exact over both, and at full
     probe with no rebuild under way it is the brute-force answer.
     */
    method Search(query: Vec, k: int, nprobe: int)
      returns (ok: bool, results: seq<Hit>, ghost probes: nat, ghost probed: seq<Hit>, ghost lists: seq<Hit>,
               ghost buffered: seq<Hit>, ghost rest: multiset<Hit>)
      requires Valid()
      ensures probes == if nprobe <= 0 then defaultProbe else nprobe
      ensures ok <==> |query| == dim
      ensures !ok || k <= 0 ==> results == []
      ensures ok && k > 0 && built && table.count > 0 ==>
                IsTopK(probed, CentroidDistances(distFn, query, centroids), probes)
      ensures ok && k > 0 ==>
                && IsTopK(lists, Distances(distFn, query, Probed(Ids(probed))), k)
                && IsTopK(buffered, Distances(distFn, query, dirty.Stored()), k)
                && MergeOf(results, lists, buffered, k, rest)
      ensures ok && k > 0 && Coherent() ==>
                IsTopK(results, Distances(distFn, query, Probed(Ids(probed)) + dirty.Stored()), k)
      ensures ok && k > 0 && Coherent() && inFlight.None? && probes >= |centroids| ==>
                IsTopK(results, Distances(distFn, query, Vectors()), k)
    {
      hide IsTopK, Distances, CentroidDistances, IVFIndex.Probed, PostingsOk, TableOk, Contents, MergeOf;
      var toProbe := defaultProbe;
      if nprobe > 0 {
        toProbe := nprobe;
      }
      probes, probed, lists, buffered, rest := toProbe, [], [], [], multiset{};
      results := [];
      ok := |query| == dim;
      if !ok || k <= 0 {
        return;
      }
      var stored;
      stored, probed := SearchMain(query, k, toProbe);
      var _, recent := dirty.Search(query, k);
      results, rest := MergeResults(stored, recent, k);
      lists, buffered := stored, recent;
      if Coherent() {
        TiersDisjoint(query, Ids(probed));
        MergedIsExact(results, lists, buffered, k, rest, Distances(distFn, query, Probed(Ids(probed))),
                      Distances(distFn, query, dirty.Stored()));
        DistancesUnion(query, Probed(Ids(probed)), dirty.Stored());
        if inFlight.None? && probes >= |centroids| {
          FullProbeIsBruteForce(query, k, probes, probed, results);
        }
      }
    }

    lemma {:induction false} TiersDisjoint(query: Vec, clusters: set<nat>)
      requires Valid() && Coherent()
      ensures Agreeing(Distances(distFn, query, Probed(clusters)), Distances(distFn, query, dirty.Stored()))
    {
      hide PostingsOk;
      assert Main().Keys !! dirty.Stored().Keys;
    }

    lemma {:induction false} CentroidAnswer(r: seq<Hit>, query: Vec, k: nat)
      requires Valid() && built && IsTopK(r, CentroidDistances(distFn, query, centroids), k)
      ensures DistinctIds(r) && forall i :: 0 <= i < |r| ==> r[i].id < |postingList|
    {
    }

    lemma {:induction false} NothingProbed(query: Vec, k: int)
      requires Valid() && k > 0
      ensures IsTopK([], Distances(distFn, query, Probed(Ids([]))), k)
    {
      assert Ids([]) == {};
      assert Probed({}) == map[];
    }

    lemma {:induction false} DistancesUnion(query: Vec, a: map<nat, Vec>, b: map<nat, Vec>)
      ensures Distances(distFn, query, a + b) == Distances(distFn, query, a) + Distances(distFn, query, b)
    {
    }

    /** Probing every cluster with no rebuild under way searches everything: the answer equals brute force. */
    lemma {:induction false} FullProbeIsBruteForce(query: Vec, k: int, nprobe: nat, probed: seq<Hit>, results: seq<Hit>)
      requires Valid() && inFlight.None? && nprobe >= |centroids|
      requires built && table.count > 0 ==> IsTopK(probed, CentroidDistances(distFn, query, centroids), nprobe)
      requires IsTopK(results, Distances(distFn, query, Probed(Ids(probed)) + dirty.Stored()), k)
      ensures IsTopK(results, Distances(distFn, query, Vectors()), k)
    {
      hide IsTopK, TableOk, Contents, Distances, Ids;
      if built && table.count > 0 {
        AllClustersProbed(query, nprobe, probed);
      } else {
        NoRowsNoContents();
      }
      assert Probed(Ids(probed)) == Main();
    }

    lemma {:induction false} NoRowsNoContents()
      requires Valid() && (!built || table.count == 0)
      ensures Main() == map[]
    {
    }

    lemma {:induction false} AllClustersProbed(query: Vec, nprobe: nat, probed: seq<Hit>)
      requires Valid() && built && nprobe >= |centroids|
      requires IsTopK(probed, CentroidDistances(distFn, query, centroids), nprobe)
      ensures forall c: nat :: c < |centroids| ==> c in Ids(probed)
    {
      var m := CentroidDistances(distFn, query, centroids);
      AnswerIds(probed, m, nprobe);
      CentroidCount(query);
      DistinctIdsCount(probed);
      SameSize(Ids(probed), m.Keys);
    }

    lemma {:induction false} CentroidCount(query: Vec)
      ensures |CentroidDistances(distFn, query, centroids)| == |centroids|
    {
      var m := CentroidDistances(distFn, query, centroids);
      BoundedSize(m.Keys, |centroids|);
    }

    // ---------------------------------------------------------------- rebuild

    /**
     First locked phase of a rebuild: copies out all vectors and replaces the buffer
     by a fresh one. With nothing to copy the rebuild ends here. A rebuild that is under
     way already goes on with its own copy.
     */
    method BeginRebuild() returns (allIDs: seq<nat>, allVecs: seq<Vec>)
      requires Valid() && TiersApart()
      modifies this`dirty, this`inFlight
      ensures Valid() && Coherent() && Main() == old(Main())
      ensures fresh(dirty) && dirty.Stored() == map[]
      ensures SnapshotOf(allIDs, allVecs, old(Main() + dirty.Stored()), dim)
      ensures inFlight == if |allIDs| == 0 then old(inFlight) else Some(old(Main() + dirty.Stored()))
      ensures Vectors() == if |allIDs| == 0 then old(Vectors()) else old(Main() + dirty.Stored())
      ensures old(inFlight).None? ==> Vectors() == old(Vectors())
    {
      hide PostingsOk, TableOk, Contents, SnapshotOf;
      allIDs, allVecs := CopyRows(table, dirty.table, dim);
      ghost var all := Main() + dirty.Stored();
      dirty := new FlatIndex(dim, distFn);
      SnapshotEmpty(allIDs, allVecs, all, dim);
      inFlight := if |allIDs| == 0 then inFlight else Some(all);
    }

    /**
     The rebuild is given up between its phases. The fresh buffer stays, so what was drained
     is lost: nothing exactly when all copied ids are still stored or buffered again.
     */
    method CancelRebuild()
      requires Valid() && inFlight.Some?
      modifies this`inFlight
      ensures Valid() && inFlight.None? && Vectors() == Main() + dirty.Stored()
      ensures old(Vectors()).Keys - Vectors().Keys == old(inFlight.value).Keys - Main().Keys - dirty.Stored().Keys
      ensures old(Vectors()).Keys <= Vectors().Keys <==> old(inFlight.value).Keys <= Main().Keys + dirty.Stored().Keys
      ensures old(Coherent()) ==> Vectors().Keys <= old(Vectors()).Keys
    {
      hide PostingsOk, TableOk, Contents, FlatIndex.Valid, FlatIndex.Stored;
      inFlight := None;
    }

    /**
     Second locked phase: installs the clustering of the copied vectors and restores exactly
     what was copied. For the latest rebuild this loses and duplicates nothing; one that was
     overtaken puts its older copy in place of what is stored.
     */
    method FinishRebuild(allIDs: seq<nat>, allVecs: seq<Vec>, newCentroids: seq<Vec>, assignments: seq<nat>,
                         ghost copied: map<nat, Vec>, ghost latest: bool)
      requires Valid() && SnapshotOf(allIDs, allVecs, copied, dim) && (latest ==> inFlight == Some(copied))
      requires |assignments| == |allIDs| && forall i :: 0 <= i < |assignments| ==> assignments[i] < |newCentroids|
      modifies this
      ensures Valid() && dirty == old(dirty) && dirty.Stored() == old(dirty.Stored())
      ensures built && centroids == newCentroids && |postingList| == |newCentroids|
      ensures forall i :: 0 <= i < |allIDs| ==> allIDs[i] in clusterOf && clusterOf[allIDs[i]] == assignments[i]
      ensures Main() == copied && inFlight == if latest then None else old(inFlight)
      ensures latest ==> Vectors() == old(Vectors())
      ensures TiersApart() <==> copied.Keys !! old(dirty.Stored()).Keys
      ensures latest ==> (Coherent() <==> TiersApart()) && (old(Coherent()) ==> Coherent())
    {
      hide PostingsOk, TableOk, Contents, SnapshotOf;
      hide FlatIndex.Valid, FlatIndex.Stored, IVFIndex.Coherent, IVFIndex.Vectors;
      var n := |allIDs|;
      SnapshotSizes(allIDs, allVecs, copied, dim);
      var newPostings, newClusterOf := BuildPostings(allIDs, assignments, |newCentroids|, copied, allVecs, dim);
      var deletedMeanwhile := set id | id in table.idToRow && id !in newClusterOf;
      var t := InstallRows(table, allIDs, allVecs, copied, dim);
      Install(t, newCentroids, newPostings, newClusterOf, copied, latest);
      ReapplyDeletes(deletedMeanwhile);
    }

    method Install(t: Table<real>, newCentroids: seq<Vec>, newPostings: seq<seq<nat>>, newClusterOf: map<nat, nat>,
                   ghost copied: map<nat, Vec>, ghost latest: bool)
      requires Valid() && TableOk(t, dim) && Contents(t, dim) == copied && (latest ==> inFlight == Some(copied))
      requires PostingsOk(newPostings, newClusterOf) && newClusterOf.Keys == t.idToRow.Keys == copied.Keys
      requires |newCentroids| == |newPostings|
      modifies this
      ensures Valid() && dirty == old(dirty) && built && centroids == newCentroids && table == t
      ensures postingList == newPostings && clusterOf == newClusterOf
      ensures Main() == copied && inFlight == if latest then None else old(inFlight)
      ensures latest ==> Vectors() == old(Vectors())
      ensures TiersApart() <==> copied.Keys !! old(dirty.Stored()).Keys
      ensures latest ==> (Coherent() <==> TiersApart()) && (old(Coherent()) ==> Coherent())
    {
      hide PostingsOk, TableOk, Contents;
      table, centroids, postingList, clusterOf, built := t, newCentroids, newPostings, newClusterOf, true;
      inFlight := if latest then None else inFlight;
    }

    /**
     Two rebuilds of a nonempty index that overlap: the first drains one buffer, the second what
     was inserted in between. The swap that comes last wins and drops what the other one drained.
     */
    method OverlappingRebuilds(between: seq<(nat, Vec)>, centroids1: seq<Vec>, assign1: nat -> nat,
                               centroids2: seq<Vec>, assign2: nat -> nat, secondLast: bool)
      returns (ghost first: map<nat, Vec>, ghost second: map<nat, Vec>)
      requires Valid() && Coherent() && inFlight.None? && Main() != map[]
      requires forall i :: assign1(i) < |centroids1| && assign2(i) < |centroids2|
      modifies this, dirty
      ensures Valid() && first == old(dirty.Stored())
      ensures second.Keys == Insertable(between, old(Main()), dim)
      ensures Main() == old(Main()) + (if secondLast then second else first) && dirty.Stored() == map[]
    {
      hide SnapshotOf, PostingsOk, TableOk, Contents, FlatIndex.Valid, FlatIndex.Stored;
      var ids1, vecs1, ids2, vecs2;
      ids1, vecs1, ids2, vecs2, first, second := OverlappingDrains(between);
      var c1 := seq(|ids1|, i requires 0 <= i => assign1(i));
      var c2 := seq(|ids2|, i requires 0 <= i => assign2(i));
      OverlappingSwaps(ids1, vecs1, centroids1, c1, Main() + first,
                       ids2, vecs2, centroids2, c2, Main() + second, secondLast);
    }

    /** The first phases of two rebuilds, with inserts in between. */
    method OverlappingDrains(between: seq<(nat, Vec)>)
      returns (ids1: seq<nat>, vecs1: seq<Vec>, ids2: seq<nat>, vecs2: seq<Vec>,
               ghost first: map<nat, Vec>, ghost second: map<nat, Vec>)
      requires Valid() && TiersApart() && Main() != map[]
      modifies this`dirty, this`inFlight, dirty
      ensures Valid() && Main() == old(Main()) && dirty.Stored() == map[] && inFlight == Some(Main() + second)
      ensures first == old(dirty.Stored()) && second.Keys == Insertable(between, old(Main()), dim)
      ensures SnapshotOf(ids1, vecs1, Main() + first, dim) && SnapshotOf(ids2, vecs2, Main() + second, dim)
    {
      hide SnapshotOf, PostingsOk, TableOk, Contents, FlatIndex.Valid, FlatIndex.Stored;
      first := dirty.Stored();
      ids1, vecs1 := BeginRebuild();
      InsertAll(between);
      second := dirty.Stored();
      ids2, vecs2 := BeginRebuild();
      NonemptySnapshot(ids2, vecs2, Main() + second, dim);
    }

    /** Their second phases, in either order. */
    method OverlappingSwaps(ids1: seq<nat>, vecs1: seq<Vec>, centroids1: seq<Vec>, c1: seq<nat>,
                            ghost copy1: map<nat, Vec>,
                            ids2: seq<nat>, vecs2: seq<Vec>, centroids2: seq<Vec>, c2: seq<nat>,
                            ghost copy2: map<nat, Vec>,
                            secondLast: bool)
      requires Valid() && SnapshotOf(ids1, vecs1, copy1, dim) && SnapshotOf(ids2, vecs2, copy2, dim)
      requires inFlight == Some(copy2) && |c1| == |ids1| && |c2| == |ids2|
      requires forall i :: 0 <= i < |c1| ==> c1[i] < |centroids1|
      requires forall i :: 0 <= i < |c2| ==> c2[i] < |centroids2|
      modifies this
      ensures Valid() && dirty == old(dirty) && dirty.Stored() == old(dirty.Stored())
      ensures Main() == if secondLast then copy2 else copy1
    {
      hide *;
      if secondLast {
        FinishRebuild(ids1, vecs1, centroids1, c1, copy1, false);
        FinishRebuild(ids2, vecs2, centroids2, c2, copy2, true);
      } else {
        FinishRebuild(ids2, vecs2, centroids2, c2, copy2, true);
        FinishRebuild(ids1, vecs1, centroids1, c1, copy1, false);
      }
    }

    method InsertAll(vs: seq<(nat, Vec)>)
      requires Valid() && TiersApart() && dirty.Stored() == map[]
      modifies dirty
      ensures Valid() && TiersApart() && Main() == old(Main())
      ensures dirty.Stored().Keys == Insertable(vs, old(Main()), dim)
    {
      hide PostingsOk, TableOk, Contents, FlatIndex.Valid, FlatIndex.Stored;
      for i := 0 to |vs|
        invariant Valid() && TiersApart() && Main() == old(Main())
        invariant dirty.Stored().Keys == Insertable(vs[..i], old(Main()), dim)
      {
        InsertableGrows(vs, i, old(Main()), dim);
        var _ := Insert(vs[i].0, vs[i].1);
      }
      assert vs[..|vs|] == vs;
    }

    /**
     The loop meant to repeat deletes made during the rebuild. The ids it is given are
     those the rebuild does not contain, so it finds none of them among the new rows.
     */
    method ReapplyDeletes(deletedMeanwhile: set<nat>)
      requires deletedMeanwhile !! table.idToRow.Keys
      ensures unchanged(this)
    {
      var todo := deletedMeanwhile;
      while todo != {}
        invariant todo <= deletedMeanwhile
        decreases todo
      {
        var id :| id in todo;
        if id in table.idToRow {
          assert false;
        }
        todo := todo - {id};
      }
    }
  }

  /** The ids of which an insert is accepted. */
  ghost function Insertable(vs: seq<(nat, Vec)>, main: map<nat, Vec>, dim: nat): set<nat> {
    set e | e in vs && |e.1| == dim && e.0 !in main :: e.0
  }

  lemma {:induction false} InsertableGrows(vs: seq<(nat, Vec)>, i: nat, main: map<nat, Vec>, dim: nat)
    requires i < |vs|
    ensures Insertable(vs[..i + 1], main, dim) ==
            Insertable(vs[..i], main, dim) + if |vs[i].1| == dim && vs[i].0 !in main then {vs[i].0} else {}
  {
    assert vs[..i + 1] == vs[..i] + [vs[i]];
    assert forall e :: e in vs[..i + 1] <==> e in vs[..i] || e == vs[i];
  }

  lemma {:induction false} NonemptySnapshot(ids: seq<nat>, vecs: seq<Vec>, m: map<nat, Vec>, dim: nat)
    requires SnapshotOf(ids, vecs, m, dim) && m != map[]
    ensures |ids| > 0
  {
    var id :| id in m;
    assert id in ids;
  }

  /** The rows of two tables, one after the other. */
  method CopyRows(t: Table<real>, u: Table<real>, ghost dim: nat) returns (ids: seq<nat>, vecs: seq<Vec>)
    requires TableOk(t, dim) && TableOk(u, dim) && t.idToRow.Keys !! u.idToRow.Keys
    ensures SnapshotOf(ids, vecs, Contents(t, dim) + Contents(u, dim), dim)
  {
    ids := t.ids[..t.count] + u.ids[..u.count];
    vecs := t.vectors[..t.count] + u.vectors[..u.count];
    hide Contents, SnapshotOf, TableOk;
    SnapshotOfBoth(t, u, dim);
  }

  lemma {:induction false} BothRow(t: Table<real>, u: Table<real>, dim: nat, i: nat)
    requires TableOk(t, dim) && TableOk(u, dim) && t.idToRow.Keys !! u.idToRow.Keys && i < t.count + u.count
    ensures var id := (t.ids[..t.count] + u.ids[..u.count])[i];
            var v := (t.vectors[..t.count] + u.vectors[..u.count])[i];
            && id == (if i < t.count then t.ids[i] else u.ids[i - t.count])
            && id in Contents(t, dim) + Contents(u, dim) && (Contents(t, dim) + Contents(u, dim))[id] == v && |v| == dim
  {
    if i < t.count {
      assert t.idToRow[t.ids[i]] == i;
    } else {
      assert u.idToRow[u.ids[i - t.count]] == i - t.count;
    }
  }

  lemma {:induction false} BothListed(t: Table<real>, u: Table<real>, dim: nat, id: nat)
    requires TableOk(t, dim) && TableOk(u, dim) && id in Contents(t, dim) + Contents(u, dim)
    ensures id in t.ids[..t.count] + u.ids[..u.count]
  {
    var ids := t.ids[..t.count] + u.ids[..u.count];
    assert ids[if id in u.idToRow then t.count + u.idToRow[id] else t.idToRow[id]] == id;
  }

  lemma {:induction false} SnapshotOfBoth(t: Table<real>, u: Table<real>, dim: nat)
    requires TableOk(t, dim) && TableOk(u, dim) && t.idToRow.Keys !! u.idToRow.Keys
    ensures SnapshotOf(t.ids[..t.count] + u.ids[..u.count], t.vectors[..t.count] + u.vectors[..u.count],
                       Contents(t, dim) + Contents(u, dim), dim)
  {
    var ids, vecs := t.ids[..t.count] + u.ids[..u.count], t.vectors[..t.count] + u.vectors[..u.count];
    var m := Contents(t, dim) + Contents(u, dim);
    assert |ids| == |vecs| == t.count + u.count;
    hide TableOk, Contents;
    forall i | 0 <= i < |ids| ensures ids[i] in m && m[ids[i]] == vecs[i] && |vecs[i]| == dim {
      BothRow(t, u, dim, i);
    }
    BothDistinct(t, u, dim);
    forall id | id in m ensures id in ids {
      BothListed(t, u, dim, id);
    }
    hide *;
    SnapshotParts(ids, vecs, m, dim);
  }

  lemma {:induction false} SnapshotParts(ids: seq<nat>, vecs: seq<Vec>, m: map<nat, Vec>, dim: nat)
    requires |ids| == |vecs| && NoRepeats(ids)
    requires forall i :: 0 <= i < |ids| ==> ids[i] in m && m[ids[i]] == vecs[i] && |vecs[i]| == dim
    requires forall id :: id in m ==> id in ids
    ensures SnapshotOf(ids, vecs, m, dim)
  {
  }

  lemma {:induction false} BothDistinct(t: Table<real>, u: Table<real>, dim: nat)
    requires TableOk(t, dim) && TableOk(u, dim) && t.idToRow.Keys !! u.idToRow.Keys
    ensures NoRepeats(t.ids[..t.count] + u.ids[..u.count])
  {
    var ids := t.ids[..t.count] + u.ids[..u.count];
    assert |ids| == t.count + u.count;
    hide TableOk, Contents;
    forall i, j | 0 <= i < j < |ids| ensures ids[i] != ids[j] {
      BothRow(t, u, dim, i);
      BothRow(t, u, dim, j);
      RowsDiffer(t, u, dim, i, j);
    }
  }

  lemma {:induction false} RowsDiffer(t: Table<real>, u: Table<real>, dim: nat, i: nat, j: nat)
    requires TableOk(t, dim) && TableOk(u, dim) && t.idToRow.Keys !! u.idToRow.Keys && i < j < t.count + u.count
    ensures (if i < t.count then t.ids[i] else u.ids[i - t.count]) !=
            (if j < t.count then t.ids[j] else u.ids[j - t.count])
  {
    if j < t.count {
      assert t.idToRow[t.ids[i]] == i && t.idToRow[t.ids[j]] == j;
    } else if i >= t.count {
      assert u.idToRow[u.ids[i - t.count]] == i - t.count && u.idToRow[u.ids[j - t.count]] == j - t.count;
    } else {
      assert t.ids[i] in t.idToRow && u.ids[j - t.count] in u.idToRow;
    }
  }
}
