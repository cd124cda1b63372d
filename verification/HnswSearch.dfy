/** Whole queries against an HNSW index: descent, beam search, live filter and dirty buffer. */
module HnswSearch {
  import opened Common
  import opened Ranking
  import opened Beam
  import opened Visited
  import opened HnswGraph
  import opened Hnsw
  import opened HnswRuns
  import opened HnswSmall
  import opened Selection

  /** The distance of every live id in the graph. */
  ghost function LiveDistances(h: HNSWIndex, query: Vec): map<nat, real>
    requires h.VectorsOk() && h.IdsOk()
    reads h
  {
    map id | id in h.Live() :: h.distFn(query, h.Live()[id])
  }

  /** Candidates in order, with deleted nodes left out and node indexes replaced by ids. */
  function LiveOnly(nodes: seq<Node>, deleted: set<nat>, c: seq<Hit>): seq<Hit>
    requires forall i :: 0 <= i < |c| ==> c[i].id < |nodes|
  {
    if c == [] then []
    else
      var last := c[|c| - 1];
      LiveOnly(nodes, deleted, c[..|c| - 1]) + if last.id in deleted then [] else [Hit(nodes[last.id].id, last.dist)]
  }

  /** The first k live candidates. */
  method TakeLive(h: HNSWIndex, candidates: seq<Hit>, k: nat) returns (results: seq<Hit>)
    requires k > 0 && forall i :: 0 <= i < |candidates| ==> candidates[i].id < |h.nodes|
    ensures var live := LiveOnly(h.nodes, h.deleted, candidates); results == live[..Min(k, |live|)]
  {
    results := [];
    for i := 0 to |candidates|
      invariant results == LiveOnly(h.nodes, h.deleted, candidates[..i]) && |results| < k
    {
      var c := candidates[i];
      assert candidates[..i + 1][..i] == candidates[..i];
      if c.id !in h.deleted {
        results := results + [Hit(h.nodes[c.id].id, c.dist)];
        if |results| >= k {
          LiveOnlyGrows(h.nodes, h.deleted, candidates, i + 1);
          return;
        }
      }
    }
    assert candidates[..|candidates|] == candidates;
  }

  lemma {:induction false} LiveOnlyGrows(nodes: seq<Node>, deleted: set<nat>, c: seq<Hit>, i: nat)
    requires i <= |c| && forall j :: 0 <= j < |c| ==> c[j].id < |nodes|
    ensures LiveOnly(nodes, deleted, c[..i]) <= LiveOnly(nodes, deleted, c)
  {
    if i < |c| {
      LiveOnlyGrows(nodes, deleted, c[..|c| - 1], i);
      assert c[..|c| - 1][..i] == c[..i];
    } else {
      assert c[..i] == c;
    }
  }

  /** The hit stands for candidate j, which is live. */
  ghost predicate Names(nodes: seq<Node>, deleted: set<nat>, c: seq<Hit>, h: Hit, j: nat) {
    j < |c| && c[j].id < |nodes| && c[j].id !in deleted && h == Hit(nodes[c[j].id].id, c[j].dist)
  }

  /** Every live hit is a live candidate under its id. */
  lemma {:induction false} LiveOnlyNamed(nodes: seq<Node>, deleted: set<nat>, c: seq<Hit>, i: nat) returns (j: nat)
    requires (forall k :: 0 <= k < |c| ==> c[k].id < |nodes|) && i < |LiveOnly(nodes, deleted, c)|
    ensures Names(nodes, deleted, c, LiveOnly(nodes, deleted, c)[i], j)
  {
    j := |c| - 1;
    if i < |LiveOnly(nodes, deleted, c[..j])| {
      j := LiveOnlyNamed(nodes, deleted, c[..j], i);
    }
  }

  lemma {:induction false} LiveOnlySize(nodes: seq<Node>, deleted: set<nat>, c: seq<Hit>)
    requires forall k :: 0 <= k < |c| ==> c[k].id < |nodes|
    ensures |LiveOnly(nodes, deleted, c)| <= |c|
  {
    if c != [] {
      LiveOnlySize(nodes, deleted, c[..|c| - 1]);
    }
  }

  /** And the other way round. */
  lemma {:induction false} LiveOnlyLists(nodes: seq<Node>, deleted: set<nat>, c: seq<Hit>, j: nat)
    requires (forall j :: 0 <= j < |c| ==> c[j].id < |nodes|) && j < |c| && c[j].id !in deleted
    ensures Hit(nodes[c[j].id].id, c[j].dist) in LiveOnly(nodes, deleted, c)
  {
    var n := |c| - 1;
    var r, s := LiveOnly(nodes, deleted, c), LiveOnly(nodes, deleted, c[..n]);
    if j < n {
      LiveOnlyLists(nodes, deleted, c[..n], j);
    } else {
      assert r[|s|] == Hit(nodes[c[j].id].id, c[j].dist);
    }
  }

  lemma {:induction false} LiveOnlyAscends(nodes: seq<Node>, deleted: set<nat>, c: seq<Hit>)
    requires Ascending(c) && forall j :: 0 <= j < |c| ==> c[j].id < |nodes|
    ensures Ascending(LiveOnly(nodes, deleted, c))
  {
    if c != [] {
      var q := c[..|c| - 1];
      LiveOnlyAscends(nodes, deleted, q);
      var s := LiveOnly(nodes, deleted, q);
      forall i | 0 <= i < |s| ensures s[i].dist <= c[|q|].dist {
        var j := LiveOnlyNamed(nodes, deleted, q, i);
        assert q[j] == c[j];
      }
    }
  }

  lemma {:induction false} LiveOnlyDistinct(h: HNSWIndex, c: seq<Hit>)
    requires h.IdsOk() && DistinctIds(c) && forall j :: 0 <= j < |c| ==> c[j].id < |h.nodes|
    ensures DistinctIds(LiveOnly(h.nodes, h.deleted, c))
  {
    if c != [] {
      var q := c[..|c| - 1];
      LiveOnlyDistinct(h, q);
      var s := LiveOnly(h.nodes, h.deleted, q);
      forall i | 0 <= i < |s| && c[|q|].id !in h.deleted ensures s[i].id != h.nodes[c[|q|].id].id {
        var j := LiveOnlyNamed(h.nodes, h.deleted, q, i);
        assert q[j] == c[j];
      }
    }
  }

  // ---------------------------------------------------------------- what the beam finds

  /** What holds of the answer whatever the tracker and the beam. */
  ghost predicate Sound(h: HNSWIndex, query: Vec, r: seq<Hit>, k: int)
    requires h.VectorsOk() && h.IdsOk()
    reads h
  {
    Ascending(r) && DistinctIds(r) && |r| <= Max(k, 0) && Priced(r, LiveDistances(h, query))
  }

  /** Every hit carries the distance its id has in m. */
  ghost predicate Priced(r: seq<Hit>, m: map<nat, real>) {
    forall i :: 0 <= i < |r| ==> r[i].id in m && r[i].dist == m[r[i].id]
  }

  lemma {:induction false} BeamFacts(v: LayerView, ep: nat, ef: int, blocked: iset<nat>, evaluated: set<nat>,
                                     c: seq<Hit>)
    requires BeamResult(v, ep, ef, blocked, evaluated, c)
    ensures Ascending(c) && DistinctIds(c)
    ensures forall k :: 0 <= k < |c| ==> c[k].id < |v.dist| && c[k].dist == v.dist[c[k].id]
  {
  }

  lemma {:induction false} BeamIsSound(h: HNSWIndex, query: Vec, ep: nat, ef: int, blocked: iset<nat>,
                                       evaluated: set<nat>, c: seq<Hit>, k: nat, n: nat)
    requires h.VectorsOk() && h.IdsOk() && BeamResult(h.View(query, 0), ep, ef, blocked, evaluated, c)
    requires (forall i :: 0 <= i < |c| ==> c[i].id < |h.nodes|) && n == Min(k, |LiveOnly(h.nodes, h.deleted, c)|)
    ensures Sound(h, query, LiveOnly(h.nodes, h.deleted, c)[..n], k)
  {
    hide BeamResult, LiveOnly, LiveDistances, HNSWIndex.IdsOk, HNSWIndex.VectorsOk, Priced;
    BeamFacts(h.View(query, 0), ep, ef, blocked, evaluated, c);
    LiveOnlyAscends(h.nodes, h.deleted, c);
    LiveOnlyDistinct(h, c);
    LivePriced(h, query, c);
    PrefixSound(LiveOnly(h.nodes, h.deleted, c), LiveDistances(h, query), n);
  }

  lemma {:induction false} PrefixSound(all: seq<Hit>, m: map<nat, real>, n: nat)
    requires Ascending(all) && DistinctIds(all) && Priced(all, m) && n <= |all|
    ensures Ascending(all[..n]) && DistinctIds(all[..n]) && Priced(all[..n], m)
  {
  }

  lemma {:induction false} LivePriced(h: HNSWIndex, query: Vec, c: seq<Hit>)
    requires h.VectorsOk() && h.IdsOk()
    requires forall k :: 0 <= k < |c| ==> c[k].id < |h.nodes| && c[k].dist == h.Dist(query, c[k].id)
    ensures Priced(LiveOnly(h.nodes, h.deleted, c), LiveDistances(h, query))
  {
    var r, m := LiveOnly(h.nodes, h.deleted, c), LiveDistances(h, query);
    hide LiveOnly, LiveDistances, HNSWIndex.Dist, HNSWIndex.VectorsOk, HNSWIndex.IdsOk;
    forall i | 0 <= i < |r| ensures r[i].id in m && r[i].dist == m[r[i].id] {
      var j := LiveCandidate(h, c, i);
      LiveNode(h, query, c[j].id);
    }
  }

  /** The candidate behind a live hit. */
  lemma {:induction false} LiveCandidate(h: HNSWIndex, c: seq<Hit>, i: nat) returns (j: nat)
    requires (forall k :: 0 <= k < |c| ==> c[k].id < |h.nodes|) && i < |LiveOnly(h.nodes, h.deleted, c)|
    ensures j < |c| && c[j].id !in h.deleted
    ensures LiveOnly(h.nodes, h.deleted, c)[i] == Hit(h.nodes[c[j].id].id, c[j].dist)
  {
    j := LiveOnlyNamed(h.nodes, h.deleted, c, i);
  }

  lemma {:induction false} LiveNode(h: HNSWIndex, query: Vec, n: nat)
    requires h.VectorsOk() && h.IdsOk() && n < |h.nodes| && n !in h.deleted
    ensures h.nodes[n].id in h.idToNode && h.idToNode[h.nodes[n].id] == n
    ensures h.nodes[n].id in LiveDistances(h, query) && LiveDistances(h, query)[h.nodes[n].id] == h.Dist(query, n)
  {
  }

  /** Node i can be reached on the bottom layer around the marked nodes. */
  ghost predicate Found(h: HNSWIndex, query: Vec, ep: nat, marked: iset<nat>, i: nat)
    requires h.VectorsOk()
    reads h
  {
    Reachable(h.View(query, 0), ep, marked, i)
  }

  /** The distances of the live ids the beam can reach. */
  ghost function FoundDistances(h: HNSWIndex, query: Vec, ep: nat, marked: iset<nat>): map<nat, real>
    requires h.VectorsOk() && h.IdsOk()
    reads h
  {
    map id | id in LiveDistances(h, query) && Found(h, query, ep, marked, h.idToNode[id]) :: LiveDistances(h, query)[id]
  }

  /** A beam as wide as the layer answers exactly over what can be reached, for any tracker. */
  lemma {:induction false} WideBeamIsTopK(h: HNSWIndex, query: Vec, ep: nat, ef: int, marked: iset<nat>,
                                          evaluated: set<nat>, c: seq<Hit>, k: nat, n: nat)
    requires h.VectorsOk() && h.IdsOk() && BeamResult(h.View(query, 0), ep, ef, marked, evaluated, c) && ef >= |h.nodes|
    requires (forall i :: 0 <= i < |c| ==> c[i].id < |h.nodes|) && n == Min(k, |LiveOnly(h.nodes, h.deleted, c)|)
    ensures IsTopK(LiveOnly(h.nodes, h.deleted, c)[..n], FoundDistances(h, query, ep, marked), k)
  {
    hide BeamResult, LiveOnly, LiveDistances, HNSWIndex.IdsOk, HNSWIndex.VectorsOk;
    hide Priced, IsTopK, FoundDistances, Found;
    BeamFacts(h.View(query, 0), ep, ef, marked, evaluated, c);
    LiveOnlyAscends(h.nodes, h.deleted, c);
    LiveOnlyDistinct(h, c);
    LivePriced(h, query, c);
    CandidatesAreFound(h, query, ep, ef, marked, evaluated, c);
    FoundListed(h, query, ep, marked, c);
    PrefixIsTopK(LiveOnly(h.nodes, h.deleted, c), FoundDistances(h, query, ep, marked), k);
  }

  lemma {:induction false} PrefixIds(all: seq<Hit>, n: nat, j: nat)
    requires n <= |all| && j < |all|
    ensures j < n ==> all[j].id in Ids(all[..n])
  {
    if j < n {
      assert all[j] in all[..n];
    }
  }

  lemma {:induction false} PrefixIsTopK(all: seq<Hit>, m: map<nat, real>, k: nat)
    requires Ascending(all) && DistinctIds(all) && Ids(all) == m.Keys && Priced(all, m)
    ensures IsTopK(all[..Min(k, |all|)], m, k)
  {
    DistinctIdsCount(all);
    var r := all[..Min(k, |all|)];
    forall x, i | x in m && x !in Ids(r) && 0 <= i < |r| ensures r[i].dist <= m[x] {
      var j :| 0 <= j < |all| && all[j].id == x;
      PrefixIds(all, |r|, j);
    }
  }

  /** The candidates of a wide beam are exactly the nodes it can reach. */
  lemma {:induction false} CandidatesAreFound(h: HNSWIndex, query: Vec, ep: nat, ef: int, marked: iset<nat>,
                                              evaluated: set<nat>, c: seq<Hit>)
    requires h.VectorsOk() && BeamResult(h.View(query, 0), ep, ef, marked, evaluated, c) && ef >= |h.nodes|
    ensures forall i: nat :: i in Ids(c) <==> Found(h, query, ep, marked, i)
  {
    var v := h.View(query, 0);
    var all := set i: nat | i < |h.nodes| && Reachable(v, ep, marked, i);
    forall x | Reachable(v, ep, marked, x) ensures x in all {
      var p :| Walk(v, ep, marked, p) && p[|p| - 1] == x;
    }
    hide BeamResult, Reachable, HNSWIndex.VectorsOk;
    BoundedSize(all, |h.nodes|);
    WideBeamIsExhaustive(v, ep, ef, marked, evaluated, c, all);
  }

  lemma {:induction false} FoundListed(h: HNSWIndex, query: Vec, ep: nat, marked: iset<nat>, c: seq<Hit>)
    requires h.VectorsOk() && h.IdsOk() && forall k :: 0 <= k < |c| ==> c[k].id < |h.nodes|
    requires forall i: nat :: i in Ids(c) <==> Found(h, query, ep, marked, i)
    requires Priced(LiveOnly(h.nodes, h.deleted, c), LiveDistances(h, query))
    ensures Ids(LiveOnly(h.nodes, h.deleted, c)) == FoundDistances(h, query, ep, marked).Keys
    ensures Priced(LiveOnly(h.nodes, h.deleted, c), FoundDistances(h, query, ep, marked))
  {
    ListedIsFound(h, query, ep, marked, c);
    FoundIsListed(h, query, ep, marked, c);
    hide LiveOnly, Found, LiveDistances, HNSWIndex.VectorsOk, HNSWIndex.IdsOk;
    var live, found := LiveOnly(h.nodes, h.deleted, c), FoundDistances(h, query, ep, marked);
    forall x | x in Ids(live) ensures x in found {
      var i :| 0 <= i < |live| && live[i].id == x;
    }
  }

  lemma {:induction false} ListedIsFound(h: HNSWIndex, query: Vec, ep: nat, marked: iset<nat>, c: seq<Hit>)
    requires h.VectorsOk() && h.IdsOk() && forall k :: 0 <= k < |c| ==> c[k].id < |h.nodes|
    requires forall i: nat :: i in Ids(c) <==> Found(h, query, ep, marked, i)
    ensures var live := LiveOnly(h.nodes, h.deleted, c);
            forall i :: 0 <= i < |live| ==> live[i].id in FoundDistances(h, query, ep, marked)
  {
    var live, found := LiveOnly(h.nodes, h.deleted, c), FoundDistances(h, query, ep, marked);
    hide Found, HNSWIndex.VectorsOk, HNSWIndex.IdsOk, HNSWIndex.Dist;
    forall i | 0 <= i < |live| ensures live[i].id in found {
      var j := LiveCandidate(h, c, i);
      LiveNode(h, query, c[j].id);
      assert c[j] in c && c[j].id in Ids(c);
    }
  }

  lemma {:induction false} FoundIsListed(h: HNSWIndex, query: Vec, ep: nat, marked: iset<nat>, c: seq<Hit>)
    requires h.VectorsOk() && h.IdsOk() && forall k :: 0 <= k < |c| ==> c[k].id < |h.nodes|
    requires forall i: nat :: i in Ids(c) <==> Found(h, query, ep, marked, i)
    ensures forall id :: id in FoundDistances(h, query, ep, marked) ==> id in Ids(LiveOnly(h.nodes, h.deleted, c))
  {
    var live, found := LiveOnly(h.nodes, h.deleted, c), FoundDistances(h, query, ep, marked);
    forall id | id in found ensures id in Ids(live) {
      var i := h.idToNode[id];
      assert i in Ids(c);
      var j :| 0 <= j < |c| && c[j].id == i;
      LiveOnlyLists(h.nodes, h.deleted, c, j);
      assert Hit(id, c[j].dist) in live;
    }
  }

  // ---------------------------------------------------------------- when nothing is missed

  ghost predicate WellConnected(h: HNSWIndex, query: Vec, ep: nat)
    requires h.VectorsOk()
    reads h
  {
    forall i: nat :: i < |h.nodes| ==> Found(h, query, ep, iset{}, i)
  }

  /** No node of the graph but the entry point is marked. */
  ghost predicate Clear(h: HNSWIndex, ep: nat, marked: iset<nat>)
    reads h
  {
    forall i: nat :: i < |h.nodes| && i != ep ==> i !in marked
  }

  lemma {:induction false} NodesInRange(h: HNSWIndex, query: Vec, ep: nat, marked: iset<nat>, i: nat)
    requires h.VectorsOk() && Found(h, query, ep, marked, i)
    ensures i < |h.nodes|
  {
    var p :| Walk(h.View(query, 0), ep, marked, p) && p[|p| - 1] == i;
  }

  /** On a connected layer every live id is found if nothing is marked, and without deletions only then. */
  lemma {:induction false} FoundExactly(h: HNSWIndex, query: Vec, ep: nat, marked: iset<nat>)
    requires h.VectorsOk() && h.IdsOk() && WellConnected(h, query, ep)
    ensures Clear(h, ep, marked) ==> FoundDistances(h, query, ep, marked) == LiveDistances(h, query)
    ensures h.deleted == {} && FoundDistances(h, query, ep, marked) == LiveDistances(h, query) ==> Clear(h, ep, marked)
  {
    var v := h.View(query, 0);
    if Clear(h, ep, marked) {
      forall y | Reachable(v, ep, iset{}, y) && y != ep ensures y !in marked {
        NodesInRange(h, query, ep, iset{}, y);
      }
      forall id | id in LiveDistances(h, query) ensures Found(h, query, ep, marked, h.idToNode[id]) {
        assert Found(h, query, ep, iset{}, h.idToNode[id]);
        UnmarkedWalk(v, ep, marked, h.idToNode[id]);
      }
    }
    if h.deleted == {} && FoundDistances(h, query, ep, marked) == LiveDistances(h, query) {
      forall i: nat | i < |h.nodes| && i != ep ensures i !in marked {
        assert h.nodes[i].id in LiveDistances(h, query);
        assert h.nodes[i].id in FoundDistances(h, query, ep, marked);
        ReachableHasEdge(v, ep, marked, i);
      }
    }
  }

  /** An answer with room for all live ids is the exact one only if it was drawn from all of them. */
  lemma {:induction false} RoomForAll(r: seq<Hit>, found: map<nat, real>, live: map<nat, real>, k: nat)
    requires IsTopK(r, found, k) && found.Keys <= live.Keys && k >= |live|
    requires forall id :: id in found ==> found[id] == live[id]
    ensures IsTopK(r, live, k) <==> found == live
  {
    if IsTopK(r, live, k) {
      DistinctIdsCount(r);
      assert Ids(r) <= found.Keys <= live.Keys;
      SubsetSize(found.Keys, live.Keys);
      assert |r| == |live.Keys|;
      SubsetSize(Ids(r), found.Keys);
      SameSize(found.Keys, live.Keys);
    }
  }

  // ---------------------------------------------------------------- the dirty buffer

  ghost function BufferHits(distFn: (Vec, Vec) -> real, query: Vec, copied: seq<Pending>): seq<Hit> {
    seq(|copied|, i requires 0 <= i < |copied| => Hit(copied[i].id, distFn(query, copied[i].vector)))
  }

  /** Distances by id, the first hit of an id counting. */
  ghost function Tabled(s: seq<Hit>): map<nat, real> {
    if s == [] then map[] else Tabled(s[1..])[s[0].id := s[0].dist]
  }

  lemma {:induction false} TabledIs(s: seq<Hit>)
    requires DistinctIds(s)
    ensures Tabled(s).Keys == Ids(s) && Priced(s, Tabled(s))
  {
    if s != [] {
      var t := s[1..];
      TabledIs(t);
      IdsOfRest(s);
      forall i | 0 < i < |s| ensures s[i].id in Tabled(s) && Tabled(s)[s[i].id] == s[i].dist {
        assert s[i] == t[i - 1];
      }
    }
  }

  lemma {:induction false} IdsOfRest(s: seq<Hit>)
    requires s != []
    ensures Ids(s) == Ids(s[1..]) + {s[0].id}
  {
    assert s == [s[0]] + s[1..];
    assert forall h :: h in s <==> h == s[0] || h in s[1..];
  }

  lemma {:induction false} HitsTabulate(s: seq<Hit>)
    requires DistinctIds(s)
    ensures Tabulates(multiset(s), Tabled(s))
  {
    TabledIs(s);
    hide Tabled;
    DistinctCounts(s, Tabled(s));
  }

  /** Brute force over the copied buffer, repeated ids included: the k closest of its entries. */
  method SearchDirtyBuffer(distFn: (Vec, Vec) -> real, query: Vec, copied: seq<Pending>, k: nat)
    returns (results: seq<Hit>, ghost rest: multiset<Hit>)
    ensures Ascending(results) && Selects(results, rest, multiset(BufferHits(distFn, query, copied)), k)
  {
    var all: seq<Hit> := [];
    for i := 0 to |copied|
      invariant all == BufferHits(distFn, query, copied)[..i]
    {
      all := all + [Hit(copied[i].id, distFn(query, copied[i].vector))];
    }
    assert all == BufferHits(distFn, query, copied);
    var sorted := SortByDistance(all);
    results := if |sorted| > k then sorted[..k] else sorted;
    rest := multiset(sorted[|results|..]);
    CutSelects(sorted, multiset(all), k);
    assert results == sorted[..Min(k, |sorted|)];
  }

  /** Two answers sorted together and cut at k: the k closest of both, shared ids included. */
  method MergeResults(main: seq<Hit>, dirty: seq<Hit>, k: nat) returns (r: seq<Hit>, ghost rest: multiset<Hit>)
    ensures Ascending(r) && Selects(r, rest, multiset(main) + multiset(dirty), k)
  {
    var sorted := SortByDistance(main + dirty);
    r := if |sorted| > k then sorted[..k] else sorted;
    rest := multiset(sorted[|r|..]);
    CutSelects(sorted, multiset(main) + multiset(dirty), k);
    assert r == sorted[..Min(k, |sorted|)];
  }

  // ---------------------------------------------------------------- the query

  /** The answer is the first k live candidates of a finished beam search. */
  ghost predicate BeamAnswer(h: HNSWIndex, query: Vec, k: nat, ep: nat, ef: int, marked: iset<nat>,
                             evaluated: set<nat>, candidates: seq<Hit>, results: seq<Hit>)
    requires h.VectorsOk()
    reads h
  {
    && BeamResult(h.View(query, 0), ep, ef, marked, evaluated, candidates)
    && (forall i :: 0 <= i < |candidates| ==> candidates[i].id < |h.nodes|)
    && var live := LiveOnly(h.nodes, h.deleted, candidates);
       results == live[..Min(k, |live|)]
  }

  /** The graph part of a query: descend, search the bottom layer, keep the first k live candidates. */
  method SearchGraph(h: HNSWIndex, query: Vec, k: nat, ef: int, vt: VisitedTracker)
    returns (results: seq<Hit>, ghost ep: nat, ghost trail: seq<nat>, ghost evaluated: set<nat>,
             ghost candidates: seq<Hit>)
    requires h.Valid() && vt.Valid() && k > 0 && h.entryPoint >= 0
    modifies vt
    ensures vt.Valid() && forall i: nat :: !vt.Marked(i)
    ensures Descent(h.Geometry(), h.nodes, h.deleted, query, h.entryPoint, 0, trail)
    ensures |trail| > 0 && ep == trail[|trail| - 1]
    ensures BeamAnswer(h, query, k, ep, ef, old(vt.MarkedSet()), evaluated, candidates, results)
    ensures Sound(h, query, results, k)
    ensures ef >= |h.nodes| ==> IsTopK(results, FoundDistances(h, query, ep, old(vt.MarkedSet())), k)
    ensures (forall i: nat :: old(vt.Marked(i))) ==> |results| <= 1
  {
    hide GraphOk, BeamResult, Descent, Sound, IsTopK, FoundDistances, HNSWIndex.IdsOk, HNSWIndex.Dist;
    hide HNSWIndex.Geometry;
    var start;
    start, trail := h.Descend(query, h.entryPoint, 0);
    ep := start;
    ghost var blocked := vt.MarkedSet();
    var found;
    found, evaluated := h.SearchLayer(query, start, ef, 0, vt);
    candidates := found;
    BeamFacts(h.View(query, 0), ep, ef, blocked, evaluated, found);
    results := TakeLive(h, found, k);
    ghost var n := Min(k, |LiveOnly(h.nodes, h.deleted, candidates)|);
    BeamIsSound(h, query, ep, ef, blocked, evaluated, candidates, k, n);
    if ef >= |h.nodes| {
      WideBeamIsTopK(h, query, ep, ef, blocked, evaluated, candidates, k, n);
    }
    if forall i: nat :: i in blocked {
      OnlyEntry(h, query, ep, ef, blocked, evaluated, candidates);
    }
    vt.NextGen();
  }

  lemma {:induction false} OnlyEntry(h: HNSWIndex, query: Vec, ep: nat, ef: int, blocked: iset<nat>,
                                     evaluated: set<nat>, c: seq<Hit>)
    requires h.VectorsOk() && BeamResult(h.View(query, 0), ep, ef, blocked, evaluated, c)
    requires (forall j :: 0 <= j < |c| ==> c[j].id < |h.nodes|) && forall i: nat :: i in blocked
    ensures |LiveOnly(h.nodes, h.deleted, c)| <= 1
  {
    AllBlockedReturnsEntryOnly(h.View(query, 0), ep, ef, blocked, evaluated, c);
    LiveOnlySize(h.nodes, h.deleted, c);
  }

  /**
   Without deletions the answer holds k hits, or else a hit for everything that can be reached
   around the marked nodes.
   */
  lemma {:induction false} AnswerFillsUp(h: HNSWIndex, query: Vec, k: nat, ep: nat, ef: int, marked: iset<nat>,
                                         evaluated: set<nat>, candidates: seq<Hit>, results: seq<Hit>, reach: set<nat>)
    requires h.VectorsOk() && BeamAnswer(h, query, k, ep, ef, marked, evaluated, candidates, results)
    requires h.deleted == {} && 0 < k <= ef && forall i :: i in reach <==> Found(h, query, ep, marked, i)
    ensures |results| == Min(k, |reach|)
  {
    BeamFillsUp(h.View(query, 0), ep, ef, marked, evaluated, candidates, reach);
    AllLive(h.nodes, candidates);
  }

  lemma {:induction false} AllLive(nodes: seq<Node>, c: seq<Hit>)
    requires forall j :: 0 <= j < |c| ==> c[j].id < |nodes|
    ensures |LiveOnly(nodes, {}, c)| == |c|
  {
    if c != [] {
      AllLive(nodes, c[..|c| - 1]);
    }
  }

  /**
   On a connected layer, with room for every node and none deleted, the graph part is exact if
   and only if the tracker was clear.
   */
  lemma {:induction false} GraphAnswerExactly(h: HNSWIndex, query: Vec, k: nat, ep: nat, marked: iset<nat>,
                                              results: seq<Hit>)
    requires h.VectorsOk() && h.IdsOk() && WellConnected(h, query, ep)
    requires IsTopK(results, FoundDistances(h, query, ep, marked), k)
    ensures Clear(h, ep, marked) ==> IsTopK(results, LiveDistances(h, query), k)
    ensures h.deleted == {} && k >= |h.nodes| ==>
              (IsTopK(results, LiveDistances(h, query), k) <==> Clear(h, ep, marked))
  {
    hide IsTopK, WellConnected, Clear, HNSWIndex.VectorsOk;
    FoundExactly(h, query, ep, marked);
    if h.deleted == {} && k >= |h.nodes| {
      LiveAtMostNodes(h, query);
      hide HNSWIndex.IdsOk, LiveDistances;
      RoomForAll(results, FoundDistances(h, query, ep, marked), LiveDistances(h, query), k);
    }
  }

  lemma {:induction false} LiveAtMostNodes(h: HNSWIndex, query: Vec)
    requires h.VectorsOk() && h.IdsOk()
    ensures |LiveDistances(h, query)| <= |h.nodes|
  {
    var live := LiveDistances(h, query);
    var ids := seq(|h.nodes|, i requires 0 <= i < |h.nodes| reads h => h.nodes[i].id);
    ElementsSize(ids);
    forall id | id in live ensures id in Elements(ids) {
      assert ids[h.idToNode[id]] == id;
    }
    SubsetSize(live.Keys, Elements(ids));
  }

  /** Where the bottom layer is connected every node can be found from every start. */
  lemma {:induction false} CoherentIsConnected(h: HNSWIndex, query: Vec, ep: nat)
    requires h.VectorsOk() && Coherent(h.Graph()) && ep < |h.nodes|
    ensures WellConnected(h, query, ep)
  {
    var u, v := Bottom(h.nodes), h.View(query, 0);
    assert u.adj == v.adj;
    forall i: nat | i < |h.nodes| ensures Found(h, query, ep, iset{}, i) {
      assert Reachable(u, ep, iset{}, i);
      StillReachable(u, v, ep, i);
    }
  }

  /**
   A wide query on a clear tracker is exact over all live ids wherever the bottom layer is
   connected: after any run that leaves an index no more nodes than a friend list can hold, and one.
   */
  lemma {:induction false} SmallIsExact(h: HNSWIndex, query: Vec, k: nat, ep: nat, ef: int, marked: iset<nat>,
                                        evaluated: set<nat>, candidates: seq<Hit>, results: seq<Hit>)
    requires h.Valid() && Coherent(h.Graph()) && 0 < k && ep < |h.nodes| <= ef && Clear(h, ep, marked)
    requires BeamAnswer(h, query, k, ep, ef, marked, evaluated, candidates, results)
    ensures IsTopK(results, LiveDistances(h, query), k)
  {
    hide Coherent, BeamResult, Clear, LiveDistances, FoundDistances, WellConnected, IsTopK, HNSWIndex.EntryOk, GraphOk;
    var n := Min(k, |LiveOnly(h.nodes, h.deleted, candidates)|);
    CoherentIsConnected(h, query, ep);
    WideBeamIsTopK(h, query, ep, ef, marked, evaluated, candidates, k, n);
    GraphAnswerExactly(h, query, k, ep, marked, results);
  }

  /** Everything the query draws from: the reachable live ids and every copied entry. */
  ghost function Pool(h: HNSWIndex, query: Vec, ep: nat, marked: iset<nat>, copied: seq<Pending>): multiset<Hit>
    requires h.VectorsOk() && h.IdsOk()
    reads h
  {
    Tabulation(FoundDistances(h, query, ep, marked)) + multiset(BufferHits(h.distFn, query, copied))
  }

  ghost predicate WideEnough(h: HNSWIndex, ef: int)
    reads h
  {
    h.entryPoint == -1 || ef >= |h.nodes|
  }

  /**
   A query over graph and dirty buffer, for any tracker and any buffer. The buffer is copied
   under its own lock; others run any locked sections, drains included, before the graph is
   searched as it is then.
   */
  method Search(h: HNSWIndex, query: Vec, k: int, efSearch: int, nprobe: int, vt: VisitedTracker,
                flight0: seq<seq<Pending>>, actions: seq<Action>, wt: VisitedTracker)
    returns (ok: bool, results: seq<Hit>, flight: seq<seq<Pending>>, ghost width: int,
             ghost ep: nat, ghost trail: seq<nat>, ghost evaluated: set<nat>, ghost candidates: seq<Hit>,
             ghost main: seq<Hit>, ghost rest: multiset<Hit>)
    requires h.Valid() && vt.Valid() && wt.Valid() && vt != wt && FlightOk(flight0, h.dim)
    modifies h, vt, wt
    ensures h.Valid() && vt.Valid() && wt.Valid() && FlightOk(flight, h.dim)
    ensures ok <==> |query| == h.dim
    ensures !ok || k <= 0 ==> results == []
    ensures ok && k > 0 ==> WorldOf(h, flight) == After(h.dim, old(WorldOf(h, flight0)), actions)
    ensures old(Coherent(h.Graph())) && |h.nodes| <= 2 * h.m + 1 ==> Coherent(h.Graph())
    ensures ok && k > 0 ==> Ascending(results) && Sound(h, query, main, k)
    ensures ok && k > 0 ==> width >= k && width >= (if nprobe > 0 then nprobe else efSearch)
    ensures ok && k > 0 ==> width == k || width == if nprobe > 0 then nprobe else efSearch
    ensures ok && k > 0 && h.entryPoint == -1 ==> main == []
    ensures ok && k > 0 && h.entryPoint >= 0 ==>
              && Descent(h.Geometry(), h.nodes, h.deleted, query, h.entryPoint, 0, trail)
              && |trail| > 0 && ep == trail[|trail| - 1]
              && BeamAnswer(h, query, k, ep, width, old(vt.MarkedSet()), evaluated, candidates, main)
    ensures ok && k > 0 && !WideEnough(h, width) ==>
              Selects(results, rest, multiset(main) + multiset(BufferHits(h.distFn, query, old(h.dirty))), k)
    ensures ok && k > 0 && WideEnough(h, width) ==>
              Selects(results, rest, Pool(h, query, ep, old(vt.MarkedSet()), old(h.dirty)), k)
  {
    hide Coherent, HNSWIndex.Graph;
    hide GraphOk, Sound, IsTopK, FoundDistances, BufferHits, HNSWIndex.IdsOk, HNSWIndex.Geometry, Descent;
    hide HNSWIndex.Live, Selects, Tabulation, BeamAnswer, ApplyAll;
    results, flight, width, ep, trail := [], flight0, 0, 0, [];
    evaluated, candidates, main, rest := {}, [], [], multiset{};
    ok := |query| == h.dim;
    if !ok || k <= 0 {
      return;
    }
    ghost var marked := vt.MarkedSet();
    var copied := h.dirty;
    var dirty, restB := SearchDirtyBuffer(h.distFn, query, copied, k);
    flight := Interleave(h, flight0, actions, wt);
    assert vt.MarkedSet() == marked;
    var ef := efSearch;
    if nprobe > 0 {
      ef := nprobe;
    }
    if ef < k {
      ef := k;
    }
    width := ef;
    results, ep, trail, evaluated, candidates, main, rest := SearchOver(h, query, k, ef, vt, copied, dirty, restB);
  }

  /** The second locked section of a query: searches the graph and merges with the answer from the copied buffer. */
  method SearchOver(h: HNSWIndex, query: Vec, k: nat, ef: int, vt: VisitedTracker,
                    ghost copied: seq<Pending>, dirty: seq<Hit>, ghost restB: multiset<Hit>)
    returns (results: seq<Hit>, ghost ep: nat, ghost trail: seq<nat>, ghost evaluated: set<nat>,
             ghost candidates: seq<Hit>, ghost main: seq<Hit>, ghost rest: multiset<Hit>)
    requires h.Valid() && vt.Valid() && k > 0
    requires Ascending(dirty) && Selects(dirty, restB, multiset(BufferHits(h.distFn, query, copied)), k)
    modifies vt
    ensures vt.Valid() && Ascending(results) && Sound(h, query, main, k)
    ensures h.entryPoint == -1 ==> main == []
    ensures h.entryPoint >= 0 ==>
              && Descent(h.Geometry(), h.nodes, h.deleted, query, h.entryPoint, 0, trail)
              && |trail| > 0 && ep == trail[|trail| - 1]
              && BeamAnswer(h, query, k, ep, ef, old(vt.MarkedSet()), evaluated, candidates, main)
    ensures !WideEnough(h, ef) ==>
              Selects(results, rest, multiset(main) + multiset(BufferHits(h.distFn, query, copied)), k)
    ensures WideEnough(h, ef) ==> Selects(results, rest, Pool(h, query, ep, old(vt.MarkedSet()), copied), k)
  {
    hide GraphOk, Sound, IsTopK, FoundDistances, BufferHits, HNSWIndex.IdsOk, Selects, Tabulation, BeamAnswer;
    hide Descent, HNSWIndex.Geometry;
    ep, trail, evaluated, candidates, main := 0, [], {}, [], [];
    ghost var marked := vt.MarkedSet();
    NothingFound(h, query, k);
    if h.entryPoint == -1 {
      NothingToFind(h, query, ep, marked, copied);
      return dirty, ep, trail, evaluated, candidates, main, restB;
    }
    var graph;
    graph, ep, trail, evaluated, candidates := SearchGraph(h, query, k, ef, vt);
    main, results := graph, graph;
    if |dirty| > 0 {
      results, rest := MergeResults(graph, dirty, k);
    } else {
      SoundIsBounded(h, query, graph, k);
      SelectsAll(graph, k);
      rest := multiset{};
      assert multiset(graph) + multiset(dirty) == multiset(graph);
    }
    SelectsNested(results, rest, multiset(main), dirty, restB, multiset(BufferHits(h.distFn, query, copied)), k);
    rest := rest + restB;
    if WideEnough(h, ef) {
      rest := PoolSelects(h, query, k, ep, marked, copied, main, results, rest);
    }
  }

  lemma {:induction false} PoolSelects(h: HNSWIndex, query: Vec, k: nat, ep: nat, marked: iset<nat>,
                                       copied: seq<Pending>,
                                       main: seq<Hit>, results: seq<Hit>, rest: multiset<Hit>)
    returns (all: multiset<Hit>)
    requires h.VectorsOk() && h.IdsOk() && IsTopK(main, FoundDistances(h, query, ep, marked), k)
    requires Selects(results, rest, multiset(main) + multiset(BufferHits(h.distFn, query, copied)), k)
    ensures Selects(results, all, Pool(h, query, ep, marked, copied), k)
  {
    hide IsTopK, FoundDistances, BufferHits, HNSWIndex.IdsOk, HNSWIndex.VectorsOk, Selects, Tabulation;
    var found := FoundDistances(h, query, ep, marked);
    TopKSelects(main, found, k);
    var restA := Tabulation(found) - multiset(main);
    var d := multiset(BufferHits(h.distFn, query, copied));
    assert multiset(main) + d == d + multiset(main);
    SelectsNested(results, rest, d, main, restA, Tabulation(found), k);
    assert Tabulation(found) + d == d + Tabulation(found);
    all := rest + restA;
  }

  lemma {:induction false} SoundIsBounded(h: HNSWIndex, query: Vec, r: seq<Hit>, k: int)
    requires h.VectorsOk() && h.IdsOk() && Sound(h, query, r, k)
    ensures Ascending(r) && |r| <= Max(k, 0)
  {
  }

  lemma {:induction false} SelectsAll(r: seq<Hit>, k: nat)
    requires |r| <= k
    ensures Selects(r, multiset{}, multiset(r), k)
  {
  }

  lemma {:induction false} NothingFound(h: HNSWIndex, query: Vec, k: nat)
    requires h.VectorsOk() && h.IdsOk()
    ensures Sound(h, query, [], k)
  {
  }

  lemma {:induction false} NothingToFind(h: HNSWIndex, query: Vec, ep: nat, marked: iset<nat>, copied: seq<Pending>)
    requires h.Valid() && h.entryPoint == -1
    ensures Pool(h, query, ep, marked, copied) == multiset(BufferHits(h.distFn, query, copied))
  {
    assert FoundDistances(h, query, ep, marked) == map[];
    assert Tabulation(map[]) == multiset{};
  }

  // ---------------------------------------------------------------- exact answers

  /**
   When the graph part misses nothing and the copied buffer is new to the graph it was merged
   with, the query is the exact top-k over both.
   */
  lemma {:induction false} NewBufferIsTopK(h: HNSWIndex, query: Vec, k: nat, ep: nat, marked: iset<nat>,
                                           copied: seq<Pending>,
                                           results: seq<Hit>, rest: multiset<Hit>)
    requires h.Valid() && Ascending(results) && Selects(results, rest, Pool(h, query, ep, marked, copied), k)
    requires FoundDistances(h, query, ep, marked) == LiveDistances(h, query) && IsNew(copied, h.Live())
    ensures IsTopK(results, LiveDistances(h, query) + Tabled(BufferHits(h.distFn, query, copied)), k)
  {
    var ma, hits := LiveDistances(h, query), BufferHits(h.distFn, query, copied);
    NewKeys(h, query, copied);
    hide *;
    TabulationTabulates(ma);
    HitsTabulate(hits);
    TabulatesUnion(Tabulation(ma), multiset(hits), ma, Tabled(hits));
    PoolIs(h, query, ep, marked, copied);
    SelectionIsTopK(results, rest, Pool(h, query, ep, marked, copied), ma + Tabled(hits), k);
  }

  lemma {:induction false} PoolIs(h: HNSWIndex, query: Vec, ep: nat, marked: iset<nat>, copied: seq<Pending>)
    requires h.VectorsOk() && h.IdsOk()
    ensures Pool(h, query, ep, marked, copied) ==
            Tabulation(FoundDistances(h, query, ep, marked)) + multiset(BufferHits(h.distFn, query, copied))
  {
  }

  lemma {:induction false} NewKeys(h: HNSWIndex, query: Vec, copied: seq<Pending>)
    requires h.Valid() && IsNew(copied, h.Live())
    ensures var hits := BufferHits(h.distFn, query, copied);
            DistinctIds(hits) && LiveDistances(h, query).Keys !! Tabled(hits).Keys
  {
    TabledIs(BufferHits(h.distFn, query, copied));
  }

  /**
   With room for everything, the answer names each id once exactly when the copied buffer
   repeats no id and holds none that is live in the graph it was merged with.
   */
  lemma {:induction false} DistinctExactly(h: HNSWIndex, query: Vec, k: nat, ep: nat, marked: iset<nat>,
                                           copied: seq<Pending>,
                                           results: seq<Hit>, rest: multiset<Hit>)
    requires h.Valid() && Ascending(results) && Selects(results, rest, Pool(h, query, ep, marked, copied), k)
    requires FoundDistances(h, query, ep, marked) == LiveDistances(h, query)
    requires k >= |h.Live()| + |copied|
    ensures DistinctIds(results) <==> IsNew(copied, h.Live())
  {
    if IsNew(copied, h.Live()) {
      NewBufferIsTopK(h, query, k, ep, marked, copied, results, rest);
    } else if DistinctIds(results) {
      PoolSize(h, query, ep, marked, copied);
      hide LiveDistances, FoundDistances, HNSWIndex.IdsOk, BufferHits, Tabulation, IsNew;
      WholePool(results, rest, Pool(h, query, ep, marked, copied), k);
      DistinctParts(results, Tabulation(LiveDistances(h, query)), BufferHits(h.distFn, query, copied));
      PartsAreNew(h, query, copied);
    }
  }

  lemma {:induction false} PoolSize(h: HNSWIndex, query: Vec, ep: nat, marked: iset<nat>, copied: seq<Pending>)
    requires h.Valid() && FoundDistances(h, query, ep, marked) == LiveDistances(h, query)
    ensures |Pool(h, query, ep, marked, copied)| == |h.Live()| + |copied|
  {
    TabulationTabulates(LiveDistances(h, query));
    assert LiveDistances(h, query).Keys == h.Live().Keys;
  }

  lemma {:induction false} WholePool(r: seq<Hit>, rest: multiset<Hit>, all: multiset<Hit>, k: nat)
    requires Selects(r, rest, all, k) && k >= |all|
    ensures multiset(r) == all
  {
    assert |multiset(r) + rest| == |r| + |rest|;
    assert |rest| == 0;
  }

  /** Distinct hits split into two parts without a shared id. */
  lemma {:induction false} DistinctParts(s: seq<Hit>, a: multiset<Hit>, d: seq<Hit>)
    requires DistinctIds(s) && multiset(s) == a + multiset(d)
    ensures DistinctIds(d) && forall x, y :: x in a && y in d ==> x.id != y.id
  {
    forall i, j | 0 <= i < j < |d| ensures d[i].id != d[j].id {
      CountedTwice(d, i, j);
      DistinctOnce(s, d[i]);
      assert d[i] in multiset(d) && d[j] in multiset(d);
      SameIdSameHit(s, d[i], d[j]);
    }
    forall x, y | x in a && y in d ensures x.id != y.id {
      assert y in multiset(d);
      assert x in multiset(s) && y in multiset(s);
      DistinctOnce(s, x);
      SameIdSameHit(s, x, y);
    }
  }

  lemma {:induction false} SameIdSameHit(s: seq<Hit>, x: Hit, y: Hit)
    requires DistinctIds(s) && x in multiset(s) && y in multiset(s)
    ensures x.id == y.id ==> x == y
  {
    var i :| 0 <= i < |s| && s[i] == x;
    var j :| 0 <= j < |s| && s[j] == y;
  }

  lemma {:induction false} PartsAreNew(h: HNSWIndex, query: Vec, copied: seq<Pending>)
    requires h.Valid() && DistinctIds(BufferHits(h.distFn, query, copied))
    requires forall x, y :: x in Tabulation(LiveDistances(h, query)) && y in BufferHits(h.distFn, query, copied) ==>
               x.id != y.id
    ensures IsNew(copied, h.Live())
  {
    var d, live := BufferHits(h.distFn, query, copied), LiveDistances(h, query);
    assert live.Keys == h.Live().Keys;
    assert forall id :: id in live ==> Hit(id, live[id]) in Tabulation(live);
    hide LiveDistances, HNSWIndex.Live, HNSWIndex.IdsOk, GraphOk;
    forall i | 0 <= i < |copied| ensures copied[i].id !in h.Live() {
      assert d[i] in d && d[i].id == copied[i].id;
    }
    forall i, j | 0 <= i < j < |copied| ensures copied[i].id != copied[j].id {
      assert d[i].id != d[j].id;
    }
  }

  // ---------------------------------------------------------------- queries while others run

  /**
   A query on a buffer that was new when copied repeats an id exactly if a batch with one of
   the copied ids was inserted, and the id not deleted since, before the graph was searched.
   */
  lemma {:induction false} DistinctAmidExactly(h: HNSWIndex, query: Vec, k: nat, ep: nat, marked: iset<nat>, w: World,
                                               flight: seq<seq<Pending>>, actions: seq<Action>, results: seq<Hit>,
                                               rest: multiset<Hit>)
    requires h.Valid() && WorldOf(h, flight) == After(h.dim, w, actions) && IsNew(w.dirty, w.live)
    requires Ascending(results) && Selects(results, rest, Pool(h, query, ep, marked, w.dirty), k)
    requires FoundDistances(h, query, ep, marked) == LiveDistances(h, query)
    requires k >= |h.Live()| + |w.dirty|
    ensures DistinctIds(results) <==>
            forall i, n :: 0 <= i < |w.dirty| && 0 <= n < |actions|
                           && AppliesAt(h.dim, w, actions, n, w.dirty[i].id) ==>
              !NoDelete(actions[n + 1..], w.dirty[i].id)
  {
    hide LiveDistances, FoundDistances, IsNew, AppliesAt, NoDelete, Pool, Selects;
    DistinctExactly(h, query, k, ep, marked, w.dirty, results, rest);
    StillNewExactly(h.dim, w, actions);
  }

  /** With room for everything, a query answers with exactly the ids it can see; HnswRuns says which are missed. */
  lemma {:induction false} AnswersSeen(h: HNSWIndex, query: Vec, k: nat, ep: nat, marked: iset<nat>, w: World,
                                       flight: seq<seq<Pending>>, actions: seq<Action>, results: seq<Hit>,
                                       rest: multiset<Hit>)
    requires h.Valid() && WorldOf(h, flight) == After(h.dim, w, actions)
    requires Selects(results, rest, Pool(h, query, ep, marked, w.dirty), k)
    requires FoundDistances(h, query, ep, marked) == LiveDistances(h, query)
    requires k >= |h.Live()| + |w.dirty|
    ensures Ids(results) == Seen(h.dim, w, actions)
  {
    var hits, live := BufferHits(h.distFn, query, w.dirty), LiveDistances(h, query);
    PoolSize(h, query, ep, marked, w.dirty);
    WholePool(results, rest, Pool(h, query, ep, marked, w.dirty), k);
    SeenIs(h, query, w, flight, actions);
    PoolIs(h, query, ep, marked, w.dirty);
    hide *;
    UnionIds(results, live, hits);
  }

  lemma {:induction false} SeenIs(h: HNSWIndex, query: Vec, w: World, flight: seq<seq<Pending>>, actions: seq<Action>)
    requires h.Valid() && WorldOf(h, flight) == After(h.dim, w, actions)
    ensures Seen(h.dim, w, actions) == LiveDistances(h, query).Keys + Ids(BufferHits(h.distFn, query, w.dirty))
  {
    var hits := BufferHits(h.distFn, query, w.dirty);
    hide After, HNSWIndex.IdsOk, GraphOk;
    assert LiveDistances(h, query).Keys == h.Live().Keys;
    forall id ensures id in Ids(hits) <==> id in BatchIds(w.dirty) {
      if id in Ids(hits) {
        var i :| 0 <= i < |hits| && hits[i].id == id;
        assert w.dirty[i] in w.dirty;
      }
      if id in BatchIds(w.dirty) {
        var i :| 0 <= i < |w.dirty| && w.dirty[i].id == id;
        assert hits[i] in hits;
      }
    }
  }

  lemma {:induction false} UnionIds(s: seq<Hit>, m: map<nat, real>, t: seq<Hit>)
    requires multiset(s) == Tabulation(m) + multiset(t)
    ensures Ids(s) == m.Keys + Ids(t)
  {
    forall x ensures x in s <==> (x.id in m && x.dist == m[x.id]) || x in t {
      assert x in s <==> x in multiset(s);
      assert x in t <==> x in multiset(t);
    }
    forall id ensures id in Ids(s) <==> id in m || id in Ids(t) {
      if id in m {
        assert Hit(id, m[id]) in s;
      }
      if id in Ids(t) {
        var x :| x in t && x.id == id;
        assert x in s;
      }
    }
  }
}
