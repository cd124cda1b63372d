/** The HNSW graph index: beam search, greedy descent, insertion and deletion. */
module Hnsw {
  import opened Common
  import opened Ranking
  import opened Heaps
  import opened Beam
  import opened HnswGraph
  import opened Visited

  /** A buffered insert not yet in the graph. */
  datatype Pending = Pending(id: nat, vector: Vec)

  /** The contents after applying buffered inserts in order: the first insert of an absent id wins. */
  ghost function ApplyAll(live: map<nat, Vec>, batch: seq<Pending>): map<nat, Vec> {
    if batch == [] then live
    else
      var before := ApplyAll(live, batch[..|batch| - 1]);
      var p := batch[|batch| - 1];
      if p.id in before then before else before[p.id := p.vector]
  }

  /** An entry whose id is new makes the graph grow, any other leaves it as it is. */
  ghost predicate Replayed(distFn: (Vec, Vec) -> real, g: GraphState, h: GraphState, deleted: set<nat>,
                           live: map<nat, Vec>, p: Pending, level: nat, width: int, m: nat)
  {
    if p.id in live then h == g else Inserts(distFn, g, h, deleted, p.id, p.vector, level, width, m)
  }

  /** The graphs before and after each entry of the batch. */
  ghost predicate Replays(distFn: (Vec, Vec) -> real, history: seq<GraphState>, deleted: set<nat>, live: map<nat, Vec>,
                          batch: seq<Pending>, levels: nat -> nat, width: int, m: nat)
  {
    && |history| == |batch| + 1
    && forall k: nat :: k < |batch| ==>
         Replayed(distFn, history[k], history[k + 1], deleted, ApplyAll(live, batch[..k]), batch[k], levels(k), width,
                  m)
  }

  lemma {:induction false} ReplaysOneMore(distFn: (Vec, Vec) -> real, history: seq<GraphState>, deleted: set<nat>,
                                          live: map<nat, Vec>, batch: seq<Pending>, k: nat, levels: nat -> nat,
                                          width: int, m: nat, next: GraphState)
    requires k < |batch| && Replays(distFn, history, deleted, live, batch[..k], levels, width, m)
    requires Replayed(distFn, history[k], next, deleted, ApplyAll(live, batch[..k]), batch[k], levels(k), width, m)
    ensures Replays(distFn, history + [next], deleted, live, batch[..k + 1], levels, width, m)
  {
    hide Replayed, ApplyAll;
    var all, b := history + [next], batch[..k + 1];
    forall j: nat | j < |b|
      ensures Replayed(distFn, all[j], all[j + 1], deleted, ApplyAll(live, b[..j]), b[j], levels(j), width, m)
    {
      assert b[..j] == batch[..j] && b[j] == batch[j];
      if j < k {
        assert batch[..k][..j] == batch[..j] && batch[..k][j] == batch[j];
        assert all[j] == history[j] && all[j + 1] == history[j + 1];
        assert Replayed(distFn, history[j], history[j + 1], deleted, ApplyAll(live, batch[..k][..j]), batch[..k][j],
                        levels(j), width, m);
      }
    }
  }

  /** Both heaps in order, holding exactly the candidates and the kept nodes; the result is never empty. */
  ghost predicate Queued(v: LayerView, cands: seq<Hit>, results: seq<Hit>, candIds: set<nat>, kept: set<nat>) {
    && IsHeap(false, cands) && IsHeap(true, results)
    && Holds(v, cands, candIds) && Holds(v, results, kept) && |results| > 0
  }

  lemma {:induction false} QueuedStart(v: LayerView, first: Hit)
    requires first.id < |v.dist| && first.dist == v.dist[first.id]
    ensures Queued(v, [first], [first], {first.id}, {first.id})
  {
    HoldsOne(v, first);
    OneIsHeap(first);
  }

  /** All these nodes are farther than the farthest kept hit. */
  ghost predicate Beyond(v: LayerView, results: seq<Hit>, ids: set<nat>) {
    |results| > 0 && forall x :: x in ids ==> x < |v.dist| && results[0].dist < v.dist[x]
  }

  lemma {:induction false} NoCandidates(v: LayerView, results: seq<Hit>, candIds: set<nat>, kept: set<nat>)
    requires Queued(v, [], results, candIds, kept)
    ensures Beyond(v, results, candIds + {})
  {
    HoldsNone(v, [], candIds);
  }

  lemma {:induction false} NothingHeld(v: LayerView, friends: seq<nat>)
    ensures Holds(v, [], Elements(friends[..0]))
  {
    assert Elements(friends[..0]) == {};
  }

  lemma {:induction false} RankOneMore(v: LayerView, friends: seq<nat>, k: nat, candidates: seq<Hit>)
    requires k < |friends| && NoRepeats(friends) && friends[k] < |v.dist|
    requires Holds(v, candidates, Elements(friends[..k]))
    ensures Holds(v, candidates + [Hit(friends[k], v.dist[friends[k]])], Elements(friends[..k + 1]))
  {
    hide Holds;
    var c := Hit(friends[k], v.dist[friends[k]]);
    assert friends[..k + 1] == friends[..k] + [friends[k]];
    assert friends[k] !in friends[..k];
    assert Elements(friends[..k + 1]) == Elements(friends[..k]) + {friends[k]};
    HoldsPush(v, candidates, Elements(friends[..k]), c, candidates + [c]);
  }

  ghost function Slices(slab: seq<real>, offsets: seq<nat>, dim: nat): (vecs: seq<Vec>)
    requires forall i :: 0 <= i < |offsets| ==> offsets[i] + dim <= |slab|
  {
    seq(|offsets|, i requires 0 <= i < |offsets| => slab[offsets[i]..offsets[i] + dim])
  }

  class HNSWIndex {
    const dim: nat
    const distFn: (Vec, Vec) -> real
    const m: nat
    const efConstruction: int

    var maxLevel: int
    var entryPoint: int
    var nodes: seq<Node>
    var idToNode: map<nat, nat>
    var deleted: set<nat>
    var dirty: seq<Pending>
    var vectorSlab: seq<real>
    var vectorOffsets: seq<nat>

    ghost predicate VectorsOk()
      reads this`nodes, this`vectorSlab, this`vectorOffsets
    {
      && |vectorOffsets| == |nodes|
      && forall i :: 0 <= i < |nodes| ==> vectorOffsets[i] + dim <= |vectorSlab|
    }

    function NodeVector(i: nat): Vec
      requires VectorsOk() && i < |nodes|
      reads this`nodes, this`vectorSlab, this`vectorOffsets
    {
      vectorSlab[vectorOffsets[i]..vectorOffsets[i] + dim]
    }

    function Dist(query: Vec, i: nat): real
      requires VectorsOk() && i < |nodes|
      reads this`nodes, this`vectorSlab, this`vectorOffsets
    {
      distFn(query, NodeVector(i))
    }

    /** The graph with its entry point and the vectors of its nodes. */
    ghost function Graph(): GraphState
      requires VectorsOk()
      reads this`nodes, this`vectorSlab, this`vectorOffsets, this`entryPoint, this`maxLevel
    {
      GraphState(nodes, Geometry().vecs, entryPoint, maxLevel)
    }

    ghost function Geometry(): (s: Space)
      requires VectorsOk()
      reads this`nodes, this`vectorSlab, this`vectorOffsets
      ensures s.distFn == distFn && |s.vecs| == |nodes|
      ensures forall i :: 0 <= i < |nodes| ==> s.vecs[i] == NodeVector(i)
    {
      Space(distFn, Slices(vectorSlab, vectorOffsets, dim))
    }

    /** One layer as the given query sees it. */
    ghost function View(query: Vec, layer: nat): (v: LayerView)
      requires VectorsOk()
      reads this`nodes, this`vectorSlab, this`vectorOffsets
      ensures |v.adj| == |v.dist| == |nodes|
      ensures forall i :: 0 <= i < |nodes| ==> v.adj[i] == LayerFriends(nodes[i], layer)
      ensures forall i :: 0 <= i < |nodes| ==> v.dist[i] == Dist(query, i)
    {
      ViewOf(Geometry(), nodes, query, layer)
    }

    lemma {:induction false} ViewIsOk(query: Vec, layer: nat)
      requires VectorsOk() && GraphOk(nodes, m)
      ensures ViewOk(View(query, layer))
      ensures forall i :: 0 <= i < |nodes| ==> |LayerFriends(nodes[i], layer)| <= 2 * m
    {
      var v := View(query, layer);
      forall i: nat | i < |nodes|
        ensures |LayerFriends(nodes[i], layer)| <= 2 * m
        ensures forall f :: f in v.adj[i] ==> f < |v.adj|
      {
        assert NodeOk(nodes, m, i);
      }
    }

    /** Marks the given neighbours and returns those not marked before, in order. */
    method CollectUnvisited(friends: seq<nat>, vt: VisitedTracker) returns (unvisited: seq<nat>)
      requires vt.Valid()
      modifies vt
      ensures vt.Valid()
      ensures |unvisited| <= |friends| && NoRepeats(unvisited)
      ensures forall f :: f in unvisited <==> f in friends && !old(vt.Marked(f))
      ensures forall j: nat :: vt.Marked(j) <==> old(vt.Marked(j)) || j in friends
    {
      unvisited := [];
      for i := 0 to |friends|
        invariant vt.Valid()
        invariant |unvisited| <= i && NoRepeats(unvisited)
        invariant forall f :: f in unvisited <==> f in friends[..i] && !old(vt.Marked(f))
        invariant forall j: nat :: vt.Marked(j) <==> old(vt.Marked(j)) || j in friends[..i]
      {
        assert friends[..i + 1] == friends[..i] + [friends[i]];
        var first := vt.Visit(friends[i]);
        if first {
          unvisited := unvisited + [friends[i]];
        }
      }
      assert friends[..|friends|] == friends;
    }

    /** Fills the first |batch| slots of the preallocated distance buffer. */
    method BatchDistance(query: Vec, batch: seq<nat>, dists: array<real>)
      requires VectorsOk() && |batch| <= dists.Length
      requires forall k :: 0 <= k < |batch| ==> batch[k] < |nodes|
      modifies dists
      ensures forall k :: 0 <= k < |batch| ==> dists[k] == Dist(query, batch[k])
    {
      for k := 0 to |batch|
        invariant forall j :: 0 <= j < k ==> dists[j] == Dist(query, batch[j])
      {
        dists[k] := Dist(query, batch[k]);
      }
    }

    /**
     Offers one evaluated node to the two heaps: it is kept while the result has
     room or it beats the farthest kept hit.
     */
    method Offer(cands: seq<Hit>, results: seq<Hit>, friend: Hit, ef: int,
                 ghost v: LayerView, ghost ep: nat, ghost blocked: iset<nat>,
                 ghost evaluated: set<nat>, ghost expanded: set<nat>, ghost candIds: set<nat>, ghost kept: set<nat>,
                 ghost cur: set<nat>)
      returns (cands': seq<Hit>, results': seq<Hit>, ghost candIds': set<nat>, ghost kept': set<nat>)
      requires Queued(v, cands, results, candIds, kept)
      requires Running(v, ep, ef, blocked, evaluated, expanded, candIds, kept, cur)
      requires friend.id < |v.adj| && friend.id !in evaluated && friend.dist == v.dist[friend.id]
      requires Reachable(v, ep, blocked, friend.id)
      ensures IsHeap(false, cands') && IsHeap(true, results')
      ensures Queued(v, cands', results', candIds', kept')
      ensures Running(v, ep, ef, blocked, evaluated + {friend.id}, expanded, candIds', kept', cur)
    {
      cands', results', candIds', kept' := cands, results, candIds, kept;
      ghost var f := friend.id;
      RootIsBestOfAll(true, results);
      HoldsMember(v, results, kept, 0);
      HoldsBounds(v, results, kept, results[0]);
      if |results| < ef || friend.dist < results[0].dist {
        cands' := Push(false, cands, friend);
        results' := Push(true, results, friend);
        HoldsPush(v, cands, candIds, friend, cands');
        HoldsPush(v, results, kept, friend, results');
        candIds', kept' := candIds + {f}, kept + {f};
        if |results'| > ef {
          ghost var full := results';
          var w;
          w, results' := Pop(true, results');
          HoldsPop(v, full, kept', w, results');
          HoldsBounds(v, full, kept', w);
          OfferReplaces(v, ep, ef, blocked, evaluated, expanded, candIds, kept, cur, f, w.id);
          kept' := kept + {f} - {w.id};
        } else {
          OfferToRoom(v, ep, ef, blocked, evaluated, expanded, candIds, kept, cur, f);
        }
      } else {
        OfferRejected(v, ep, ef, blocked, evaluated, expanded, candIds, kept, cur, f);
      }
    }

    /** Takes the closest candidate off its heap. */
    static method TakeNext(cands0: seq<Hit>, ef: int, ghost results: seq<Hit>, ghost v: LayerView, ghost ep: nat,
                           ghost blocked: iset<nat>,
                           ghost evaluated: set<nat>, ghost expanded: set<nat>, ghost candIds: set<nat>,
                           ghost kept: set<nat>)
      returns (c: Hit, cands: seq<Hit>)
      requires |cands0| > 0 && Queued(v, cands0, results, candIds, kept)
      requires Running(v, ep, ef, blocked, evaluated, expanded, candIds, kept, {})
      ensures Queued(v, cands, results, candIds - {c.id}, kept)
      ensures Running(v, ep, ef, blocked, evaluated, expanded, candIds - {c.id}, kept, {c.id})
      ensures c.id < |v.adj| == |v.dist| && c.dist == v.dist[c.id] && c.id !in expanded
      ensures |expanded + {c.id}| == |expanded| + 1 <= |v.adj|
      ensures |results| > 0 && (c.dist > results[0].dist ==> Beyond(v, results, candIds - {c.id} + {c.id}))
      ensures |results| < ef || c.dist <= results[0].dist ==> Due(v, ef, evaluated, expanded, c.id)
    {
      hide IsHeap, Reachable, Closest, Closed;
      c, cands := Pop(false, cands0);
      HoldsPop(v, cands0, candIds, c, cands);
      HoldsBounds(v, cands0, candIds, c);
      TakeCandidate(v, ep, ef, blocked, evaluated, expanded, candIds, kept, c.id);
      hide Holds, Running, Due;
      if |results| < ef || c.dist <= results[0].dist {
        NextIsDue(v, ep, ef, blocked, evaluated, expanded, candIds - {c.id}, kept, results, c);
      }
    }

    static lemma {:induction false} NextIsDue(v: LayerView, ep: nat, ef: int, blocked: iset<nat>, evaluated: set<nat>,
                                              expanded: set<nat>, cands: set<nat>, kept: set<nat>, results: seq<Hit>,
                                              c: Hit)
      requires Running(v, ep, ef, blocked, evaluated, expanded, cands, kept, {c.id}) && Holds(v, results, kept)
      requires c.id < |v.dist| && c.dist == v.dist[c.id]
      requires forall x :: x in cands ==> x < |v.dist| && c.dist <= v.dist[x]
      requires |results| > 0 && (|results| < ef || c.dist <= results[0].dist)
      ensures Due(v, ef, evaluated, expanded, c.id)
    {
      HoldsMember(v, results, kept, 0);
      hide Running;
      ClosestIsDue(v, ep, ef, blocked, evaluated, expanded, cands, kept, c.id, results[0].id);
    }

    /** Empties the result heap once every candidate left is farther than its root. */
    static method FinishSearch(results: seq<Hit>, ef: int, ghost cands: seq<Hit>, ghost v: LayerView, ghost ep: nat,
                               ghost blocked: iset<nat>,
                               ghost evaluated: set<nat>, ghost expanded: set<nat>, ghost candIds: set<nat>,
                               ghost kept: set<nat>, ghost cur: set<nat>, ghost order: seq<nat>)
      returns (sorted: seq<Hit>)
      requires Queued(v, cands, results, candIds, kept)
      requires Running(v, ep, ef, blocked, evaluated, expanded, candIds, kept, cur)
      requires Beyond(v, results, candIds + cur) && Order(v, ep, ef, blocked, evaluated, expanded, order)
      ensures BeamResult(v, ep, ef, blocked, evaluated, sorted)
    {
      hide IsHeap, Holds, Running, BeamResult, Order;
      RootIsBestOfAll(true, results);
      HoldsBounds(v, results, kept, results[0]);
      HoldsRange(v, results, kept);
      sorted := DrainAscending(results);
      HoldsResult(v, results, kept, sorted);
      Stopped(v, ep, ef, blocked, evaluated, expanded, candIds, kept, cur, order, sorted);
    }

    /** Offers a batch of freshly evaluated neighbours of cur, in order. */
    method OfferAll(batch: seq<nat>, dists: array<real>, ef: int, cands0: seq<Hit>, results0: seq<Hit>,
                    ghost v: LayerView, ghost ep: nat, ghost blocked: iset<nat>,
                    ghost evaluated0: set<nat>, ghost expanded: set<nat>, ghost candIds0: set<nat>,
                    ghost kept0: set<nat>, ghost cur: set<nat>)
      returns (cands: seq<Hit>, results: seq<Hit>, ghost evaluated: set<nat>, ghost candIds: set<nat>,
               ghost kept: set<nat>)
      requires Queued(v, cands0, results0, candIds0, kept0)
      requires Running(v, ep, ef, blocked, evaluated0, expanded, candIds0, kept0, cur)
      requires NoRepeats(batch) && |batch| <= dists.Length
      requires forall k :: 0 <= k < |batch| ==>
                 && batch[k] < |v.adj| && batch[k] !in evaluated0
                 && dists[k] == v.dist[batch[k]] && Reachable(v, ep, blocked, batch[k])
      ensures Queued(v, cands, results, candIds, kept)
      ensures Running(v, ep, ef, blocked, evaluated, expanded, candIds, kept, cur)
      ensures forall j :: j in evaluated <==> j in evaluated0 || j in batch
    {
      hide Running, Queued, Reachable;
      cands, results, evaluated, candIds, kept := cands0, results0, evaluated0, candIds0, kept0;
      for i := 0 to |batch|
        invariant Queued(v, cands, results, candIds, kept)
        invariant Running(v, ep, ef, blocked, evaluated, expanded, candIds, kept, cur)
        invariant forall j :: j in evaluated <==> j in evaluated0 || j in batch[..i]
      {
        assert batch[..i + 1] == batch[..i] + [batch[i]];
        cands, results, candIds, kept := Offer(cands, results, Hit(batch[i], dists[i]), ef,
                                               v, ep, blocked, evaluated, expanded, candIds, kept, cur);
        evaluated := evaluated + {batch[i]};
      }
      assert batch[..|batch|] == batch;
    }

    /** The tracker marks what it marked at the start and what was evaluated since. */
    static ghost predicate MarksExactly(vt: VisitedTracker, blocked: iset<nat>, evaluated: set<nat>)
      reads vt
    {
      forall j: nat :: vt.Marked(j) <==> j in blocked || j in evaluated
    }

    /** Evaluates the unvisited neighbours of node c as one batch and offers each to the heaps. */
    method Expand(query: Vec, c: nat, ef: int, layer: nat, vt: VisitedTracker, dists: array<real>, cands0: seq<Hit>,
                  results0: seq<Hit>,
                  ghost v: LayerView, ghost ep: nat, ghost blocked: iset<nat>,
                  ghost evaluated0: set<nat>, ghost expanded: set<nat>, ghost candIds0: set<nat>, ghost kept0: set<nat>)
      returns (cands: seq<Hit>, results: seq<Hit>, ghost evaluated: set<nat>, ghost candIds: set<nat>,
               ghost kept: set<nat>)
      requires VectorsOk() && GraphOk(nodes, m) && vt.Valid() && dists.Length == 2 * m
      requires v == View(query, layer)
      requires MarksExactly(vt, blocked, evaluated0)
      requires Queued(v, cands0, results0, candIds0, kept0)
      requires Running(v, ep, ef, blocked, evaluated0, expanded, candIds0, kept0, {c}) && c < |nodes|
      modifies vt, dists
      ensures vt.Valid()
      ensures MarksExactly(vt, blocked, evaluated)
      ensures Queued(v, cands, results, candIds, kept)
      ensures Running(v, ep, ef, blocked, evaluated, expanded + {c}, candIds, kept, {})
      ensures evaluated == evaluated0 + Fresh(v, blocked, c)
    {
      hide Running, Queued, Reachable, GraphOk, Dist, NodeVector;
      cands, results, evaluated, candIds, kept := cands0, results0, evaluated0, candIds0, kept0;
      ViewIsOk(query, layer);
      CurrentReachable(v, ep, ef, blocked, evaluated0, expanded, candIds0, kept0, c);
      if layer < |nodes[c].friends| {
        var friends := nodes[c].friends[layer];
        var unvisited := CollectUnvisited(friends, vt);
        forall k | 0 <= k < |unvisited|
          ensures unvisited[k] < |nodes| && unvisited[k] !in evaluated && unvisited[k] !in blocked
        {
          assert unvisited[k] in unvisited;
        }
        BatchDistance(query, unvisited, dists);
        forall k | 0 <= k < |unvisited| ensures Reachable(v, ep, blocked, unvisited[k]) {
          assert unvisited[k] in unvisited;
          StepReachable(v, ep, blocked, c, unvisited[k]);
        }
        cands, results, evaluated, candIds, kept :=
          OfferAll(unvisited, dists, ef, cands, results, v, ep, blocked, evaluated, expanded, candIds, kept, {c});
      }
      FinishExpansion(v, ep, ef, blocked, evaluated, expanded, candIds, kept, c);
    }

    /** Marks and evaluates the entry point of a search. */
    method StartAt(query: Vec, ep: nat, layer: nat, vt: VisitedTracker) returns (first: Hit)
      requires VectorsOk() && ep < |nodes| && vt.Valid()
      modifies vt
      ensures vt.Valid() && MarksExactly(vt, old(vt.MarkedSet()), {ep})
      ensures first.id == ep && Queued(View(query, layer), [first], [first], {ep}, {ep})
    {
      hide VectorsOk, NodeVector, Dist, Queued;
      var _ := vt.Visit(ep);
      first := Hit(ep, Dist(query, ep));
      QueuedStart(View(query, layer), first);
    }

    /**
     Beam search on one layer from ep. The contract holds for any tracker:
     nodes it already marks are skipped, all others follow the beam.
     */
    method SearchLayer(query: Vec, ep: nat, ef: int, layer: nat, vt: VisitedTracker)
      returns (sorted: seq<Hit>, ghost evaluated: set<nat>)
      requires VectorsOk() && GraphOk(nodes, m) && ep < |nodes| && vt.Valid()
      modifies vt
      ensures vt.Valid()
      ensures BeamResult(View(query, layer), ep, ef, old(vt.MarkedSet()), evaluated, sorted)
    {
      hide Running, Queued, Beyond, Reachable, BeamResult, GraphOk, VectorsOk, Dist, NodeVector, Due, Order, Fresh;
      hide Ascending, DistinctIds, Ids, VisitedTracker.Valid, VisitedTracker.Marked;
      ghost var v := View(query, layer);
      ghost var blocked := vt.MarkedSet();
      ViewIsOk(query, layer);
      StartRunning(v, ep, ef, blocked);
      hide HNSWIndex.MarksExactly, HNSWIndex.View, VisitedTracker.MarkedSet;
      var first := StartAt(query, ep, layer, vt);
      var cands, results := [first], [first];
      evaluated := {ep};
      ghost var expanded: set<nat>, candIds, kept, order: seq<nat> := {}, {ep}, {ep}, [];
      OrderStart(v, ep, ef, blocked);
      var dists := new real[2 * m];
      while |cands| > 0
        invariant vt.Valid() && fresh(dists) && dists.Length == 2 * m
        invariant MarksExactly(vt, blocked, evaluated)
        invariant Queued(v, cands, results, candIds, kept)
        invariant Running(v, ep, ef, blocked, evaluated, expanded, candIds, kept, {})
        invariant |expanded| <= |nodes| && Order(v, ep, ef, blocked, evaluated, expanded, order)
        decreases |nodes| - |expanded|
      {
        hide HNSWIndex.MarksExactly;
        var c;
        c, cands := TakeNext(cands, ef, results, v, ep, blocked, evaluated, expanded, candIds, kept);
        candIds := candIds - {c.id};
        if |results| >= ef && c.dist > results[0].dist {
          sorted := FinishSearch(results, ef, cands, v, ep, blocked, evaluated, expanded, candIds, kept, {c.id}, order);
          return;
        }
        OrderNext(v, ep, ef, blocked, evaluated, expanded, order, c.id);
        cands, results, evaluated, candIds, kept :=
          Expand(query, c.id, ef, layer, vt, dists, cands, results, v, ep, blocked, evaluated, expanded, candIds, kept);
        expanded, order := expanded + {c.id}, order + [c.id];
      }
      NoCandidates(v, results, candIds, kept);
      sorted := FinishSearch(results, ef, [], v, ep, blocked, evaluated, expanded, candIds, kept, {}, order);
    }

    // ---------------------------------------------------------------- greedy descent

    ghost function Closer(query: Vec, d: real): set<nat>
      requires VectorsOk()
      reads this`nodes, this`vectorSlab, this`vectorOffsets
    {
      set i: nat | i < |nodes| && Dist(query, i) < d
    }

    lemma {:induction false} CloserShrinks(query: Vec, i: nat, d: real)
      requires VectorsOk() && i < |nodes| && Dist(query, i) < d
      ensures |Closer(query, Dist(query, i))| < |Closer(query, d)|
    {
      var a, b := Closer(query, Dist(query, i)), Closer(query, d);
      assert a <= b - {i};
      SubsetSize(a, b - {i});
    }

    lemma {:induction false} FriendsInRange(i: nat, layer: nat)
      requires GraphOk(nodes, m) && i < |nodes|
      ensures forall j :: 0 <= j < |LayerFriends(nodes[i], layer)| ==>
                && LayerFriends(nodes[i], layer)[j] < |nodes|
                && nodes[LayerFriends(nodes[i], layer)[j]].level >= layer
    {
      assert NodeOk(nodes, m, i);
      var l := LayerFriends(nodes[i], layer);
      forall j | 0 <= j < |l| ensures l[j] < |nodes| && nodes[l[j]].level >= layer {
        assert l[j] in l;
      }
    }

    /** One pass over a friend list: moves to every strictly closer live friend met. */
    method GreedyPass(query: Vec, start: nat, friends: seq<nat>) returns (ep: nat, changed: bool, ghost at: nat)
      requires VectorsOk() && start < |nodes|
      requires forall j :: 0 <= j < |friends| ==> friends[j] < |nodes|
      ensures ep < |nodes|
      ensures changed ==> at < |friends| && ep == friends[at] && ep !in deleted && Dist(query, ep) < Dist(query, start)
      ensures !changed ==> ep == start
      ensures forall j :: 0 <= j < |friends| ==>
                friends[j] in deleted || (Dist(query, ep) <= Dist(query, friends[j])
                                          && (changed && j < at ==> Dist(query, ep) < Dist(query, friends[j])))
    {
      hide Dist, NodeVector;
      ep, changed, at := start, false, 0;
      var epDist := Dist(query, ep);
      for k := 0 to |friends|
        invariant ep < |nodes| && epDist == Dist(query, ep)
        invariant changed ==> at < k && ep == friends[at] && ep !in deleted && epDist < Dist(query, start)
        invariant !changed ==> ep == start
        invariant forall j :: 0 <= j < k ==>
                    friends[j] in deleted || (epDist <= Dist(query, friends[j])
                                              && (changed && j < at ==> epDist < Dist(query, friends[j])))
      {
        if friends[k] !in deleted {
          var d := Dist(query, friends[k]);
          if d < epDist {
            ep, epDist, changed, at := friends[k], d, true, k;
          }
        }
      }
    }

    /** A pass that moves is a greedy step, one that does not leaves a local minimum. */
    lemma {:induction false} PassIsStep(query: Vec, from: nat, layer: nat, ep: nat, changed: bool, at: nat)
      requires VectorsOk() && GraphOk(nodes, m) && from < |nodes| && ep < |nodes| && ViewOk(View(query, layer))
      requires var l := LayerFriends(nodes[from], layer);
               && (forall j :: 0 <= j < |l| ==> l[j] < |nodes|)
               && (changed ==> at < |l| && ep == l[at] && ep !in deleted && Dist(query, ep) < Dist(query, from))
               && (!changed ==> ep == from)
               && forall j :: 0 <= j < |l| ==>
                    l[j] in deleted || (Dist(query, ep) <= Dist(query, l[j])
                                        && (changed && j < at ==> Dist(query, ep) < Dist(query, l[j])))
      ensures changed ==> GreedyStep(View(query, layer), deleted, from, ep)
      ensures !changed ==> LocalMinimum(View(query, layer), deleted, ep)
    {
      var v := View(query, layer);
      hide HNSWIndex.View, HNSWIndex.Dist, GraphOk, VectorsOk, NodeVector;
      if changed {
        assert Improves(v, deleted, from, at);
      }
    }

    /** One pass over the friends of a node on the layer; a node below the layer has none. */
    method GreedyRound(query: Vec, from: nat, layer: nat) returns (ep: nat, changed: bool)
      requires VectorsOk() && GraphOk(nodes, m) && from < |nodes| && ViewOk(View(query, layer))
      ensures ep < |nodes|
      ensures changed ==> GreedyStep(View(query, layer), deleted, from, ep) && Dist(query, ep) < Dist(query, from)
      ensures changed ==> nodes[ep].level >= layer
      ensures !changed ==> ep == from && LocalMinimum(View(query, layer), deleted, ep)
    {
      hide Dist, NodeVector, GraphOk, GreedyStep, HNSWIndex.View, LocalMinimum, VectorsOk, ViewOk;
      ghost var at := 0;
      ep, changed := from, false;
      FriendsInRange(from, layer);
      if layer < |nodes[from].friends| {
        assert nodes[from].friends[layer] == LayerFriends(nodes[from], layer);
        ep, changed, at := GreedyPass(query, from, nodes[from].friends[layer]);
      }
      PassIsStep(query, from, layer, ep, changed, at);
    }

    /**
     Greedy walk: every step goes to the closest live neighbour while that is an improvement.
     The result is no farther than the start and, unless it is the start, lies on the layer.
     */
    method GreedyClosest(query: Vec, start: nat, layer: nat) returns (ep: nat, ghost walk: seq<nat>)
      requires VectorsOk() && GraphOk(nodes, m) && start < |nodes|
      ensures ep < |nodes| && Dist(query, ep) <= Dist(query, start)
      ensures ep == start || nodes[ep].level >= layer
      ensures ViewOk(View(query, layer))
      ensures GreedyWalk(View(query, layer), deleted, walk) && walk[0] == start && walk[|walk| - 1] == ep
    {
      ViewIsOk(query, layer);
      hide Dist, NodeVector, GraphOk, Closer, GreedyStep, HNSWIndex.View, LocalMinimum, VectorsOk, ViewOk, Walked;
      ep, walk := start, [start];
      ghost var v := View(query, layer);
      WalkStarts(v, deleted, start);
      var changed := true;
      while changed
        invariant ep < |nodes| && Dist(query, ep) <= Dist(query, start)
        invariant ep == start || nodes[ep].level >= layer
        invariant Walked(v, deleted, walk, start, ep)
        invariant !changed ==> LocalMinimum(v, deleted, ep)
        decreases |Closer(query, Dist(query, ep))|, changed
      {
        ghost var from := ep;
        ep, changed := GreedyRound(query, ep, layer);
        if changed {
          CloserShrinks(query, ep, Dist(query, from));
          WalkExtends(v, deleted, walk, start, from, ep);
          walk := walk + [ep];
        }
      }
      WalkComplete(v, deleted, walk, start, ep);
    }

    // ---------------------------------------------------------------- neighbour selection

    /** c may join the selected neighbours: none of them is closer to it than the query is. */
    predicate Diverse(c: Hit, selected: seq<nat>)
      requires VectorsOk() && c.id < |nodes|
      requires forall k :: 0 <= k < |selected| ==> selected[k] < |nodes|
      reads this`nodes, this`vectorSlab, this`vectorOffsets
    {
      forall k :: 0 <= k < |selected| ==> distFn(NodeVector(c.id), NodeVector(selected[k])) >= c.dist
    }

    static method TakeAll(candidates: seq<Hit>) returns (result: seq<nat>, ghost picks: seq<nat>)
      ensures Lists(candidates, picks, result) && |result| == |candidates|
      ensures forall k :: 0 <= k < |picks| ==> picks[k] == k
    {
      result, picks := [], [];
      for i := 0 to |candidates|
        invariant |result| == |picks| == i
        invariant forall k :: 0 <= k < i ==> picks[k] == k && result[k] == candidates[k].id
      {
        result, picks := result + [candidates[i].id], picks + [i];
      }
    }

    /** Looking at one more candidate. */
    lemma {:induction false} LookedAtOne(candidates: seq<Hit>, picks: seq<nat>, result: seq<nat>, i: nat)
      requires VectorsOk() && i < |candidates| && Lists(candidates, picks, result)
      requires Picked(Geometry(), candidates, picks, i)
      ensures forall k :: 0 <= k < |result| ==> result[k] < |nodes|
      ensures candidates[i].id < |nodes|
      ensures Diverse(candidates[i], result) ==>
                && Picked(Geometry(), candidates, picks + [i], i + 1)
                && Lists(candidates, picks + [i], result + [candidates[i].id])
      ensures !Diverse(candidates[i], result) ==> Picked(Geometry(), candidates, picks, i + 1)
    {
      var s := Geometry();
      hide NodeVector, VectorsOk, HNSWIndex.Geometry;
      assert Accepts(s, candidates, picks, i) <==> Diverse(candidates[i], result) by {
        forall k | 0 <= k < |picks| ensures result[k] == candidates[picks[k]].id && picks[k] < i {}
      }
      PickedOneMore(s, candidates, picks, i);
    }

    /** Takes candidates in order while diverse, up to mm of them; i is how far it looked. */
    method SelectDiverse(candidates: seq<Hit>, mm: nat) returns (result: seq<nat>, ghost picks: seq<nat>)
      requires VectorsOk() && InSpace(Geometry(), candidates)
      ensures Lists(candidates, picks, result) && |result| <= mm
      ensures Picked(Geometry(), candidates, picks, LookedAt(picks, mm, |candidates|))
    {
      result, picks := [], [];
      var i := 0;
      while i < |candidates| && |result| < mm
        invariant 0 <= i <= |candidates| && |result| <= mm
        invariant Lists(candidates, picks, result) && Picked(Geometry(), candidates, picks, i)
        invariant |picks| == mm && picks != [] ==> picks[|picks| - 1] == i - 1
        invariant mm == 0 ==> i == 0
      {
        hide Picked, Lists, Diverse, NodeVector, VectorsOk, HNSWIndex.Geometry;
        LookedAtOne(candidates, picks, result, i);
        PickCount(candidates, picks, result);
        if Diverse(candidates[i], result) {
          result, picks := result + [candidates[i].id], picks + [i];
        }
        i := i + 1;
      }
    }

    static lemma {:induction false} PickCount(candidates: seq<Hit>, picks: seq<nat>, result: seq<nat>)
      requires Lists(candidates, picks, result)
      ensures |picks| == |result|
    {
    }

    /**
     The diversity heuristic. A short candidate list is taken whole; otherwise
     candidates are taken in order while diverse, up to mm of them. picks gives
     the candidate position of each selected neighbour.
     */
    method SelectNeighborsHeuristic(candidates: seq<Hit>, mm: nat) returns (result: seq<nat>, ghost picks: seq<nat>)
      requires VectorsOk() && InSpace(Geometry(), candidates)
      ensures Chosen(Geometry(), candidates, picks, result, mm)
    {
      hide Picked, HNSWIndex.Geometry, VectorsOk;
      if |candidates| <= mm {
        result, picks := TakeAll(candidates);
      } else {
        result, picks := SelectDiverse(candidates, mm);
      }
    }

    /** The friends with their distances, closest first. */
    method RankByDistance(nodeVec: Vec, friends: seq<nat>) returns (sorted: seq<Hit>)
      requires VectorsOk() && NoRepeats(friends)
      requires forall k :: 0 <= k < |friends| ==> friends[k] < |nodes|
      ensures ByDistance(Geometry(), nodeVec, friends, sorted)
    {
      ghost var v := View(nodeVec, 0);
      var candidates: seq<Hit> := [];
      NothingHeld(v, friends);
      for k := 0 to |friends|
        invariant Holds(v, candidates, Elements(friends[..k]))
      {
        hide *;
        RankOneMore(v, friends, k, candidates);
        candidates := candidates + [Hit(friends[k], Dist(nodeVec, friends[k]))];
      }
      assert friends[..|friends|] == friends;
      hide *;
      sorted := SortByDistance(candidates);
      SortedIsRanked(nodeVec, friends, candidates, sorted);
    }

    lemma {:induction false} SortedIsRanked(nodeVec: Vec, friends: seq<nat>, candidates: seq<Hit>, sorted: seq<Hit>)
      requires VectorsOk() && Holds(View(nodeVec, 0), candidates, Elements(friends))
      requires Ascending(sorted) && multiset(sorted) == multiset(candidates) && |sorted| == |candidates|
      ensures ByDistance(Geometry(), nodeVec, friends, sorted)
    {
      hide Holds, VectorsOk, NodeVector, Elements;
      HoldsResult(View(nodeVec, 0), candidates, Elements(friends), sorted);
    }

    /** An over-full list keeps what the heuristic selects from it in order of distance. */
    method PruneConnections(nodeVec: Vec, friends: seq<nat>, maxConn: nat) returns (result: seq<nat>)
      requires VectorsOk() && NoRepeats(friends)
      requires forall k :: 0 <= k < |friends| ==> friends[k] < |nodes|
      ensures |result| <= maxConn && NoRepeats(result)
      ensures forall f :: f in result ==> f in friends
      ensures Pruned(Geometry(), nodeVec, friends, result, maxConn)
    {
      if |friends| <= maxConn {
        return friends;
      }
      hide Chosen, VectorsOk, Dist, NodeVector, HNSWIndex.Geometry;
      var closest := RankByDistance(nodeVec, friends);
      ghost var picks;
      result, picks := SelectNeighborsHeuristic(closest, maxConn);
      ChosenMembers(Geometry(), closest, picks, result, maxConn);
      forall f | f in result ensures f in friends {
        assert f in Elements(friends);
      }
    }

    // ---------------------------------------------------------------- linking a new node

    /** Linking changes no vector. */
    twostate lemma {:induction false} SameGeometry()
      requires old(VectorsOk()) && VectorsOk() && |nodes| == old(|nodes|)
      requires vectorSlab == old(vectorSlab) && vectorOffsets == old(vectorOffsets)
      ensures Geometry() == old(Geometry())
    {
      forall i | 0 <= i < |nodes| ensures NodeVector(i) == old(NodeVector(i)) {}
    }

    /** Adds q to one neighbour's list on the layer, pruning it when over-full. */
    method AddBackEdge(q: nat, layer: nat, nb: nat)
      requires VectorsOk() && GraphOk(nodes, m) && q < |nodes| && nb < |nodes| && nb != q
      requires layer <= nodes[nb].level && layer <= nodes[q].level
      requires q !in LayerFriends(nodes[nb], layer)
      modifies this`nodes
      ensures GraphOk(nodes, m) && SameSkeleton(old(nodes), nodes) && VectorsOk() && Geometry() == old(Geometry())
      ensures OneLinked(Geometry(), old(nodes), nodes, q, layer, nb, MaxConn(m, layer))
    {
      assert NodeOk(nodes, m, nb);
      var l := nodes[nb].friends[layer];
      assert ListOk(nodes, m, nb, layer, l);
      WithOneMore(l, q);
      hide Pruned, GraphOk, HNSWIndex.Geometry, NodeVector, VectorsOk;
      var kept := Widened(nb, l + [q], MaxConn(m, layer));
      KeptListOk(nodes, m, nb, layer, l + [q], kept);
      SetFriendsOk(nodes, m, nb, layer, kept);
      nodes := SetFriends(nodes, nb, layer, kept);
      SameGeometry();
    }

    /** The list of nb as it is, or pruned if over-full. */
    method Widened(nb: nat, wide: seq<nat>, mm: nat) returns (kept: seq<nat>)
      requires VectorsOk() && NoRepeats(wide) && nb < |nodes| && forall f :: f in wide ==> f < |nodes|
      ensures NoRepeats(kept) && |kept| <= mm && forall f :: f in kept ==> f in wide
      ensures Pruned(Geometry(), Geometry().vecs[nb], wide, kept, mm)
    {
      kept := wide;
      hide VectorsOk, NodeVector, HNSWIndex.Geometry, NoRepeats;
      if |wide| > mm {
        forall k | 0 <= k < |wide| ensures wide[k] < |nodes| {
          assert wide[k] in wide;
        }
        hide Pruned;
        kept := PruneConnections(NodeVector(nb), wide, mm);
      }
    }

    static lemma {:induction false} WithOneMore(l: seq<nat>, q: nat)
      requires NoRepeats(l) && q !in l
      ensures NoRepeats(l + [q]) && forall f :: f in l + [q] <==> f in l || f == q
    {
    }

    /** Connects q to its selected neighbours on one layer, in both directions. */
    method LinkLayer(q: nat, layer: nat, neighbors: seq<nat>)
      requires VectorsOk() && GraphOk(nodes, m) && q < |nodes| && layer <= nodes[q].level
      requires NoEdgesTo(nodes, q, layer + 1)
      requires ListOk(nodes, m, q, layer, neighbors)
      modifies this`nodes
      ensures GraphOk(nodes, m) && SameSkeleton(old(nodes), nodes) && VectorsOk() && Geometry() == old(Geometry())
      ensures NoEdgesTo(nodes, q, layer)
      ensures Joined(Geometry(), old(nodes), nodes, q, layer, neighbors, MaxConn(m, layer))
    {
      hide GraphOk, SetFriends, BackLinked, MaxConn, LayerFriends, HNSWIndex.Geometry;
      SetFriendsOk(nodes, m, q, layer, neighbors);
      nodes := SetFriends(nodes, q, layer, neighbors);
      SameGeometry();
      ghost var s, maxConn := Geometry(), MaxConn(m, layer);
      forall j | 0 <= j < |neighbors|
        ensures neighbors[j] < |nodes| && neighbors[j] != q && nodes[neighbors[j]].level >= layer
      {
        assert neighbors[j] in neighbors;
      }
      assert Linked(s, old(nodes), nodes, q, layer, neighbors, 0, maxConn);
      for k := 0 to |neighbors|
        invariant VectorsOk() && GraphOk(nodes, m) && SameSkeleton(old(nodes), nodes) && Geometry() == s
        invariant Linked(s, old(nodes), nodes, q, layer, neighbors, k, maxConn)
      {
        hide Linked, OneLinked, NoEdgesTo;
        ghost var before := nodes;
        NotYetLinked(s, old(nodes), nodes, q, layer, neighbors, k, maxConn);
        AddBackEdge(q, layer, neighbors[k]);
        LinkedStep(s, old(nodes), before, nodes, q, layer, neighbors, k, maxConn);
      }
      LinkedAll(s, old(nodes), nodes, q, layer, neighbors, maxConn);
    }

    /** Beam candidates found from an entry point on the layer are on the layer and are not the unlinked node q. */
    lemma {:induction false} CandidatesOnLayer(query: Vec, layer: nat, ep: nat, ef: int, blocked: iset<nat>,
                                               evaluated: set<nat>, r: seq<Hit>, q: nat)
      requires VectorsOk() && GraphOk(nodes, m) && ep < |nodes| && ep != q && nodes[ep].level >= layer
      requires NoEdgesTo(nodes, q, layer + 1)
      requires BeamResult(View(query, layer), ep, ef, blocked, evaluated, r)
      ensures |r| > 0
      ensures forall k :: 0 <= k < |r| ==> r[k].id < |nodes| && r[k].id != q && nodes[r[k].id].level >= layer
    {
      var v := View(query, layer);
      forall k | 0 <= k < |r| ensures r[k].id < |nodes| && r[k].id != q && nodes[r[k].id].level >= layer {
        assert r[k].id in Ids(r);
        ReachableHasEdge(v, ep, blocked, r[k].id);
        if r[k].id != ep {
          var y :| 0 <= y < |v.adj| && r[k].id in v.adj[y];
          assert NodeOk(nodes, m, y);
        }
      }
    }

    /** One layer of an insertion: search, select, link; returns the entry point for the layer below. */
    method ConnectLayer(q: nat, vector: Vec, ep: nat, layer: nat, vt: VisitedTracker)
      returns (next: nat, ghost link: Link)
      requires VectorsOk() && GraphOk(nodes, m) && q < |nodes| && layer <= nodes[q].level && vt.Valid()
      requires NoEdgesTo(nodes, q, layer + 1)
      requires ep < |nodes| && ep != q && nodes[ep].level >= layer
      modifies this`nodes, vt
      ensures vt.Valid()
      ensures VectorsOk() && GraphOk(nodes, m) && SameSkeleton(old(nodes), nodes) && Geometry() == old(Geometry())
      ensures NoEdgesTo(nodes, q, layer)
      ensures next < |nodes| && next != q && nodes[next].level >= layer
      ensures Searched(Geometry(), old(nodes), vector, efConstruction, m, layer, link) && link.entry == ep
      ensures next == link.candidates[0].id
      ensures Joined(Geometry(), old(nodes), nodes, q, layer, link.neighbors, if layer == 0 then 2 * m else m)
    {
      hide GraphOk, NoEdgesTo, BeamResult, Dist, NodeVector, Chosen, Joined, VectorsOk, HNSWIndex.Geometry;
      vt.NextGen();
      ghost var blocked := vt.MarkedSet();
      assert blocked == iset{};
      var found;
      ghost var evaluated, picks;
      found, evaluated := SearchLayer(vector, ep, efConstruction, layer, vt);
      CandidatesOnLayer(vector, layer, ep, efConstruction, blocked, evaluated, found, q);
      BeamDistinct(View(vector, layer), ep, efConstruction, blocked, evaluated, found);
      var neighbors;
      neighbors, picks := SelectNeighborsHeuristic(found, MaxConn(m, layer));
      SelectionIsList(Geometry(), nodes, m, q, layer, found, picks, neighbors);
      LinkLayer(q, layer, neighbors);
      link := Link(ep, evaluated, found, picks, neighbors);
      next := found[0].id;
    }

    /** Greedy descent from the top layer down to, but not including, the given level. */
    method Descend(query: Vec, top: nat, level: nat) returns (ep: nat, ghost trail: seq<nat>)
      requires VectorsOk() && GraphOk(nodes, m) && top < |nodes|
      ensures ep < |nodes| && Dist(query, ep) <= Dist(query, top)
      ensures nodes[top].level <= level ==> ep == top
      ensures nodes[ep].level >= Min(level + 1, nodes[top].level)
      ensures Descent(Geometry(), nodes, deleted, query, top, level, trail) && |trail| > 0 && ep == trail[|trail| - 1]
    {
      AllViewsOk(query);
      hide GraphOk, Dist, NodeVector, GreedyWalk, ViewOk, HNSWIndex.Geometry, VectorsOk, GreedyEnds, Trailed, Descent;
      ep, trail := top, [top];
      TrailStarts(Geometry(), nodes, deleted, query, top);
      var lc: int := nodes[top].level;
      while lc > level
        invariant 0 <= Min(level, nodes[top].level) <= lc <= nodes[top].level
        invariant ep < |nodes| && Dist(query, ep) <= Dist(query, top)
        invariant lc == nodes[top].level ==> ep == top
        invariant lc < nodes[top].level ==> nodes[ep].level >= lc + 1
        invariant Trailed(Geometry(), nodes, deleted, query, top, lc, trail, ep)
      {
        ghost var from, walk := ep, [];
        ep, walk := GreedyClosest(query, ep, lc);
        TrailExtends(Geometry(), nodes, deleted, query, top, lc, trail, from, ep, walk);
        trail := trail + [ep];
        lc := lc - 1;
      }
      TrailComplete(Geometry(), nodes, deleted, query, top, level, lc, trail, ep);
    }

    lemma {:induction false} AllViewsOk(query: Vec)
      requires VectorsOk() && GraphOk(nodes, m)
      ensures forall layer: nat :: ViewOk(ViewOf(Geometry(), nodes, query, layer))
    {
      forall layer: nat ensures ViewOk(ViewOf(Geometry(), nodes, query, layer)) {
        ViewIsOk(query, layer);
      }
    }

    /** Greedy descent to the node's level, then linking on every layer it shares with the graph. */
    method Connect(q: nat, vector: Vec, vt: VisitedTracker) returns (ghost trail: seq<nat>, ghost links: seq<Link>)
      requires VectorsOk() && GraphOk(nodes, m) && q < |nodes| && vt.Valid()
      requires NoEdgesTo(nodes, q, nodes[q].level + 1)
      requires 0 <= entryPoint < |nodes| && entryPoint != q && nodes[entryPoint].level == maxLevel
      modifies this`nodes, vt
      ensures vt.Valid() && forall i: nat :: !vt.Marked(i)
      ensures VectorsOk() && GraphOk(nodes, m) && SameSkeleton(old(nodes), nodes) && Geometry() == old(Geometry())
      ensures Descent(Geometry(), old(nodes), deleted, vector, entryPoint, nodes[q].level, trail)
      ensures |trail| > 0 && |links| == (if nodes[q].level < maxLevel then nodes[q].level else maxLevel) + 1
      ensures Woven(Geometry(), old(nodes), nodes, q, vector, efConstruction, m, trail[|trail| - 1], 0, links)
    {
      hide GraphOk, NoEdgesTo, Dist, NodeVector, Descent, Woven, Searched, Joined, VectorsOk, HNSWIndex.Geometry;
      var level := nodes[q].level;
      var ep: nat;
      ep, trail := Descend(vector, entryPoint, level);
      var layer := Min(level, maxLevel);
      NoEdgesBelow(nodes, q, level + 1, layer + 1);
      ghost var s, start, before := Geometry(), ep, nodes;
      links := [];
      NothingWoven(s, nodes, q, vector, efConstruction, m, start, layer + 1);
      while layer >= 0
        invariant -1 <= layer <= level && |links| == Min(level, maxLevel) - layer
        invariant vt.Valid()
        invariant VectorsOk() && GraphOk(nodes, m) && SameSkeleton(before, nodes) && Geometry() == s
        invariant NoEdgesTo(nodes, q, layer + 1)
        invariant ep < |nodes| && ep != q && nodes[ep].level >= layer && ep == EntryBelow(start, links, 0)
        invariant Woven(s, before, nodes, q, vector, efConstruction, m, start, layer + 1, links)
      {
        ghost var link, halfway := Link(0, {}, [], [], []), nodes;
        ep, link := ConnectLayer(q, vector, ep, layer, vt);
        WovenNext(s, before, halfway, nodes, q, vector, efConstruction, m, start, layer + 1, links, link);
        LinkFound(s, halfway, vector, efConstruction, m, layer, link);
        links := [link] + links;
        layer := layer - 1;
      }
      vt.NextGen();
    }

    static lemma {:induction false} LinkFound(s: Space, a: seq<Node>, vector: Vec, width: int, m: nat, layer: nat,
                                              link: Link)
      requires Searched(s, a, vector, width, m, layer, link)
      ensures link.candidates != []
    {
    }

    // ---------------------------------------------------------------- the index over its whole life

    ghost predicate EntryOk()
      reads this`nodes, this`entryPoint, this`maxLevel
    {
      if entryPoint == -1 then
        nodes == [] && maxLevel == -1
      else
        && 0 <= entryPoint < |nodes| && nodes[entryPoint].level == maxLevel
        && forall i :: 0 <= i < |nodes| ==> nodes[i].level <= maxLevel
    }

    /** Known ids name nodes that carry them, and every live node is the one its id names. */
    ghost predicate IdsOk()
      reads this`nodes, this`idToNode, this`deleted
    {
      && (forall id :: id in idToNode ==> idToNode[id] < |nodes| && nodes[idToNode[id]].id == id)
      && (forall i :: 0 <= i < |nodes| && i !in deleted ==> nodes[i].id in idToNode && idToNode[nodes[i].id] == i)
      && forall i :: i in deleted ==> i < |nodes|
    }

    ghost predicate Valid()
      reads this
    {
      && m > 0 && VectorsOk() && GraphOk(nodes, m) && EntryOk() && IdsOk()
      && forall p :: p in dirty ==> |p.vector| == dim
    }

    /** The live contents: id to vector. */
    ghost function Live(): map<nat, Vec>
      requires VectorsOk() && IdsOk()
      reads this`nodes, this`vectorSlab, this`vectorOffsets, this`idToNode, this`deleted
    {
      map id | id in idToNode && idToNode[id] !in deleted :: NodeVector(idToNode[id])
    }

    constructor (dim: nat, m: nat, efConstruction: int, distFn: (Vec, Vec) -> real)
      ensures Valid() && Live() == map[] && dirty == [] && nodes == [] && entryPoint == -1
      ensures this.dim == dim && this.m == (if m == 0 then 16 else m) && this.distFn == distFn
      ensures this.efConstruction == if efConstruction <= 0 then 400 else efConstruction
    {
      this.dim := dim;
      this.m := if m == 0 then 16 else m;
      this.efConstruction := if efConstruction <= 0 then 400 else efConstruction;
      this.distFn := distFn;
      maxLevel, entryPoint := -1, -1;
      nodes, idToNode, deleted, dirty := [], map[], {}, [];
      vectorSlab, vectorOffsets := [], [];
    }

    /** Stores a node and its vector at the end of the slab; no other vector changes. */
    method AppendStored(n: Node, vector: Vec)
      requires VectorsOk() && |vector| == dim
      modifies this`nodes, this`vectorSlab, this`vectorOffsets
      ensures VectorsOk() && nodes == old(nodes) + [n] && NodeVector(old(|nodes|)) == vector
      ensures forall i :: 0 <= i < old(|nodes|) ==> NodeVector(i) == old(NodeVector(i))
      ensures Geometry().vecs == old(Geometry().vecs) + [vector]
    {
      vectorOffsets := vectorOffsets + [|vectorSlab|];
      vectorSlab := vectorSlab + vector;
      nodes := nodes + [n];
      forall i | 0 <= i < old(|nodes|) ensures NodeVector(i) == old(NodeVector(i)) {
        assert vectorOffsets[i] == old(vectorOffsets[i]);
      }
    }

    /** Adds a node without edges for an id that names none. */
    method AppendNode(id: nat, vector: Vec, level: nat)
      requires VectorsOk() && GraphOk(nodes, m) && IdsOk() && id !in idToNode && |vector| == dim
      modifies this`nodes, this`idToNode, this`vectorSlab, this`vectorOffsets
      ensures VectorsOk() && GraphOk(nodes, m) && IdsOk()
      ensures Live() == old(Live())[id := vector]
      ensures nodes == old(nodes) + [Node(id, level, NoFriends(level))]
      ensures idToNode == old(idToNode)[id := old(|nodes|)]
      ensures NoEdgesTo(nodes, old(|nodes|), level + 1)
      ensures Geometry().vecs == old(Geometry().vecs) + [vector]
    {
      AppendNodeOk(nodes, m, id, level);
      hide GraphOk, NoEdgesTo, VectorsOk, NodeVector, HNSWIndex.Geometry, HNSWIndex.Live, HNSWIndex.LiveIn;
      LiveIs();
      LiveGrows(idToNode, deleted, Geometry().vecs, id, vector);
      var q := |nodes|;
      AppendStored(Node(id, level, NoFriends(level)), vector);
      idToNode := idToNode[id := q];
      LiveIs();
    }

    /** The live contents, read off id map, deletions and vectors. */
    static ghost function LiveIn(idToNode: map<nat, nat>, deleted: set<nat>, vecs: seq<Vec>): map<nat, Vec> {
      map id | id in idToNode && idToNode[id] !in deleted && idToNode[id] < |vecs| :: vecs[idToNode[id]]
    }

    lemma {:induction false} LiveIs()
      requires VectorsOk() && IdsOk()
      ensures Live() == LiveIn(idToNode, deleted, Geometry().vecs)
    {
      hide VectorsOk, NodeVector, HNSWIndex.Geometry;
    }

    static lemma {:induction false} LiveGrows(idToNode: map<nat, nat>, deleted: set<nat>, vecs: seq<Vec>, id: nat,
                                              vector: Vec)
      requires id !in idToNode && (forall x :: x in idToNode ==> idToNode[x] < |vecs|)
      requires forall i :: i in deleted ==> i < |vecs|
      ensures LiveIn(idToNode[id := |vecs|], deleted, vecs + [vector]) ==
              LiveIn(idToNode, deleted, vecs)[id := vector]
    {
    }

    /** Changing friend lists alone changes neither the id map nor the contents. */
    twostate lemma {:induction false} FriendListsDoNotMatter()
      requires old(VectorsOk()) && old(IdsOk()) && VectorsOk() && SameSkeleton(old(nodes), nodes)
      requires idToNode == old(idToNode) && deleted == old(deleted)
      requires vectorSlab == old(vectorSlab) && vectorOffsets == old(vectorOffsets)
      ensures IdsOk() && Live() == old(Live())
    {
      forall i | 0 <= i < |nodes| ensures NodeVector(i) == old(NodeVector(i)) {}
    }

    /** Adds and links a node for an id that names none, raising the entry point when it tops the graph. */
    method PlaceNode(id: nat, vector: Vec, level: nat, vt: VisitedTracker)
      requires Valid() && |vector| == dim && vt.Valid() && id !in idToNode
      modifies this, vt
      ensures Valid() && vt.Valid() && dirty == old(dirty) && deleted == old(deleted)
      ensures forall i: nat :: vt.Marked(i) <==> old(entryPoint < 0 && vt.Marked(i))
      ensures Live() == old(Live())[id := vector]
      ensures idToNode == old(idToNode)[id := old(|nodes|)] && |nodes| == old(|nodes|) + 1
      ensures Inserts(distFn, old(Graph()), Graph(), deleted, id, vector, level, efConstruction, m)
    {
      hide GraphOk, NoEdgesTo, NodeVector, HNSWIndex.IdsOk, HNSWIndex.Live, HNSWIndex.Geometry, Descent, Woven;
      ghost var before := Graph();
      ghost var trail, links := [], [];
      var q := |nodes|;
      AppendNode(id, vector, level);
      if entryPoint == -1 {
        entryPoint, maxLevel := q, level;
        assert Grown(Geometry(), before.nodes, nodes, deleted, id, vector, level, -1, -1, efConstruction, m, [], []);
        return;
      }
      label appended:
      trail, links := Connect(q, vector, vt);
      WovenSkeleton(Geometry(), old@appended(nodes), nodes, q, vector, efConstruction, m, trail[|trail| - 1], 0, links);
      FriendListsDoNotMatter@appended();
      if level > maxLevel {
        maxLevel, entryPoint := level, q;
      }
      assert Grown(Geometry(), before.nodes, nodes, deleted, id, vector, level, before.entry, before.top,
                   efConstruction, m, trail, links);
    }

    /** Forgets an id whose node is soft-deleted. */
    method ForgetDeleted(id: nat)
      requires Valid() && id in idToNode && idToNode[id] in deleted
      modifies this`idToNode
      ensures Valid() && Live() == old(Live()) && idToNode == old(idToNode) - {id}
      ensures Graph() == old(Graph())
    {
      idToNode := idToNode - {id};
    }

    /** Inserts into the graph at the given (randomly drawn) level; a live duplicate is refused. */
    method InsertLocked(id: nat, vector: Vec, level: nat, vt: VisitedTracker) returns (inserted: bool)
      requires Valid() && |vector| == dim && vt.Valid()
      modifies this, vt
      ensures Valid() && vt.Valid() && dirty == old(dirty) && deleted == old(deleted)
      ensures forall i: nat :: vt.Marked(i) <==> (!inserted || old(entryPoint) < 0) && old(vt.Marked(i))
      ensures inserted <==> id !in old(Live())
      ensures Live() == if inserted then old(Live())[id := vector] else old(Live())
      ensures idToNode == if inserted then old(idToNode)[id := old(|nodes|)] else old(idToNode)
      ensures inserted ==> Inserts(distFn, old(Graph()), Graph(), deleted, id, vector, level, efConstruction, m)
      ensures !inserted ==> Graph() == old(Graph())
    {
      hide GraphOk, NodeVector, HNSWIndex.EntryOk, HNSWIndex.Geometry, Inserts;
      inserted := false;
      if id in idToNode {
        if idToNode[id] in deleted {
          ForgetDeleted(id);
        } else {
          return;
        }
      }
      PlaceNode(id, vector, level, vt);
      inserted := true;
    }

    /** Soft delete: the node stays in the graph but its id leaves the live contents; the buffer is not looked at. */
    method Delete(id: nat) returns (found: bool)
      requires Valid()
      modifies this`deleted
      ensures Valid()
      ensures found <==> id in idToNode
      ensures Live() == old(Live()) - {id} && dirty == old(dirty)
    {
      found := id in idToNode;
      if found {
        deleted := deleted + {idToNode[id]};
      }
    }

    /** Buffers an insert; the caller's dimension must match. */
    method Insert(id: nat, vector: Vec) returns (ok: bool)
      requires Valid()
      modifies this`dirty
      ensures Valid() && Live() == old(Live())
      ensures ok <==> |vector| == dim
      ensures dirty == if ok then old(dirty) + [Pending(id, vector)] else old(dirty)
    {
      ok := |vector| == dim;
      if ok {
        dirty := dirty + [Pending(id, vector)];
      }
    }

    /** First locked section of a drain: takes the whole dirty buffer. */
    method TakeBatch() returns (batch: seq<Pending>)
      requires Valid()
      modifies this`dirty
      ensures Valid() && Live() == old(Live())
      ensures batch == old(dirty) && dirty == []
    {
      batch := dirty;
      dirty := [];
    }

    /** Second locked section of a drain: inserts the batch in order; levels are the random draws. */
    method ApplyBatch(batch: seq<Pending>, levels: nat -> nat, vt: VisitedTracker)
      returns (drained: map<nat, nat>, ghost history: seq<GraphState>)
      requires Valid() && vt.Valid() && forall p :: p in batch ==> |p.vector| == dim
      modifies this, vt
      ensures Valid() && vt.Valid() && dirty == old(dirty) && deleted == old(deleted)
      ensures forall i: nat :: vt.Marked(i) ==> old(vt.Marked(i))
      ensures Live() == ApplyAll(old(Live()), batch)
      ensures forall id :: id in drained ==> id in idToNode && idToNode[id] == drained[id]
      ensures drained.Keys == ApplyAll(old(Live()), batch).Keys - old(Live()).Keys
      ensures Replays(distFn, history, deleted, old(Live()), batch, levels, efConstruction, m)
      ensures history[0] == old(Graph()) && history[|batch|] == Graph()
    {
      hide GraphOk, VectorsOk, NodeVector, HNSWIndex.EntryOk, HNSWIndex.IdsOk, HNSWIndex.Live, HNSWIndex.Graph, Inserts;
      drained := map[];
      history := [Graph()];
      for k := 0 to |batch|
        invariant Valid() && vt.Valid() && dirty == old(dirty) && deleted == old(deleted)
        invariant forall i: nat :: vt.Marked(i) ==> old(vt.Marked(i))
        invariant Live() == ApplyAll(old(Live()), batch[..k])
        invariant forall id :: id in drained ==> id in idToNode && idToNode[id] == drained[id]
        invariant drained.Keys == Live().Keys - old(Live()).Keys
        invariant old(Live()).Keys <= Live().Keys
        invariant Replays(distFn, history, deleted, old(Live()), batch[..k], levels, efConstruction, m)
        invariant history[0] == old(Graph()) && history[k] == Graph()
      {
        assert batch[..k + 1] == batch[..k] + [batch[k]];
        assert batch[k] in batch;
        var before := |nodes|;
        var inserted := InsertLocked(batch[k].id, batch[k].vector, levels(k), vt);
        ReplaysOneMore(distFn, history, deleted, old(Live()), batch, k, levels, efConstruction, m, Graph());
        history := history + [Graph()];
        if inserted {
          drained := drained[batch[k].id := before];
        }
      }
      assert batch[..|batch|] == batch;
    }
  }
}
