/**
 Beam search on one layer of an HNSW graph, seen as a graph of neighbour lists
 with one distance per node. Nodes already marked in the visited tracker when
 the search starts are "blocked": the search never looks at them.
 */
module Beam {
  import opened Common
  import opened Ranking

  /** One layer of the graph as a query sees it. */
  datatype LayerView = LayerView(adj: seq<seq<nat>>, dist: seq<real>)

  ghost predicate ViewOk(v: LayerView) {
    && |v.adj| == |v.dist|
    && forall i :: 0 <= i < |v.adj| ==> forall f :: f in v.adj[i] ==> f < |v.adj|
  }

  /** A walk from ep along neighbour lists that enters no blocked node. */
  ghost predicate Walk(v: LayerView, ep: nat, blocked: iset<nat>, p: seq<nat>) {
    && |p| > 0 && p[0] == ep
    && (forall i :: 0 <= i < |p| ==> p[i] < |v.adj|)
    && forall i :: 0 < i < |p| ==> p[i] in v.adj[p[i - 1]] && (p[i] !in blocked || p[i] == ep)
  }

  ghost predicate Reachable(v: LayerView, ep: nat, blocked: iset<nat>, x: nat) {
    exists p :: Walk(v, ep, blocked, p) && p[|p| - 1] == x
  }

  ghost function Cap(ef: int): nat { Max(ef, 1) }

  /** What a search from ep with beam width ef has established once it stops. */
  ghost predicate BeamResult(v: LayerView, ep: nat, ef: int, blocked: iset<nat>, evaluated: set<nat>, r: seq<Hit>) {
    && ViewOk(v) && ep in evaluated
    && (forall x :: x in evaluated ==> x < |v.adj| && Reachable(v, ep, blocked, x))
    && Ascending(r) && DistinctIds(r) && Ids(r) <= evaluated
    && (forall k :: 0 <= k < |r| ==> r[k].id < |v.dist| && r[k].dist == v.dist[r[k].id])
    && |r| == Min(|evaluated|, Cap(ef))
    && (forall x, k :: x in evaluated && x !in Ids(r) && 0 <= k < |r| ==> r[k].dist <= v.dist[x])
    && (forall x, f :: x in Ids(r) && x < |v.adj| && f in v.adj[x] ==> f in evaluated || f in blocked)
    && Paced(v, ep, ef, blocked, evaluated, Ids(r))
  }

  // ---------------------------------------------------------------- the order of expansion

  ghost function Fresh(v: LayerView, blocked: iset<nat>, c: nat): set<nat> {
    if c < |v.adj| then set f | f in v.adj[c] && f !in blocked else {}
  }

  /** What has been evaluated once these nodes were expanded. */
  ghost function SeenAfter(v: LayerView, ep: nat, blocked: iset<nat>, order: seq<nat>): set<nat> {
    if order == [] then {ep}
    else SeenAfter(v, ep, blocked, order[..|order| - 1]) + Fresh(v, blocked, order[|order| - 1])
  }

  ghost function CloserThan(v: LayerView, seen: set<nat>, c: nat): set<nat>
    requires c < |v.dist|
  {
    set x | x in seen && x < |v.dist| && v.dist[x] < v.dist[c]
  }

  /** c is a closest node still to be expanded, and fewer than a full beam of what was seen is closer. */
  ghost predicate Due(v: LayerView, ef: int, seen: set<nat>, done: set<nat>, c: nat) {
    && c in seen && c !in done && c < |v.dist| && |CloserThan(v, seen, c)| < Cap(ef)
    && forall x :: x in seen && x !in done && x < |v.dist| ==> v.dist[c] <= v.dist[x]
  }

  /** Every node was due when it was expanded. */
  ghost predicate BestFirst(v: LayerView, ep: nat, ef: int, blocked: iset<nat>, order: seq<nat>) {
    forall i :: 0 <= i < |order| ==> DueAt(v, ep, ef, blocked, order, i)
  }

  ghost predicate DueAt(v: LayerView, ep: nat, ef: int, blocked: iset<nat>, order: seq<nat>, i: nat)
    requires i < |order|
  {
    Due(v, ef, SeenAfter(v, ep, blocked, order[..i]), Elements(order[..i]), order[i])
  }

  ghost predicate Order(v: LayerView, ep: nat, ef: int, blocked: iset<nat>, evaluated: set<nat>, expanded: set<nat>,
                        order: seq<nat>)
  {
    && BestFirst(v, ep, ef, blocked, order)
    && evaluated == SeenAfter(v, ep, blocked, order) && expanded == Elements(order)
  }

  /** The nodes were evaluated by best-first expansion, and the returned ones were all expanded. */
  ghost predicate Paced(v: LayerView, ep: nat, ef: int, blocked: iset<nat>, evaluated: set<nat>, returned: set<nat>) {
    exists order :: BestFirst(v, ep, ef, blocked, order) && evaluated == SeenAfter(v, ep, blocked, order)
                    && returned <= Elements(order)
  }

  lemma {:induction false} OrderStart(v: LayerView, ep: nat, ef: int, blocked: iset<nat>)
    ensures Order(v, ep, ef, blocked, {ep}, {}, [])
  {
  }

  lemma {:induction false} OrderNext(v: LayerView, ep: nat, ef: int, blocked: iset<nat>, evaluated: set<nat>,
                                     expanded: set<nat>, order: seq<nat>, c: nat)
    requires Order(v, ep, ef, blocked, evaluated, expanded, order) && Due(v, ef, evaluated, expanded, c)
    ensures Order(v, ep, ef, blocked, evaluated + Fresh(v, blocked, c), expanded + {c}, order + [c])
  {
    hide Due, Fresh;
    var next := order + [c];
    assert next[..|order|] == order && next[|next| - 1] == c;
    assert SeenAfter(v, ep, blocked, next) == evaluated + Fresh(v, blocked, c);
    assert Elements(next) == expanded + {c};
    hide SeenAfter, Elements;
    forall i | 0 <= i < |next| ensures DueAt(v, ep, ef, blocked, next, i) {
      if i < |order| {
        assert next[..i] == order[..i] && DueAt(v, ep, ef, blocked, order, i);
      }
    }
  }

  /** The closest candidate is due while the result has room or a kept node is no closer. */
  lemma {:induction false} ClosestIsDue(v: LayerView, ep: nat, ef: int, blocked: iset<nat>, evaluated: set<nat>,
                                        expanded: set<nat>, cands: set<nat>, kept: set<nat>, c: nat, w: nat)
    requires Running(v, ep, ef, blocked, evaluated, expanded, cands, kept, {c}) && w in kept
    requires forall x :: x in cands ==> x < |v.dist| && v.dist[c] <= v.dist[x]
    requires |kept| < ef || (c < |v.dist| && v.dist[c] <= v.dist[w])
    ensures Due(v, ef, evaluated, expanded, c)
  {
    assert c in {c};
    var closer := CloserThan(v, evaluated, c);
    if |kept| < ef {
      SameSize(kept, evaluated);
      SubsetSize(closer, evaluated - {c});
    } else {
      assert w in evaluated;
      SubsetSize(closer, kept - {w});
    }
  }

  // ---------------------------------------------------------------- walks

  lemma {:induction false} StartReachable(v: LayerView, ep: nat, blocked: iset<nat>)
    requires ep < |v.adj|
    ensures Reachable(v, ep, blocked, ep)
  {
    assert Walk(v, ep, blocked, [ep]);
  }

  lemma {:induction false} StepReachable(v: LayerView, ep: nat, blocked: iset<nat>, x: nat, f: nat)
    requires ViewOk(v) && x < |v.adj| && Reachable(v, ep, blocked, x)
    requires f in v.adj[x] && (f !in blocked || f == ep)
    ensures Reachable(v, ep, blocked, f)
  {
    var p :| Walk(v, ep, blocked, p) && p[|p| - 1] == x;
    assert Walk(v, ep, blocked, p + [f]);
    assert (p + [f])[|p + [f]| - 1] == f;
  }

  /** A reachable node is the start or has an incoming edge and is not blocked. */
  lemma {:induction false} ReachableHasEdge(v: LayerView, ep: nat, blocked: iset<nat>, x: nat)
    requires Reachable(v, ep, blocked, x)
    ensures x == ep || (x !in blocked && exists y :: 0 <= y < |v.adj| && x in v.adj[y])
  {
    var p :| Walk(v, ep, blocked, p) && p[|p| - 1] == x;
    if |p| > 1 {
      var y := p[|p| - 2];
      assert p[|p| - 1] in v.adj[y];
    }
  }

  /** A set that contains the start and is closed under unblocked edges contains every reachable node. */
  lemma {:induction false} ClosedContainsWalk(v: LayerView, ep: nat, blocked: iset<nat>, s: set<nat>, p: seq<nat>)
    requires ep in s && Walk(v, ep, blocked, p)
    requires forall x, f :: x in s && x < |v.adj| && f in v.adj[x] ==> f in s || f in blocked
    ensures p[|p| - 1] in s
  {
    if |p| > 1 {
      var q := p[..|p| - 1];
      assert Walk(v, ep, blocked, q);
      ClosedContainsWalk(v, ep, blocked, s, q);
      assert p[|p| - 1] in v.adj[q[|q| - 1]];
    }
  }

  // ---------------------------------------------------------------- theorems about a finished search

  lemma {:induction false} BeamDistinct(v: LayerView, ep: nat, ef: int, blocked: iset<nat>, evaluated: set<nat>,
                                        r: seq<Hit>)
    requires BeamResult(v, ep, ef, blocked, evaluated, r)
    ensures DistinctIds(r)
  {
  }

  /** Every unblocked neighbour of a returned node is returned too, or is no closer than the worst of a full result. */
  lemma {:induction false} NeighboursCovered(v: LayerView, ep: nat, ef: int, blocked: iset<nat>, evaluated: set<nat>,
                                             r: seq<Hit>, k: nat, f: nat)
    requires BeamResult(v, ep, ef, blocked, evaluated, r)
    requires k < |r| && f in v.adj[r[k].id] && f !in blocked
    ensures f in Ids(r) || (|r| == Cap(ef) && r[|r| - 1].dist <= v.dist[f])
  {
    assert r[k].id in Ids(r);
    if f !in Ids(r) {
      assert f in evaluated;
      DistinctIdsCount(r);
      if |r| == |evaluated| {
        SameSize(Ids(r), evaluated);
      }
    }
  }

  /** A beam at least as wide as the reachable set returns exactly the reachable set. */
  lemma {:induction false} WideBeamIsExhaustive(v: LayerView, ep: nat, ef: int, blocked: iset<nat>, evaluated: set<nat>,
                                                r: seq<Hit>, reach: set<nat>)
    requires BeamResult(v, ep, ef, blocked, evaluated, r)
    requires forall x :: x in reach <==> Reachable(v, ep, blocked, x)
    requires |reach| <= ef
    ensures Ids(r) == reach
  {
    hide Paced;
    assert evaluated <= reach;
    SubsetSize(evaluated, reach);
    DistinctIdsCount(r);
    SameSize(Ids(r), evaluated);
    forall x | x in reach ensures x in Ids(r) {
      var p :| Walk(v, ep, blocked, p) && p[|p| - 1] == x;
      ClosedContainsWalk(v, ep, blocked, evaluated, p);
    }
  }

  /** A beam returns as many hits as its width allows, or everything reachable. */
  lemma {:induction false} BeamFillsUp(v: LayerView, ep: nat, ef: int, blocked: iset<nat>, evaluated: set<nat>,
                                       r: seq<Hit>, reach: set<nat>)
    requires BeamResult(v, ep, ef, blocked, evaluated, r)
    requires forall x :: x in reach <==> Reachable(v, ep, blocked, x)
    ensures |r| == Min(|reach|, Cap(ef))
  {
    hide Paced;
    assert evaluated <= reach;
    SubsetSize(evaluated, reach);
    DistinctIdsCount(r);
    if |evaluated| <= Cap(ef) {
      SameSize(Ids(r), evaluated);
      forall x | x in reach ensures x in evaluated {
        var p :| Walk(v, ep, blocked, p) && p[|p| - 1] == x;
        ClosedContainsWalk(v, ep, blocked, evaluated, p);
      }
      assert evaluated == reach;
    }
  }

  /** A walk through unmarked nodes avoids the marked ones. */
  lemma {:induction false} UnmarkedWalk(v: LayerView, ep: nat, blocked: iset<nat>, x: nat)
    requires Reachable(v, ep, iset{}, x)
    requires forall y :: Reachable(v, ep, iset{}, y) && y != ep ==> y !in blocked
    ensures Reachable(v, ep, blocked, x)
  {
    var p :| Walk(v, ep, iset{}, p) && p[|p| - 1] == x;
    forall i | 0 < i < |p| ensures p[i] !in blocked || p[i] == ep {
      var q := p[..i + 1];
      assert Walk(v, ep, iset{}, q);
      assert Reachable(v, ep, iset{}, q[|q| - 1]);
    }
    assert Walk(v, ep, blocked, p);
  }

  lemma {:induction false} AvoidingIsReachable(v: LayerView, ep: nat, blocked: iset<nat>, x: nat)
    requires Reachable(v, ep, blocked, x)
    ensures Reachable(v, ep, iset{}, x)
  {
    var p :| Walk(v, ep, blocked, p) && p[|p| - 1] == x;
    assert Walk(v, ep, iset{}, p);
  }

  /** A wide beam finds everything reachable exactly when no node but the entry point was marked. */
  lemma {:induction false} ExhaustiveExactly(v: LayerView, ep: nat, ef: int, blocked: iset<nat>, evaluated: set<nat>,
                                             r: seq<Hit>, all: set<nat>)
    requires BeamResult(v, ep, ef, blocked, evaluated, r)
    requires forall x :: x in all <==> Reachable(v, ep, iset{}, x)
    requires |all| <= ef
    ensures Ids(r) == all <==> forall x :: x in all && x != ep ==> x !in blocked
  {
    hide BeamResult;
    var reach := set x | x in all && Reachable(v, ep, blocked, x);
    forall x ensures x in reach <==> Reachable(v, ep, blocked, x) {
      if Reachable(v, ep, blocked, x) {
        AvoidingIsReachable(v, ep, blocked, x);
      }
    }
    SubsetSize(reach, all);
    WideBeamIsExhaustive(v, ep, ef, blocked, evaluated, r, reach);
    if forall x :: x in all && x != ep ==> x !in blocked {
      forall x | x in all ensures x in reach {
        UnmarkedWalk(v, ep, blocked, x);
      }
    } else {
      var x :| x in all && x != ep && x in blocked;
      MarkedIsMissed(v, ep, blocked, x);
    }
  }

  lemma {:induction false} MarkedIsMissed(v: LayerView, ep: nat, blocked: iset<nat>, x: nat)
    requires x in blocked && x != ep
    ensures !Reachable(v, ep, blocked, x)
  {
    if Reachable(v, ep, blocked, x) {
      ReachableHasEdge(v, ep, blocked, x);
    }
  }

  /** With every node already marked, the search degenerates to its entry point. */
  lemma {:induction false} AllBlockedReturnsEntryOnly(v: LayerView, ep: nat, ef: int, blocked: iset<nat>,
                                                      evaluated: set<nat>, r: seq<Hit>)
    requires BeamResult(v, ep, ef, blocked, evaluated, r)
    requires forall x: nat :: x in blocked
    ensures |r| == 1 && r[0].id == ep
  {
    forall x | x in evaluated ensures x == ep {
      ReachableHasEdge(v, ep, blocked, x);
    }
    assert evaluated == {ep};
    assert r[0].id in Ids(r);
  }

  // ---------------------------------------------------------------- the search while it runs

  /** Everything evaluated is reachable. */
  ghost predicate Explored(v: LayerView, ep: nat, blocked: iset<nat>, evaluated: set<nat>) {
    && ViewOk(v) && ep in evaluated
    && forall x :: x in evaluated ==> x < |v.adj| && Reachable(v, ep, blocked, x)
  }

  /** kept holds the closest of the evaluated nodes, up to the beam width. */
  ghost predicate Closest(v: LayerView, ef: int, evaluated: set<nat>, kept: set<nat>)
    requires forall x :: x in evaluated ==> x < |v.dist|
  {
    && kept <= evaluated && |kept| == Min(|evaluated|, Cap(ef))
    && forall x, r :: x in evaluated && x !in kept && r in kept ==> v.dist[r] <= v.dist[x]
  }

  /** Expanded nodes have had all their neighbours evaluated. */
  ghost predicate Closed(v: LayerView, blocked: iset<nat>, evaluated: set<nat>, expanded: set<nat>)
    requires forall x :: x in expanded ==> x < |v.adj|
  {
    forall x, f :: x in expanded && f in v.adj[x] ==> f in evaluated || f in blocked
  }

  /**
   The running search: nodes evaluated so far, those expanded, the ids held by the
   candidate and result heaps, and the node being expanded (cur is empty or a singleton).
   */
  ghost predicate Running(v: LayerView, ep: nat, ef: int, blocked: iset<nat>,
                          evaluated: set<nat>, expanded: set<nat>, cands: set<nat>, kept: set<nat>, cur: set<nat>)
  {
    && Explored(v, ep, blocked, evaluated)
    && expanded <= evaluated && cands <= evaluated && cur <= evaluated
    && cands !! expanded && cands !! cur && cur !! expanded
    && kept <= expanded + cands + cur
    && Closest(v, ef, evaluated, kept)
    && Closed(v, blocked, evaluated, expanded)
  }

  lemma {:induction false} StartRunning(v: LayerView, ep: nat, ef: int, blocked: iset<nat>)
    requires ViewOk(v) && ep < |v.adj|
    ensures Running(v, ep, ef, blocked, {ep}, {}, {ep}, {ep}, {})
  {
    StartReachable(v, ep, blocked);
  }

  /** A freshly evaluated node joins a result that still has room. */
  lemma {:induction false} OfferToRoom(v: LayerView, ep: nat, ef: int, blocked: iset<nat>,
                    evaluated: set<nat>, expanded: set<nat>, cands: set<nat>, kept: set<nat>, cur: set<nat>, f: nat)
    requires Running(v, ep, ef, blocked, evaluated, expanded, cands, kept, cur)
    requires f < |v.adj| && f !in evaluated && Reachable(v, ep, blocked, f)
    requires |kept| < ef
    ensures Running(v, ep, ef, blocked, evaluated + {f}, expanded, cands + {f}, kept + {f}, cur)
  {
    SubsetSize(kept, evaluated);
    SameSize(kept, evaluated);
  }

  lemma {:induction false} ClosestReplaces(v: LayerView, ef: int, evaluated: set<nat>, kept: set<nat>, f: nat, w: nat)
    requires (forall x :: x in evaluated ==> x < |v.dist|) && f < |v.dist|
    requires Closest(v, ef, evaluated, kept)
    requires f !in evaluated && |kept| >= ef && w in kept && v.dist[f] < v.dist[w]
    requires forall r :: r in kept ==> v.dist[r] <= v.dist[w]
    ensures Closest(v, ef, evaluated + {f}, kept + {f} - {w})
  {
    var e', k' := evaluated + {f}, kept + {f} - {w};
    assert |kept + {f}| == |kept| + 1;
    forall x, r | x in e' && x !in k' && r in k' ensures v.dist[r] <= v.dist[x] {
      if x != w {
        assert x in evaluated && x !in kept;
        assert v.dist[w] <= v.dist[x];
      }
    }
  }

  /** A freshly evaluated node closer than the worst of a full result pushes out a farthest one. */
  lemma {:induction false} OfferReplaces(v: LayerView, ep: nat, ef: int, blocked: iset<nat>,
                      evaluated: set<nat>, expanded: set<nat>, cands: set<nat>, kept: set<nat>, cur: set<nat>, f: nat,
                      w: nat)
    requires Running(v, ep, ef, blocked, evaluated, expanded, cands, kept, cur)
    requires f < |v.adj| && f !in evaluated && Reachable(v, ep, blocked, f)
    requires |kept| >= ef && w in kept && v.dist[f] < v.dist[w]
    requires forall r :: r in kept ==> v.dist[r] <= v.dist[w]
    ensures Running(v, ep, ef, blocked, evaluated + {f}, expanded, cands + {f}, kept + {f} - {w}, cur)
  {
    ClosestReplaces(v, ef, evaluated, kept, f, w);
  }

  /** A freshly evaluated node that a full result turns away. */
  lemma {:induction false} OfferRejected(v: LayerView, ep: nat, ef: int, blocked: iset<nat>,
                      evaluated: set<nat>, expanded: set<nat>, cands: set<nat>, kept: set<nat>, cur: set<nat>, f: nat)
    requires Running(v, ep, ef, blocked, evaluated, expanded, cands, kept, cur)
    requires f < |v.adj| && f !in evaluated && Reachable(v, ep, blocked, f)
    requires |kept| >= ef && forall r :: r in kept ==> v.dist[r] <= v.dist[f]
    ensures Running(v, ep, ef, blocked, evaluated + {f}, expanded, cands, kept, cur)
  {
    assert |evaluated + {f}| == |evaluated| + 1;
    if |evaluated| == 0 { assert false; }
  }

  /** Taking the next candidate off its heap makes it the node being expanded. */
  lemma {:induction false} TakeCandidate(v: LayerView, ep: nat, ef: int, blocked: iset<nat>,
                      evaluated: set<nat>, expanded: set<nat>, cands: set<nat>, kept: set<nat>, c: nat)
    requires Running(v, ep, ef, blocked, evaluated, expanded, cands, kept, {}) && c in cands
    ensures Running(v, ep, ef, blocked, evaluated, expanded, cands - {c}, kept, {c})
    ensures c < |v.adj| && c !in expanded && |expanded + {c}| <= |v.adj|
  {
    BoundedSize(expanded + {c}, |v.adj|);
  }

  /** The node being expanded is reachable, so its unblocked neighbours are too. */
  lemma {:induction false} CurrentReachable(v: LayerView, ep: nat, ef: int, blocked: iset<nat>,
                         evaluated: set<nat>, expanded: set<nat>, cands: set<nat>, kept: set<nat>, c: nat)
    requires Running(v, ep, ef, blocked, evaluated, expanded, cands, kept, {c})
    ensures c < |v.adj| && Reachable(v, ep, blocked, c)
  {
    assert c in {c};
  }

  /** Once all its unblocked neighbours are evaluated, the node being expanded counts as expanded. */
  lemma {:induction false} FinishExpansion(v: LayerView, ep: nat, ef: int, blocked: iset<nat>,
                        evaluated: set<nat>, expanded: set<nat>, cands: set<nat>, kept: set<nat>, c: nat)
    requires Running(v, ep, ef, blocked, evaluated, expanded, cands, kept, {c})
    requires forall f :: f in v.adj[c] ==> f in evaluated || f in blocked
    ensures Running(v, ep, ef, blocked, evaluated, expanded + {c}, cands, kept, {})
  {
  }

  /**
   The search stops with nothing to expand, or at a candidate farther than a full result: every
   kept node is expanded.
   */
  lemma {:induction false} Stopped(v: LayerView, ep: nat, ef: int, blocked: iset<nat>,
                evaluated: set<nat>, expanded: set<nat>, cands: set<nat>, kept: set<nat>, cur: set<nat>,
                order: seq<nat>, r: seq<Hit>)
    requires Running(v, ep, ef, blocked, evaluated, expanded, cands, kept, cur)
    requires forall x, y :: x in cands + cur && y in kept ==> v.dist[y] < v.dist[x]
    requires Order(v, ep, ef, blocked, evaluated, expanded, order)
    requires Ascending(r) && DistinctIds(r) && Ids(r) == kept && |r| == |kept|
    requires forall k :: 0 <= k < |r| ==> r[k].id < |v.dist| && r[k].dist == v.dist[r[k].id]
    ensures BeamResult(v, ep, ef, blocked, evaluated, r)
  {
    forall x | x in kept ensures x in expanded {}
    forall x, k | x in evaluated && x !in Ids(r) && 0 <= k < |r| ensures r[k].dist <= v.dist[x] {
      assert r[k].id in Ids(r);
    }
  }

  // ---------------------------------------------------------------- heaps as sets of node ids

  /** A heap slice holds exactly one hit per id, each with its distance. */
  ghost predicate Holds(v: LayerView, h: seq<Hit>, ids: set<nat>) {
    && |h| == |ids|
    && (forall x :: x in ids ==> x < |v.dist|)
    && forall e: Hit :: multiset(h)[e] == if e.id in ids && e.dist == v.dist[e.id] then 1 else 0
  }

  lemma {:induction false} HoldsOne(v: LayerView, h: Hit)
    requires h.id < |v.dist| && h.dist == v.dist[h.id]
    ensures Holds(v, [h], {h.id})
  {
  }

  lemma {:induction false} HoldsNone(v: LayerView, h: seq<Hit>, ids: set<nat>)
    requires Holds(v, h, ids)
    ensures |h| == |ids| && (h == [] ==> ids == {})
  {
  }

  lemma {:induction false} HoldsMember(v: LayerView, h: seq<Hit>, ids: set<nat>, k: nat)
    requires Holds(v, h, ids) && k < |h|
    ensures h[k].id in ids && h[k].dist == v.dist[h[k].id]
  {
    assert h[k] in multiset(h);
  }

  lemma {:induction false} HoldsPush(v: LayerView, h: seq<Hit>, ids: set<nat>, x: Hit, h': seq<Hit>)
    requires Holds(v, h, ids) && x.id !in ids && x.id < |v.dist| && x.dist == v.dist[x.id]
    requires multiset(h') == multiset(h) + multiset{x} && |h'| == |h| + 1
    ensures Holds(v, h', ids + {x.id})
  {
  }

  lemma {:induction false} HoldsPop(v: LayerView, h: seq<Hit>, ids: set<nat>, x: Hit, h': seq<Hit>)
    requires Holds(v, h, ids) && |h'| == |h| - 1
    requires multiset(h) == multiset(h') + multiset{x}
    ensures x.id in ids && x.dist == v.dist[x.id] && Holds(v, h', ids - {x.id})
  {
    assert x in multiset(h);
    assert multiset(h)[x] == 1;
    forall e: Hit ensures multiset(h')[e] == if e.id in ids - {x.id} && e.dist == v.dist[e.id] then 1 else 0 {
      assert multiset(h)[e] == multiset(h')[e] + multiset{x}[e];
    }
  }

  /** A hit that no heap member exceeds bounds the distances of all held ids, and one that none undercuts likewise. */
  lemma {:induction false} HoldsRange(v: LayerView, h: seq<Hit>, ids: set<nat>)
    requires Holds(v, h, ids)
    ensures forall x :: x in ids ==> x < |v.dist|
  {
  }

  lemma {:induction false} HoldsBounds(v: LayerView, h: seq<Hit>, ids: set<nat>, x: Hit)
    requires Holds(v, h, ids)
    ensures (forall y :: y in h ==> y.dist <= x.dist) ==> forall i :: i in ids ==> v.dist[i] <= x.dist
    ensures (forall y :: y in h ==> x.dist <= y.dist) ==> forall i :: i in ids ==> x.dist <= v.dist[i]
  {
    forall i | i in ids ensures Hit(i, v.dist[i]) in h {
      assert multiset(h)[Hit(i, v.dist[i])] == 1;
    }
  }

  lemma {:induction false} HoldsResult(v: LayerView, h: seq<Hit>, ids: set<nat>, r: seq<Hit>)
    requires Holds(v, h, ids) && multiset(r) == multiset(h) && |r| == |h|
    ensures DistinctIds(r) && Ids(r) == ids && |r| == |ids|
    ensures forall k :: 0 <= k < |r| ==> r[k].id < |v.dist| && r[k].dist == v.dist[r[k].id]
  {
    assert Holds(v, r, ids);
    forall k | 0 <= k < |r| ensures r[k].id in ids && r[k].dist == v.dist[r[k].id] {
      HoldsMember(v, r, ids, k);
    }
    forall i | i in ids ensures i in Ids(r) {
      assert multiset(r)[Hit(i, v.dist[i])] == 1;
      assert Hit(i, v.dist[i]) in r;
    }
    forall i, j | 0 <= i < j < |r| ensures r[i].id != r[j].id {
      CountedTwice(r, i, j);
    }
  }
}
