/**
 Small HNSW indexes. As long as no friend list can overflow, linking a node never removes an
 edge, so the bottom layer stays connected whatever was inserted, drained and deleted.
 */
module HnswSmall {
  import opened Common
  import opened Ranking
  import opened Beam
  import opened HnswGraph
  import opened Hnsw

  /** The bottom layer without distances. */
  ghost function Bottom(nodes: seq<Node>): (v: LayerView)
    ensures |v.adj| == |v.dist| == |nodes| && forall i :: 0 <= i < |nodes| ==> v.adj[i] == LayerFriends(nodes[i], 0)
  {
    LayerView(seq(|nodes|, i requires 0 <= i < |nodes| => LayerFriends(nodes[i], 0)), seq(|nodes|, _ => 0.0))
  }

  /** Every node is reachable from every other one. */
  ghost predicate Connected(v: LayerView) {
    forall a: nat, b: nat :: a < |v.adj| && b < |v.adj| ==> Reachable(v, a, iset{}, b)
  }

  ghost predicate TightList(l: seq<nat>, i: nat, n: nat) {
    NoRepeats(l) && forall f :: f in l ==> f < n && f != i
  }

  ghost predicate Tight(v: LayerView) {
    forall i: nat :: i < |v.adj| ==> TightList(v.adj[i], i, |v.adj|)
  }

  /** A graph without nodes, or one with an entry point whose bottom layer is connected. */
  ghost predicate Coherent(g: GraphState) {
    (g.entry < 0 <==> g.nodes == []) && Tight(Bottom(g.nodes)) && Connected(Bottom(g.nodes))
  }

  lemma {:induction false} EmptyIsCoherent(g: GraphState)
    requires g.nodes == [] && g.entry == -1
    ensures Coherent(g)
  {
  }

  // ---------------------------------------------------------------- walks

  /** Every edge of a is one of b. */
  ghost predicate Within(a: LayerView, b: LayerView) {
    |a.adj| <= |b.adj| && forall i, f :: 0 <= i < |a.adj| && f in a.adj[i] ==> f in b.adj[i]
  }

  lemma {:induction false} StillReachable(a: LayerView, b: LayerView, x: nat, y: nat)
    requires Within(a, b) && Reachable(a, x, iset{}, y)
    ensures Reachable(b, x, iset{}, y)
  {
    var p :| Walk(a, x, iset{}, p) && p[|p| - 1] == y;
    assert Walk(b, x, iset{}, p);
  }

  lemma {:induction false} ReachableThen(v: LayerView, a: nat, b: nat, c: nat)
    requires Reachable(v, a, iset{}, b) && Reachable(v, b, iset{}, c)
    ensures Reachable(v, a, iset{}, c)
  {
    var p :| Walk(v, a, iset{}, p) && p[|p| - 1] == b;
    var q :| Walk(v, b, iset{}, q) && q[|q| - 1] == c;
    Joins(v, p, q);
  }

  lemma {:induction false} Joins(v: LayerView, p: seq<nat>, q: seq<nat>)
    requires |p| > 0 && |q| > 0 && Walk(v, p[0], iset{}, p) && Walk(v, q[0], iset{}, q) && p[|p| - 1] == q[0]
    ensures Reachable(v, p[0], iset{}, q[|q| - 1])
  {
    var r := p + q[1..];
    forall i | 0 < i < |r| ensures r[i] in v.adj[r[i - 1]] && r[i] < |v.adj| {
      if i >= |p| {
        assert r[i] == q[i - |p| + 1] && r[i - 1] == q[i - |p|];
      }
    }
    assert Walk(v, p[0], iset{}, r) && r[|r| - 1] == q[|q| - 1];
  }

  lemma {:induction false} EdgeReachable(v: LayerView, x: nat, y: nat)
    requires x < |v.adj| && y < |v.adj| && y in v.adj[x]
    ensures Reachable(v, x, iset{}, y)
  {
    assert Walk(v, x, iset{}, [x, y]);
  }

  /** A new node with an edge to and from an old one keeps the graph connected. */
  lemma {:induction false} OneMoreConnected(a: LayerView, b: LayerView, c: nat)
    requires Connected(a) && Within(a, b) && |b.adj| == |a.adj| + 1
    requires c < |a.adj| && c in b.adj[|a.adj|] && |a.adj| in b.adj[c]
    ensures Connected(b)
  {
    var q := |a.adj|;
    EdgeReachable(b, q, c);
    EdgeReachable(b, c, q);
    StartReachable(b, q, iset{});
    hide Reachable, Within;
    forall x: nat | x < q ensures Reachable(b, x, iset{}, c) && Reachable(b, c, iset{}, x) {
      StillReachable(a, b, x, c);
      StillReachable(a, b, c, x);
    }
    forall x: nat, y: nat | x < |b.adj| && y < |b.adj| ensures Reachable(b, x, iset{}, y) {
      if x < q || y < q {
        ReachableThen(b, x, c, y);
      }
    }
  }

  // ---------------------------------------------------------------- insertions

  lemma {:induction false} ShortList(l: seq<nat>, i: nat, n: nat)
    requires TightList(l, i, n) && i < n
    ensures |l| < n
  {
    ElementsSize(l);
    BoundedSize(Elements(l) + {i}, n);
  }

  lemma {:induction false} Grows(l: seq<nat>, i: nat, n: nat)
    requires TightList(l, i, n) && i < n
    ensures TightList(l + [n], i, n + 1)
  {
    forall f | f in l + [n] ensures f < n + 1 && f != i {
      assert f in l || f == n;
    }
    assert n !in l;
  }

  /** Linking on the bottom layer while all lists are short. */
  lemma {:induction false} LinksKeepEdges(s: Space, a: seq<Node>, b: seq<Node>, neighbors: seq<nat>, mm: nat)
    requires |a| > 0 && |a| - 1 <= mm && JoinedOn(s, a, b, |a| - 1, 0, neighbors, mm)
    requires Tight(Bottom(a[..|a| - 1])) && LayerFriends(a[|a| - 1], 0) == []
    requires NoRepeats(neighbors)
    ensures Within(Bottom(a[..|a| - 1]), Bottom(b)) && Tight(Bottom(b))
    ensures forall f :: f in neighbors ==> |a| - 1 in Bottom(b).adj[f]
  {
    var q := |a| - 1;
    var u, v := Bottom(a[..q]), Bottom(b);
    forall i: nat | i < q
      ensures v.adj[i] == if i in neighbors then u.adj[i] + [q] else u.adj[i]
      ensures TightList(v.adj[i], i, |a|)
    {
      assert TightList(u.adj[i], i, q);
      ShortList(u.adj[i], i, q);
      if i in neighbors {
        assert v.adj[i] == u.adj[i] + [q];
        Grows(u.adj[i], i, q);
      }
    }
    assert TightList(v.adj[q], q, |a|);
  }

  lemma {:induction false} InsertKeepsCoherent(s: Space, g: GraphState, after: seq<Node>, deleted: set<nat>, id: nat,
                                            vector: Vec, level: nat, width: int, m: nat, trail: seq<nat>,
                                            links: seq<Link>)
    requires Coherent(g) && |g.nodes| <= 2 * m && m > 0
    requires Grown(s, g.nodes, after, deleted, id, vector, level, g.entry, g.top, width, m, trail, links)
    ensures |after| == |g.nodes| + 1 && Tight(Bottom(after)) && Connected(Bottom(after))
  {
    hide Grown, Tight, Connected, Bottom;
    if g.entry < 0 {
      GrownAlone(s, g, after, deleted, id, vector, level, width, m, trail, links);
      FirstNode(after);
    } else {
      hide *;
      LinkedOn(s, g, after, deleted, id, vector, level, width, m, trail, links);
    }
  }

  lemma {:induction false} LinkedOn(s: Space, g: GraphState, after: seq<Node>, deleted: set<nat>, id: nat,
                                    vector: Vec, level: nat, width: int, m: nat, trail: seq<nat>, links: seq<Link>)
    requires Tight(Bottom(g.nodes)) && Connected(Bottom(g.nodes)) && |g.nodes| <= 2 * m && m > 0 && g.entry >= 0
    requires Grown(s, g.nodes, after, deleted, id, vector, level, g.entry, g.top, width, m, trail, links)
    ensures |after| == |g.nodes| + 1 && Tight(Bottom(after)) && Connected(Bottom(after))
  {
    hide *;
    BottomLink(s, g, after, deleted, id, vector, level, width, m, trail, links);
    var a := g.nodes + [Node(id, level, NoFriends(level))];
    assert a[..|g.nodes|] == g.nodes;
    LinkKeepsCoherent(s, a, after, links[0].neighbors, 2 * m);
  }

  lemma {:induction false} GrownAlone(s: Space, g: GraphState, after: seq<Node>, deleted: set<nat>, id: nat,
                                      vector: Vec, level: nat, width: int, m: nat, trail: seq<nat>, links: seq<Link>)
    requires g.entry < 0 && g.nodes == []
    requires Grown(s, g.nodes, after, deleted, id, vector, level, g.entry, g.top, width, m, trail, links)
    ensures |after| == 1 && LayerFriends(after[0], 0) == []
  {
  }

  lemma {:induction false} LinkKeepsCoherent(s: Space, a: seq<Node>, after: seq<Node>, neighbors: seq<nat>, mm: nat)
    requires |a| > 0 && |a| - 1 <= mm && JoinedOn(s, a, after, |a| - 1, 0, neighbors, mm)
    requires Tight(Bottom(a[..|a| - 1])) && Connected(Bottom(a[..|a| - 1])) && LayerFriends(a[|a| - 1], 0) == []
    requires NoRepeats(neighbors) && neighbors != []
    ensures |after| == |a| && Tight(Bottom(after)) && Connected(Bottom(after))
  {
    LinksKeepEdges(s, a, after, neighbors, mm);
    assert neighbors[0] in neighbors;
    hide Connected, Tight;
    OneMoreConnected(Bottom(a[..|a| - 1]), Bottom(after), neighbors[0]);
  }

  lemma {:induction false} FirstNode(nodes: seq<Node>)
    requires |nodes| == 1 && LayerFriends(nodes[0], 0) == []
    ensures Tight(Bottom(nodes)) && Connected(Bottom(nodes))
  {
    StartReachable(Bottom(nodes), 0, iset{});
  }

  /** What an insertion into a graph that has nodes did on the bottom layer. */
  lemma {:induction false} BottomLink(s: Space, g: GraphState, after: seq<Node>, deleted: set<nat>, id: nat,
                                      vector: Vec, level: nat, width: int, m: nat, trail: seq<nat>, links: seq<Link>)
    requires g.entry >= 0 && m > 0
    requires Grown(s, g.nodes, after, deleted, id, vector, level, g.entry, g.top, width, m, trail, links)
    ensures var a := g.nodes + [Node(id, level, NoFriends(level))];
            |links| > 0 && JoinedOn(s, a, after, |g.nodes|, 0, links[0].neighbors, 2 * m)
    ensures NoRepeats(links[0].neighbors) && links[0].neighbors != []
    ensures LayerFriends((g.nodes + [Node(id, level, NoFriends(level))])[|g.nodes|], 0) == []
  {
    var a, start := g.nodes + [Node(id, level, NoFriends(level))], trail[|trail| - 1];
    hide Descent, Searched, BackLinked, SameSkeleton, Untouched, EntryBelow;
    assert WovenAt(s, a, after, |g.nodes|, vector, width, m, 0 + 0, links[0], EntryBelow(start, links, 1));
    DistinctNeighbors(s, a, vector, width, m, links[0]);
  }

  lemma {:induction false} DistinctNeighbors(s: Space, a: seq<Node>, vector: Vec, width: int, m: nat, link: Link)
    requires Searched(s, a, vector, width, m, 0, link) && m > 0
    ensures NoRepeats(link.neighbors) && link.neighbors != []
  {
    ChosenMembers(s, link.candidates, link.picks, link.neighbors, 2 * m);
    ChosenNotEmpty(s, link.candidates, link.picks, link.neighbors, 2 * m);
  }

  lemma {:induction false} InsertsAddOne(distFn: (Vec, Vec) -> real, g: GraphState, h: GraphState, deleted: set<nat>,
                                         id: nat, vector: Vec, level: nat, width: int, m: nat)
    requires Inserts(distFn, g, h, deleted, id, vector, level, width, m)
    ensures |h.nodes| == |g.nodes| + 1
  {
    hide Descent, AllWoven, Untouched;
  }

  lemma {:induction false} InsertsKeepCoherent(distFn: (Vec, Vec) -> real, g: GraphState, h: GraphState,
                                            deleted: set<nat>, id: nat, vector: Vec, level: nat, width: int, m: nat)
    requires Coherent(g) && Inserts(distFn, g, h, deleted, id, vector, level, width, m) && |h.nodes| <= 2 * m + 1
    requires m > 0
    ensures Coherent(h)
  {
    InsertsAddOne(distFn, g, h, deleted, id, vector, level, width, m);
    hide Grown, Tight, Connected, Bottom;
    var s := Space(distFn, h.vecs);
    var trail, links :|
      Grown(s, g.nodes, h.nodes, deleted, id, vector, level, g.entry, g.top, width, m, trail, links);
    InsertKeepsCoherent(s, g, h.nodes, deleted, id, vector, level, width, m, trail, links);
  }

  lemma {:induction false} ReplayGrows(distFn: (Vec, Vec) -> real, g: GraphState, h: GraphState, deleted: set<nat>,
                                       live: map<nat, Vec>, p: Pending, level: nat, width: int, m: nat)
    requires Replayed(distFn, g, h, deleted, live, p, level, width, m)
    ensures |g.nodes| <= |h.nodes|
    ensures Coherent(g) && |h.nodes| <= 2 * m + 1 && m > 0 ==> Coherent(h)
  {
    hide Coherent, Inserts;
    if p.id !in live {
      InsertsAddOne(distFn, g, h, deleted, p.id, p.vector, level, width, m);
      if Coherent(g) && |h.nodes| <= 2 * m + 1 && m > 0 {
        InsertsKeepCoherent(distFn, g, h, deleted, p.id, p.vector, level, width, m);
      }
    }
  }

  lemma {:induction false} BatchGrows(distFn: (Vec, Vec) -> real, history: seq<GraphState>, deleted: set<nat>,
                                      live: map<nat, Vec>, batch: seq<Pending>, levels: nat -> nat, width: int,
                                      m: nat, k: nat)
    requires Replays(distFn, history, deleted, live, batch, levels, width, m) && k <= |batch|
    ensures |history[0].nodes| <= |history[k].nodes|
  {
    if k > 0 {
      BatchGrows(distFn, history, deleted, live, batch, levels, width, m, k - 1);
      hide Replayed;
      ReplayGrows(distFn, history[k - 1], history[k - 1 + 1], deleted, ApplyAll(live, batch[..k - 1]), batch[k - 1],
                  levels(k - 1), width, m);
    }
  }

  /** A whole batch keeps the bottom layer connected if the graph it leaves is small. */
  lemma {:induction false} BatchKeepsCoherent(distFn: (Vec, Vec) -> real, history: seq<GraphState>, deleted: set<nat>,
                                              live: map<nat, Vec>, batch: seq<Pending>, levels: nat -> nat, width: int,
                                              m: nat, k: nat)
    requires Replays(distFn, history, deleted, live, batch, levels, width, m) && k <= |batch|
    requires Coherent(history[0]) && |history[k].nodes| <= 2 * m + 1 && m > 0
    ensures Coherent(history[k])
  {
    if k > 0 {
      hide Replayed, Coherent;
      ReplayGrows(distFn, history[k - 1], history[k - 1 + 1], deleted, ApplyAll(live, batch[..k - 1]), batch[k - 1],
                  levels(k - 1), width, m);
      BatchKeepsCoherent(distFn, history, deleted, live, batch, levels, width, m, k - 1);
    }
  }
}
