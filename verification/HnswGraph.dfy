/** The layered graph of an HNSW index: well-formed lists, greedy descent, neighbour selection and linking. */
module HnswGraph {
  import opened Common
  import opened Ranking
  import opened Beam

  /** A vertex: friends[layer] lists neighbour node indices, for layers 0 to level. */
  datatype Node = Node(id: nat, level: nat, friends: seq<seq<nat>>)

  function LayerFriends(n: Node, layer: nat): seq<nat> {
    if layer < |n.friends| then n.friends[layer] else []
  }

  /** Empty friend lists for the layers up to a level. */
  function NoFriends(level: nat): (l: seq<seq<nat>>)
    ensures |l| == level + 1 && forall k :: 0 <= k <= level ==> l[k] == []
  {
    seq(level + 1, _ => [])
  }

  function MaxConn(m: nat, layer: nat): nat {
    if layer == 0 then 2 * m else m
  }

  /** Friend list l of node i on a layer: in range, on that layer, no self-loop, no duplicate, bounded degree. */
  ghost predicate ListOk(nodes: seq<Node>, m: nat, i: nat, layer: nat, l: seq<nat>) {
    && NoRepeats(l) && |l| <= MaxConn(m, layer)
    && forall f :: f in l ==> f < |nodes| && f != i && nodes[f].level >= layer
  }

  ghost predicate NodeOk(nodes: seq<Node>, m: nat, i: nat)
    requires i < |nodes|
  {
    && |nodes[i].friends| == nodes[i].level + 1
    && forall layer :: 0 <= layer <= nodes[i].level ==> ListOk(nodes, m, i, layer, nodes[i].friends[layer])
  }

  ghost predicate GraphOk(nodes: seq<Node>, m: nat) {
    forall i: nat :: i < |nodes| ==> NodeOk(nodes, m, i)
  }

  /** Same nodes with the same ids and levels; only friend lists may differ. */
  ghost predicate SameSkeleton(a: seq<Node>, b: seq<Node>) {
    && |a| == |b|
    && forall i :: 0 <= i < |a| ==> a[i].id == b[i].id && a[i].level == b[i].level
  }

  /** No friend list on a layer below the bound mentions q. */
  ghost predicate NoEdgesTo(nodes: seq<Node>, q: nat, bound: int) {
    forall i, layer: nat :: 0 <= i < |nodes| && layer < bound ==> q !in LayerFriends(nodes[i], layer)
  }

  lemma {:induction false} NoEdgesBelow(nodes: seq<Node>, q: nat, bound: int, lower: int)
    requires NoEdgesTo(nodes, q, bound) && lower <= bound
    ensures NoEdgesTo(nodes, q, lower)
  {
  }

  function SetFriends(nodes: seq<Node>, i: nat, layer: nat, l: seq<nat>): seq<Node>
    requires i < |nodes| && layer < |nodes[i].friends|
  {
    nodes[i := nodes[i].(friends := nodes[i].friends[layer := l])]
  }

  /** Replacing one well-formed list keeps the graph well-formed and touches nothing else. */
  lemma {:induction false} SetFriendsOk(nodes: seq<Node>, m: nat, i: nat, layer: nat, l: seq<nat>)
    requires GraphOk(nodes, m) && i < |nodes| && layer <= nodes[i].level
    requires ListOk(nodes, m, i, layer, l)
    ensures NodeOk(nodes, m, i)
    ensures layer < |nodes[i].friends|
    ensures GraphOk(SetFriends(nodes, i, layer, l), m)
    ensures SameSkeleton(nodes, SetFriends(nodes, i, layer, l))
    ensures LayerFriends(SetFriends(nodes, i, layer, l)[i], layer) == l
    ensures forall j, k: nat :: 0 <= j < |nodes| && (j != i || k != layer) ==>
              LayerFriends(SetFriends(nodes, i, layer, l)[j], k) == LayerFriends(nodes[j], k)
  {
    assert NodeOk(nodes, m, i);
    var g := SetFriends(nodes, i, layer, l);
    forall j: nat | j < |g| ensures NodeOk(g, m, j) {
      assert NodeOk(nodes, m, j);
      forall k | 0 <= k <= g[j].level ensures ListOk(g, m, j, k, g[j].friends[k]) {
        if j == i && k == layer {
        } else {
          assert ListOk(nodes, m, j, k, nodes[j].friends[k]);
        }
      }
    }
  }

  lemma {:induction false} AppendNodeOk(nodes: seq<Node>, m: nat, id: nat, level: nat)
    requires GraphOk(nodes, m)
    ensures GraphOk(nodes + [Node(id, level, NoFriends(level))], m)
    ensures NoEdgesTo(nodes + [Node(id, level, NoFriends(level))], |nodes|, level + 1)
  {
    var g := nodes + [Node(id, level, NoFriends(level))];
    forall j: nat | j < |g| ensures NodeOk(g, m, j) {
      if j < |nodes| {
        assert NodeOk(nodes, m, j);
        forall k | 0 <= k <= g[j].level ensures ListOk(g, m, j, k, g[j].friends[k]) {
          assert ListOk(nodes, m, j, k, nodes[j].friends[k]);
        }
      }
    }
    forall i, layer: nat | 0 <= i < |g| && layer < level + 1 ensures |nodes| !in LayerFriends(g[i], layer) {
      if i < |nodes| {
        assert NodeOk(nodes, m, i);
      }
    }
  }

  // ---------------------------------------------------------------- vectors and distances

  /** The vectors of all nodes and the function that compares two of them. */
  datatype Space = Space(distFn: (Vec, Vec) -> real, vecs: seq<Vec>)

  /** One layer as the given query sees it. */
  ghost function ViewOf(s: Space, nodes: seq<Node>, query: Vec, layer: nat): (v: LayerView)
    requires |s.vecs| == |nodes|
    ensures |v.adj| == |v.dist| == |nodes|
    ensures forall i :: 0 <= i < |nodes| ==> v.adj[i] == LayerFriends(nodes[i], layer)
    ensures forall i :: 0 <= i < |nodes| ==> v.dist[i] == s.distFn(query, s.vecs[i])
  {
    LayerView(seq(|nodes|, i requires 0 <= i < |nodes| => LayerFriends(nodes[i], layer)),
              seq(|nodes|, i requires 0 <= i < |nodes| => s.distFn(query, s.vecs[i])))
  }

  lemma {:induction false} SameLists(s: Space, a: seq<Node>, b: seq<Node>, query: Vec, layer: nat)
    requires |s.vecs| == |a| == |b|
    requires forall i :: 0 <= i < |a| ==> LayerFriends(a[i], layer) == LayerFriends(b[i], layer)
    ensures ViewOf(s, a, query, layer) == ViewOf(s, b, query, layer)
  {
  }

  // ---------------------------------------------------------------- greedy descent

  /** Position j of a friend list holds the closest live friend, first among equals, and it improves on the node. */
  ghost predicate Improves(v: LayerView, deleted: set<nat>, from: nat, j: nat)
    requires ViewOk(v) && from < |v.adj| && j < |v.adj[from]|
  {
    var l := v.adj[from];
    && (forall i :: 0 <= i < |l| ==> l[i] < |v.dist|)
    && l[j] !in deleted && v.dist[l[j]] < v.dist[from]
    && forall i :: 0 <= i < |l| && l[i] !in deleted ==>
         v.dist[l[j]] <= v.dist[l[i]] && (i < j ==> v.dist[l[j]] < v.dist[l[i]])
  }

  ghost predicate GreedyStep(v: LayerView, deleted: set<nat>, from: nat, to: nat)
    requires ViewOk(v)
  {
    from < |v.adj| && exists j: nat :: j < |v.adj[from]| && Improves(v, deleted, from, j) && v.adj[from][j] == to
  }

  /** No live neighbour is closer to the query. */
  ghost predicate LocalMinimum(v: LayerView, deleted: set<nat>, ep: nat)
    requires ViewOk(v)
  {
    ep < |v.adj| && forall f :: f in v.adj[ep] ==> f in deleted || v.dist[ep] <= v.dist[f]
  }

  /** Greedy steps from one node to another where no further one is possible. */
  ghost predicate GreedyWalk(v: LayerView, deleted: set<nat>, walk: seq<nat>)
    requires ViewOk(v)
  {
    && |walk| > 0 && LocalMinimum(v, deleted, walk[|walk| - 1])
    && forall i :: 0 < i < |walk| ==> GreedyStep(v, deleted, walk[i - 1], walk[i])
  }

  ghost predicate GreedyEnds(v: LayerView, deleted: set<nat>, from: nat, to: nat)
    requires ViewOk(v)
  {
    exists walk :: GreedyWalk(v, deleted, walk) && walk[0] == from && walk[|walk| - 1] == to
  }

  /** trail holds the greedy descent from top: one greedy walk on each layer above the given level. */
  ghost predicate Descent(s: Space, nodes: seq<Node>, deleted: set<nat>, query: Vec, top: nat, level: nat,
                          trail: seq<nat>)
  {
    && |s.vecs| == |nodes| && top < |nodes| && (forall layer: nat :: ViewOk(ViewOf(s, nodes, query, layer)))
    && |trail| == (if nodes[top].level > level then nodes[top].level - level else 0) + 1 && trail[0] == top
    && forall k :: 0 < k < |trail| ==>
         GreedyEnds(ViewOf(s, nodes, query, nodes[top].level - k + 1), deleted, trail[k - 1], trail[k])
  }

  /** A greedy step leads to one node only. */
  lemma {:induction false} OneStep(v: LayerView, deleted: set<nat>, from: nat, a: nat, b: nat)
    requires ViewOk(v) && GreedyStep(v, deleted, from, a) && GreedyStep(v, deleted, from, b)
    ensures a == b
  {
    var i: nat :| i < |v.adj[from]| && Improves(v, deleted, from, i) && v.adj[from][i] == a;
    var j: nat :| j < |v.adj[from]| && Improves(v, deleted, from, j) && v.adj[from][j] == b;
  }

  /** Greedy steps from start to ep. */
  ghost predicate Walked(v: LayerView, deleted: set<nat>, walk: seq<nat>, start: nat, ep: nat)
    requires ViewOk(v)
  {
    && |walk| > 0 && walk[0] == start && walk[|walk| - 1] == ep
    && forall i :: 0 < i < |walk| ==> GreedyStep(v, deleted, walk[i - 1], walk[i])
  }

  lemma {:induction false} WalkStarts(v: LayerView, deleted: set<nat>, start: nat)
    requires ViewOk(v)
    ensures Walked(v, deleted, [start], start, start)
  {
  }

  lemma {:induction false} WalkExtends(v: LayerView, deleted: set<nat>, walk: seq<nat>, start: nat, ep: nat, next: nat)
    requires ViewOk(v) && Walked(v, deleted, walk, start, ep) && GreedyStep(v, deleted, ep, next)
    ensures Walked(v, deleted, walk + [next], start, next)
  {
    hide GreedyStep;
  }

  lemma {:induction false} WalkComplete(v: LayerView, deleted: set<nat>, walk: seq<nat>, start: nat, ep: nat)
    requires ViewOk(v) && Walked(v, deleted, walk, start, ep) && LocalMinimum(v, deleted, ep)
    ensures GreedyWalk(v, deleted, walk) && walk[0] == start && walk[|walk| - 1] == ep
  {
  }

  /** The descent from top through the layers above lc. */
  ghost predicate Trailed(s: Space, nodes: seq<Node>, deleted: set<nat>, query: Vec, top: nat, lc: int, trail: seq<nat>,
                          ep: nat)
    requires |s.vecs| == |nodes| && top < |nodes| && forall layer: nat :: ViewOk(ViewOf(s, nodes, query, layer))
  {
    && 0 <= lc <= nodes[top].level && |trail| == nodes[top].level - lc + 1
    && trail[0] == top && trail[|trail| - 1] == ep
    && forall k :: 0 < k < |trail| ==>
         GreedyEnds(ViewOf(s, nodes, query, nodes[top].level - k + 1), deleted, trail[k - 1], trail[k])
  }

  lemma {:induction false} TrailStarts(s: Space, nodes: seq<Node>, deleted: set<nat>, query: Vec, top: nat)
    requires |s.vecs| == |nodes| && top < |nodes| && forall layer: nat :: ViewOk(ViewOf(s, nodes, query, layer))
    ensures Trailed(s, nodes, deleted, query, top, nodes[top].level, [top], top)
  {
  }

  lemma {:induction false} TrailExtends(s: Space, nodes: seq<Node>, deleted: set<nat>, query: Vec, top: nat, lc: int,
                                        trail: seq<nat>, ep: nat, next: nat, walk: seq<nat>)
    requires |s.vecs| == |nodes| && top < |nodes| && forall layer: nat :: ViewOk(ViewOf(s, nodes, query, layer))
    requires lc > 0 && Trailed(s, nodes, deleted, query, top, lc, trail, ep)
    requires GreedyWalk(ViewOf(s, nodes, query, lc), deleted, walk) && walk[0] == ep && walk[|walk| - 1] == next
    ensures Trailed(s, nodes, deleted, query, top, lc - 1, trail + [next], next)
  {
    assert GreedyEnds(ViewOf(s, nodes, query, lc), deleted, ep, next);
    hide GreedyEnds, ViewOf, ViewOk;
    var more := trail + [next];
    forall k | 0 < k < |more|
      ensures GreedyEnds(ViewOf(s, nodes, query, nodes[top].level - k + 1), deleted, more[k - 1], more[k])
    {
      if k == |trail| {
        assert nodes[top].level - k + 1 == lc;
      }
    }
  }

  lemma {:induction false} TrailComplete(s: Space, nodes: seq<Node>, deleted: set<nat>, query: Vec, top: nat,
                                         level: nat,
                                         lc: int, trail: seq<nat>, ep: nat)
    requires |s.vecs| == |nodes| && top < |nodes| && forall layer: nat :: ViewOk(ViewOf(s, nodes, query, layer))
    requires lc == Min(level, nodes[top].level) && Trailed(s, nodes, deleted, query, top, lc, trail, ep)
    ensures Descent(s, nodes, deleted, query, top, level, trail) && |trail| > 0 && ep == trail[|trail| - 1]
  {
    hide GreedyEnds, ViewOf, ViewOk;
  }

  // ---------------------------------------------------------------- neighbour selection

  ghost predicate InSpace(s: Space, candidates: seq<Hit>) {
    forall k :: 0 <= k < |candidates| ==> candidates[k].id < |s.vecs|
  }

  /** No candidate picked before c is closer to c than the query is. */
  ghost predicate Accepts(s: Space, candidates: seq<Hit>, picks: seq<nat>, c: nat)
    requires InSpace(s, candidates) && c < |candidates| && forall k :: 0 <= k < |picks| ==> picks[k] < |candidates|
  {
    forall k :: 0 <= k < |picks| && picks[k] < c ==>
      s.distFn(s.vecs[candidates[c].id], s.vecs[candidates[picks[k]].id]) >= candidates[c].dist
  }

  /** Of the first candidates up to the bound exactly the accepted ones are picked, in order. */
  ghost predicate Picked(s: Space, candidates: seq<Hit>, picks: seq<nat>, bound: nat) {
    && InSpace(s, candidates) && bound <= |candidates|
    && (forall k :: 0 <= k < |picks| ==> picks[k] < bound)
    && (forall j, k :: 0 <= j < k < |picks| ==> picks[j] < picks[k])
    && forall c: nat :: c < bound ==> (c in picks <==> Accepts(s, candidates, picks, c))
  }

  lemma {:induction false} PickedOneMore(s: Space, candidates: seq<Hit>, picks: seq<nat>, i: nat)
    requires i < |candidates| && Picked(s, candidates, picks, i)
    ensures Accepts(s, candidates, picks, i) ==> Picked(s, candidates, picks + [i], i + 1)
    ensures !Accepts(s, candidates, picks, i) ==> Picked(s, candidates, picks, i + 1)
  {
    var more := picks + [i];
    forall c: nat | c < i + 1
      ensures c in more <==> c in picks || c == i
      ensures Accepts(s, candidates, more, c) <==> Accepts(s, candidates, picks, c)
    {
      assert forall k :: 0 <= k < |picks| ==> more[k] == picks[k];
    }
  }

  /** How far the heuristic looks: to its last pick once it has enough, else to the end. */
  ghost function LookedAt(picks: seq<nat>, mm: nat, n: nat): nat {
    if |picks| < mm then n else if picks == [] then 0 else picks[|picks| - 1] + 1
  }

  ghost predicate Lists(candidates: seq<Hit>, picks: seq<nat>, result: seq<nat>) {
    && |result| == |picks|
    && forall k :: 0 <= k < |picks| ==> picks[k] < |candidates| && result[k] == candidates[picks[k]].id
  }

  /** result is what the heuristic selects from the candidates, at the positions picks: all of a short list. */
  ghost predicate Chosen(s: Space, candidates: seq<Hit>, picks: seq<nat>, result: seq<nat>, mm: nat) {
    && InSpace(s, candidates) && Lists(candidates, picks, result) && |result| <= mm
    && if |candidates| <= mm then |picks| == |candidates| && forall k :: 0 <= k < |picks| ==> picks[k] == k
       else Picked(s, candidates, picks, LookedAt(picks, mm, |candidates|))
  }

  /** Where there is room the closest candidate is always selected. */
  lemma {:induction false} ChosenNotEmpty(s: Space, candidates: seq<Hit>, picks: seq<nat>, result: seq<nat>, mm: nat)
    requires Chosen(s, candidates, picks, result, mm) && candidates != [] && mm > 0
    ensures |result| > 0 && result[0] == candidates[0].id
  {
    if |candidates| > mm {
      var bound := LookedAt(picks, mm, |candidates|);
      assert bound > 0 ==> Accepts(s, candidates, picks, 0);
      assert 0 in picks;
      assert picks[0] == 0;
    }
  }

  /** Selected nodes are candidates, and distinct if these are. */
  lemma {:induction false} ChosenMembers(s: Space, candidates: seq<Hit>, picks: seq<nat>, result: seq<nat>, mm: nat)
    requires Chosen(s, candidates, picks, result, mm)
    ensures forall f :: f in result ==> f in Ids(candidates)
    ensures DistinctIds(candidates) ==> NoRepeats(result)
  {
    forall f | f in result ensures f in Ids(candidates) {
      var k :| 0 <= k < |result| && result[k] == f;
      assert candidates[picks[k]] in candidates;
    }
    if DistinctIds(candidates) {
      forall i, j | 0 <= i < j < |result| ensures result[i] != result[j] {
        assert picks[i] < picks[j];
      }
    }
  }

  /** The friends in order of distance from a vector. */
  ghost predicate ByDistance(s: Space, from: Vec, friends: seq<nat>, sorted: seq<Hit>) {
    && Ascending(sorted) && DistinctIds(sorted) && Ids(sorted) == Elements(friends)
    && forall k :: 0 <= k < |sorted| ==>
         sorted[k].id < |s.vecs| && sorted[k].dist == s.distFn(from, s.vecs[sorted[k].id])
  }

  /** What is kept of a list: all of a short one, else what the heuristic selects, nearest first. */
  ghost predicate Pruned(s: Space, from: Vec, friends: seq<nat>, kept: seq<nat>, mm: nat) {
    if |friends| <= mm then kept == friends
    else exists sorted, picks :: ByDistance(s, from, friends, sorted) && Chosen(s, sorted, picks, kept, mm)
  }

  // ---------------------------------------------------------------- linking

  /** Distinct candidates on a layer yield a well-formed friend list. */
  lemma {:induction false} SelectionIsList(s: Space, nodes: seq<Node>, m: nat, q: nat, layer: nat, candidates: seq<Hit>,
                                           picks: seq<nat>, l: seq<nat>)
    requires Chosen(s, candidates, picks, l, MaxConn(m, layer)) && DistinctIds(candidates)
    requires forall k :: 0 <= k < |candidates| ==>
               candidates[k].id < |nodes| && candidates[k].id != q && nodes[candidates[k].id].level >= layer
    ensures ListOk(nodes, m, q, layer, l)
  {
    ChosenMembers(s, candidates, picks, l, MaxConn(m, layer));
    forall f | f in l ensures f < |nodes| && f != q && nodes[f].level >= layer {
      var k :| 0 <= k < |candidates| && candidates[k].id == f;
    }
  }

  /** Part of a well-formed list, or of one with a new node on the layer, is well-formed. */
  lemma {:induction false} KeptListOk(nodes: seq<Node>, m: nat, i: nat, layer: nat, wide: seq<nat>, kept: seq<nat>)
    requires forall f :: f in wide ==> f < |nodes| && f != i && nodes[f].level >= layer
    requires NoRepeats(kept) && |kept| <= MaxConn(m, layer) && forall f :: f in kept ==> f in wide
    ensures ListOk(nodes, m, i, layer, kept)
  {
  }

  /** q was added to the list of nb, which was pruned if over-full. */
  ghost predicate BackLinked(s: Space, nb: nat, before: seq<nat>, after: seq<nat>, q: nat, mm: nat) {
    nb < |s.vecs| && Pruned(s, s.vecs[nb], before + [q], after, mm)
  }

  /** One neighbour was linked back to q on the layer and nothing else changed. */
  ghost predicate OneLinked(s: Space, a: seq<Node>, b: seq<Node>, q: nat, layer: nat, nb: nat, mm: nat) {
    && SameSkeleton(a, b) && nb < |a|
    && (forall j, k: nat :: 0 <= j < |a| && (j != nb || k != layer) ==> LayerFriends(b[j], k) == LayerFriends(a[j], k))
    && BackLinked(s, nb, LayerFriends(a[nb], layer), LayerFriends(b[nb], layer), q, mm)
  }

  /** q has its neighbours on the layer, the first n of them are linked back, and nothing else changed. */
  ghost predicate Linked(s: Space, a: seq<Node>, b: seq<Node>, q: nat, layer: nat, neighbors: seq<nat>, n: nat, mm: nat)
  {
    && SameSkeleton(a, b) && q < |a| && n <= |neighbors|
    && (forall j :: 0 <= j < |neighbors| ==> neighbors[j] < |a| && neighbors[j] != q)
    && LayerFriends(b[q], layer) == neighbors
    && (forall i, lc: nat :: 0 <= i < |a| && (lc != layer || (i != q && i !in neighbors[..n])) ==>
          LayerFriends(b[i], lc) == LayerFriends(a[i], lc))
    && forall j :: 0 <= j < n ==>
         BackLinked(s, neighbors[j], LayerFriends(a[neighbors[j]], layer), LayerFriends(b[neighbors[j]], layer), q, mm)
  }

  lemma {:induction false} LinkedStep(s: Space, a: seq<Node>, b: seq<Node>, c: seq<Node>, q: nat, layer: nat,
                                      neighbors: seq<nat>, n: nat, mm: nat)
    requires n < |neighbors| && NoRepeats(neighbors) && Linked(s, a, b, q, layer, neighbors, n, mm)
    requires OneLinked(s, b, c, q, layer, neighbors[n], mm)
    ensures Linked(s, a, c, q, layer, neighbors, n + 1, mm)
  {
    hide BackLinked, LayerFriends;
    var nb := neighbors[n];
    assert neighbors[..n + 1] == neighbors[..n] + [nb];
    assert nb !in neighbors[..n];
    forall i, lc: nat | 0 <= i < |a| && (lc != layer || (i != q && i !in neighbors[..n + 1]))
      ensures LayerFriends(c[i], lc) == LayerFriends(a[i], lc)
    {
      assert LayerFriends(c[i], lc) == LayerFriends(b[i], lc);
    }
    forall j | 0 <= j < n + 1
      ensures BackLinked(s, neighbors[j], LayerFriends(a[neighbors[j]], layer), LayerFriends(c[neighbors[j]], layer), q,
                         mm)
    {
      if j < n {
        assert neighbors[j] != nb;
      }
    }
  }

  /** A neighbour not yet linked back does not list q. */
  lemma {:induction false} NotYetLinked(s: Space, a: seq<Node>, b: seq<Node>, q: nat, layer: nat, neighbors: seq<nat>,
                                        n: nat, mm: nat)
    requires n < |neighbors| && NoRepeats(neighbors) && Linked(s, a, b, q, layer, neighbors, n, mm)
    requires NoEdgesTo(a, q, layer + 1)
    ensures neighbors[n] < |b| && neighbors[n] != q && q !in LayerFriends(b[neighbors[n]], layer)
  {
    hide BackLinked, LayerFriends;
    assert neighbors[n] !in neighbors[..n];
  }

  /** q has exactly its neighbours on the layer, each of them is linked back, and no other list changed. */
  ghost predicate Joined(s: Space, a: seq<Node>, b: seq<Node>, q: nat, layer: nat, neighbors: seq<nat>, mm: nat) {
    && SameSkeleton(a, b) && q < |a| && LayerFriends(b[q], layer) == neighbors
    && (forall i, lc: nat :: 0 <= i < |a| && (lc != layer || (i != q && i !in neighbors)) ==>
          LayerFriends(b[i], lc) == LayerFriends(a[i], lc))
    && forall f :: f in neighbors ==>
         f < |a| && f != q && BackLinked(s, f, LayerFriends(a[f], layer), LayerFriends(b[f], layer), q, mm)
  }

  lemma {:induction false} LinkedAll(s: Space, a: seq<Node>, b: seq<Node>, q: nat, layer: nat, neighbors: seq<nat>,
                                     mm: nat)
    requires Linked(s, a, b, q, layer, neighbors, |neighbors|, mm) && NoEdgesTo(a, q, layer + 1)
    ensures NoEdgesTo(b, q, layer) && Joined(s, a, b, q, layer, neighbors, mm)
  {
    hide BackLinked, LayerFriends;
    assert neighbors[..|neighbors|] == neighbors;
    forall i, lc: nat | 0 <= i < |b| && lc < layer ensures LayerFriends(b[i], lc) == LayerFriends(a[i], lc) {
    }
  }

  // ---------------------------------------------------------------- linking on all layers

  /** What an insertion did on one layer: the entry point, what the beam evaluated and found, and what was picked. */
  datatype Link = Link(entry: nat, evaluated: set<nat>, candidates: seq<Hit>, picks: seq<nat>, neighbors: seq<nat>)

  /** A beam of the given width from the entry point, nothing marked, and the heuristic over its candidates. */
  ghost predicate Searched(s: Space, a: seq<Node>, vector: Vec, width: int, m: nat, layer: nat, link: Link) {
    && |s.vecs| == |a| && link.candidates != []
    && BeamResult(ViewOf(s, a, vector, layer), link.entry, width, iset{}, link.evaluated, link.candidates)
    && Chosen(s, link.candidates, link.picks, link.neighbors, if layer == 0 then 2 * m else m)
  }

  /** On the layer b differs from a by q and its links. */
  ghost predicate JoinedOn(s: Space, a: seq<Node>, b: seq<Node>, q: nat, layer: nat, neighbors: seq<nat>, mm: nat) {
    && |a| == |b| && q < |a| && LayerFriends(b[q], layer) == neighbors
    && (forall i :: 0 <= i < |a| && i != q && i !in neighbors ==>
        LayerFriends(b[i], layer) == LayerFriends(a[i], layer))
    && forall f :: f in neighbors ==>
         f < |a| && f != q && BackLinked(s, f, LayerFriends(a[f], layer), LayerFriends(b[f], layer), q, mm)
  }

  /** Where the layer below links[k] starts; below no link at the start. */
  ghost function EntryBelow(start: nat, links: seq<Link>, k: nat): nat {
    if k < |links| && links[k].candidates != [] then links[k].candidates[0].id else start
  }

  /** The link was made on the layer of the graph a from the given entry point; b is the outcome. */
  ghost predicate WovenAt(s: Space, a: seq<Node>, b: seq<Node>, q: nat, vector: Vec, width: int, m: nat, layer: nat,
                          link: Link, entry: nat)
  {
    && Searched(s, a, vector, width, m, layer, link) && link.entry == entry
    && JoinedOn(s, a, b, q, layer, link.neighbors, if layer == 0 then 2 * m else m)
  }

  /** From layer `lower` up the links were made, each from the best of the layer above, and no other layer changed. */
  ghost predicate Woven(s: Space, a: seq<Node>, b: seq<Node>, q: nat, vector: Vec, width: int, m: nat, start: nat,
                        lower: nat, links: seq<Link>)
  {
    && SameSkeleton(a, b) && |s.vecs| == |a|
    && AllWoven(s, a, b, q, vector, width, m, start, lower, links) && Untouched(a, b, lower, lower + |links|)
  }

  ghost predicate AllWoven(s: Space, a: seq<Node>, b: seq<Node>, q: nat, vector: Vec, width: int, m: nat, start: nat,
                           lower: nat, links: seq<Link>)
  {
    forall k :: 0 <= k < |links| ==>
      WovenAt(s, a, b, q, vector, width, m, lower + k, links[k], EntryBelow(start, links, k + 1))
  }

  /** Only lists on the layers from lower to below upper differ. */
  ghost predicate Untouched(a: seq<Node>, b: seq<Node>, lower: nat, upper: nat)
    requires |a| == |b|
  {
    forall i, lc: nat :: 0 <= i < |a| && (lc < lower || lc >= upper) ==>
      LayerFriends(b[i], lc) == LayerFriends(a[i], lc)
  }

  lemma {:induction false} NothingWoven(s: Space, a: seq<Node>, q: nat, vector: Vec, width: int, m: nat, start: nat,
                                        lower: nat)
    requires |s.vecs| == |a|
    ensures Woven(s, a, a, q, vector, width, m, start, lower, [])
  {
  }

  lemma {:induction false} WovenNext(s: Space, a: seq<Node>, b: seq<Node>, c: seq<Node>, q: nat, vector: Vec,
                                     width: int,
                                     m: nat, start: nat, lower: nat, links: seq<Link>, link: Link)
    requires lower > 0 && Woven(s, a, b, q, vector, width, m, start, lower, links)
    requires Searched(s, b, vector, width, m, lower - 1, link) && link.entry == EntryBelow(start, links, 0)
    requires Joined(s, b, c, q, lower - 1, link.neighbors, if lower == 1 then 2 * m else m)
    ensures Woven(s, a, c, q, vector, width, m, start, lower - 1, [link] + links)
  {
    hide WovenAt, Searched, LayerFriends, BackLinked, AllWoven, SameSkeleton, EntryBelow, ViewOf;
    UntouchedNext(s, a, b, c, q, lower, lower + |links|, link.neighbors, if lower == 1 then 2 * m else m);
    hide Untouched, Joined;
    SameLists(s, a, b, vector, lower - 1);
    WovenHere(s, a, b, c, q, vector, width, m, lower - 1, link);
    WovenKept(s, a, b, c, q, vector, width, m, start, lower, links);
    WovenShifted(s, a, c, q, vector, width, m, start, lower, links, link);
  }

  lemma {:induction false} UntouchedNext(s: Space, a: seq<Node>, b: seq<Node>, c: seq<Node>, q: nat, lower: nat,
                                         upper: nat, neighbors: seq<nat>, mm: nat)
    requires lower > 0 && SameSkeleton(a, b) && Untouched(a, b, lower, upper) && lower <= upper
    requires Joined(s, b, c, q, lower - 1, neighbors, mm)
    ensures |a| == |b| == |c| && SameSkeleton(a, c) && Untouched(a, c, lower - 1, upper)
    ensures forall i :: 0 <= i < |a| ==> LayerFriends(b[i], lower - 1) == LayerFriends(a[i], lower - 1)
    ensures forall i, lc: nat :: 0 <= i < |b| && lc != lower - 1 ==> LayerFriends(c[i], lc) == LayerFriends(b[i], lc)
  {
    hide BackLinked, LayerFriends;
  }

  lemma {:induction false} WovenKept(s: Space, a: seq<Node>, b: seq<Node>, c: seq<Node>, q: nat, vector: Vec,
                                     width: int,
                                     m: nat, start: nat, lower: nat, links: seq<Link>)
    requires lower > 0 && AllWoven(s, a, b, q, vector, width, m, start, lower, links) && |b| == |c|
    requires forall i, lc: nat :: 0 <= i < |b| && lc != lower - 1 ==> LayerFriends(c[i], lc) == LayerFriends(b[i], lc)
    ensures AllWoven(s, a, c, q, vector, width, m, start, lower, links)
  {
    hide WovenAt, LayerFriends, EntryBelow;
    forall k | 0 <= k < |links|
      ensures WovenAt(s, a, c, q, vector, width, m, lower + k, links[k], EntryBelow(start, links, k + 1))
    {
      WovenStill(s, a, b, c, q, vector, width, m, lower + k, links[k], EntryBelow(start, links, k + 1));
    }
  }

  lemma {:induction false} WovenShifted(s: Space, a: seq<Node>, c: seq<Node>, q: nat, vector: Vec, width: int, m: nat,
                                        start: nat, lower: nat, links: seq<Link>, link: Link)
    requires lower > 0 && AllWoven(s, a, c, q, vector, width, m, start, lower, links)
    requires WovenAt(s, a, c, q, vector, width, m, lower - 1, link, EntryBelow(start, links, 0))
    ensures AllWoven(s, a, c, q, vector, width, m, start, lower - 1, [link] + links)
  {
    hide WovenAt, EntryBelow;
    var all := [link] + links;
    forall k | 0 <= k < |all|
      ensures WovenAt(s, a, c, q, vector, width, m, lower - 1 + k, all[k], EntryBelow(start, all, k + 1))
    {
      ShiftedEntry(start, link, links, k);
      if k > 0 {
        assert WovenAt(s, a, c, q, vector, width, m, lower + (k - 1), links[k - 1],
                       EntryBelow(start, links, k - 1 + 1));
      }
    }
  }

  lemma {:induction false} ShiftedEntry(start: nat, link: Link, links: seq<Link>, k: nat)
    ensures EntryBelow(start, [link] + links, k + 1) == EntryBelow(start, links, k)
    ensures k <= |links| ==> ([link] + links)[k] == if k == 0 then link else links[k - 1]
  {
  }

  lemma {:induction false} WovenStill(s: Space, a: seq<Node>, b: seq<Node>, c: seq<Node>, q: nat, vector: Vec,
                                      width: int,
                                      m: nat, layer: nat, link: Link, entry: nat)
    requires WovenAt(s, a, b, q, vector, width, m, layer, link, entry) && |b| == |c|
    requires forall i :: 0 <= i < |b| ==> LayerFriends(c[i], layer) == LayerFriends(b[i], layer)
    ensures WovenAt(s, a, c, q, vector, width, m, layer, link, entry)
  {
    hide Searched, BackLinked, LayerFriends, JoinedOn;
    JoinedStays(s, a, b, c, q, layer, link.neighbors, if layer == 0 then 2 * m else m);
  }

  lemma {:induction false} WovenHere(s: Space, a: seq<Node>, b: seq<Node>, c: seq<Node>, q: nat, vector: Vec,
                                     width: int,
                                     m: nat, layer: nat, link: Link)
    requires Searched(s, b, vector, width, m, layer, link) && |s.vecs| == |a| == |b|
    requires ViewOf(s, a, vector, layer) == ViewOf(s, b, vector, layer)
    requires Joined(s, b, c, q, layer, link.neighbors, if layer == 0 then 2 * m else m)
    requires forall i :: 0 <= i < |a| ==> LayerFriends(b[i], layer) == LayerFriends(a[i], layer)
    ensures WovenAt(s, a, c, q, vector, width, m, layer, link, link.entry)
  {
    JoinedHere(s, a, b, c, q, layer, link.neighbors, if layer == 0 then 2 * m else m);
    hide Chosen, BeamResult, BackLinked, LayerFriends, Joined, JoinedOn, ViewOf;
  }

  /** Linking on another layer leaves a layer as it is. */
  lemma {:induction false} JoinedStays(s: Space, a: seq<Node>, b: seq<Node>, c: seq<Node>, q: nat, layer: nat,
                                       neighbors: seq<nat>, mm: nat)
    requires JoinedOn(s, a, b, q, layer, neighbors, mm) && |b| == |c|
    requires forall i :: 0 <= i < |b| ==> LayerFriends(c[i], layer) == LayerFriends(b[i], layer)
    ensures JoinedOn(s, a, c, q, layer, neighbors, mm)
  {
    hide BackLinked, LayerFriends;
  }

  lemma {:induction false} JoinedHere(s: Space, a: seq<Node>, b: seq<Node>, c: seq<Node>, q: nat, layer: nat,
                                      neighbors: seq<nat>, mm: nat)
    requires Joined(s, b, c, q, layer, neighbors, mm) && |a| == |b|
    requires forall i :: 0 <= i < |a| ==> LayerFriends(b[i], layer) == LayerFriends(a[i], layer)
    ensures JoinedOn(s, a, c, q, layer, neighbors, mm)
  {
    hide BackLinked, LayerFriends;
  }

  /** An insertion into a graph with this entry point and top layer: the first node is alone, others are linked. */
  ghost predicate Grown(s: Space, before: seq<Node>, after: seq<Node>, deleted: set<nat>, id: nat, vector: Vec,
                        level: nat, entry: int, top: int, width: int, m: nat, trail: seq<nat>, links: seq<Link>)
  {
    var a := before + [Node(id, level, NoFriends(level))];
    if entry < 0 then after == a
    else
      && 0 <= top && Descent(s, a, deleted, vector, entry, level, trail)
      && |links| == (if level < top then level else top) + 1
      && Woven(s, a, after, |before|, vector, width, m, trail[|trail| - 1], 0, links)
  }

  /** A graph with the vectors of its nodes, its entry point and its top layer. */
  datatype GraphState = GraphState(nodes: seq<Node>, vecs: seq<Vec>, entry: int, top: int)

  /** One insertion: the vector is added, the node linked, and the entry point moves up if the node tops the graph. */
  ghost predicate Inserts(distFn: (Vec, Vec) -> real, g: GraphState, h: GraphState, deleted: set<nat>, id: nat,
                          vector: Vec, level: nat, width: int, m: nat)
  {
    && h.vecs == g.vecs + [vector]
    && h.entry == (if g.entry < 0 || level > g.top then |g.nodes| else g.entry)
    && h.top == (if g.entry < 0 || level > g.top then level else g.top)
    && exists trail, links ::
         Grown(Space(distFn, h.vecs), g.nodes, h.nodes, deleted, id, vector, level, g.entry, g.top, width, m, trail,
               links)
  }

  lemma {:induction false} WovenSkeleton(s: Space, a: seq<Node>, b: seq<Node>, q: nat, vector: Vec, width: int, m: nat,
                                         start: nat, lower: nat, links: seq<Link>)
    requires Woven(s, a, b, q, vector, width, m, start, lower, links)
    ensures SameSkeleton(a, b)
  {
  }

  /**
   Unless it is the first one, a new node has its closest candidate for a neighbour on every
   layer it was linked on.
   */
  lemma {:induction false} NewNodeHasEdges(s: Space, before: seq<Node>, after: seq<Node>, deleted: set<nat>, id: nat,
                                           vector: Vec, level: nat, entry: int, top: int, width: int, m: nat,
                                           trail: seq<nat>, links: seq<Link>, layer: nat)
    requires Grown(s, before, after, deleted, id, vector, level, entry, top, width, m, trail, links)
    requires entry >= 0 && m > 0 && layer <= level && layer <= top
    ensures |after| == |before| + 1 && links[layer].candidates != []
    ensures |LayerFriends(after[|before|], layer)| > 0
    ensures LayerFriends(after[|before|], layer)[0] == links[layer].candidates[0].id
  {
    var a, link := before + [Node(id, level, NoFriends(level))], links[layer];
    hide Descent, BeamResult, Chosen, BackLinked, LayerFriends;
    assert WovenAt(s, a, after, |before|, vector, width, m, 0 + layer, link,
                   EntryBelow(trail[|trail| - 1], links, layer + 1));
    ChosenNotEmpty(s, link.candidates, link.picks, link.neighbors, if layer == 0 then 2 * m else m);
  }
}
