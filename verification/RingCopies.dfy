/**
 Rings on which the virtual nodes of one node may coincide. Only the empty node id can be
 removed from such a ring completely: a forgotten owner reads as the empty string, so the
 sweep drops the further copies of a position as well.
 */
module RingCopies {
  import opened Common
  import opened HashRing

  /** No two nodes share a position, and only the empty id uses one twice. */
  ghost predicate OnlyEmptyRepeats(c: Config, u: set<NodeId>) {
    forall a, b, i: nat, j: nat :: a in u && b in u && i < c.vnodes && j < c.vnodes && c.Pos(a, i) == c.Pos(b, j) ==>
      a == b && (i == j || a == "")
  }

  /** The positions of the first n virtual nodes, with multiplicities. */
  ghost function Copies(c: Config, node: NodeId, n: nat): multiset<nat> {
    if n == 0 then multiset{} else Copies(c, node, n - 1) + multiset{c.Pos(node, n - 1)}
  }

  ghost predicate Uses(c: Config, node: NodeId, n: nat, p: nat) {
    exists i: nat :: i < n && c.Pos(node, i) == p
  }

  /** Every member owns all its positions, and nobody else owns any. */
  ghost predicate OwnersOk(c: Config, st: RingState) {
    && (forall p :: p in st.nodeMap ==> st.nodeMap[p] in st.nodes && Uses(c, st.nodeMap[p], c.vnodes, p))
    && forall a, p :: a in st.nodes && Uses(c, a, c.vnodes, p) ==> p in st.nodeMap && st.nodeMap[p] == a
  }

  /** Each owned position is on the ring once for every virtual node there. */
  ghost predicate CountsOk(c: Config, st: RingState) {
    forall p: nat :: multiset(st.ring)[p] == if p in st.nodeMap then Copies(c, st.nodeMap[p], c.vnodes)[p] else 0
  }

  ghost predicate Tidy(c: Config, st: RingState) {
    Sorted(st.ring) && OwnersOk(c, st) && CountsOk(c, st)
  }

  // ---------------------------------------------------------------- multiplicities

  lemma {:induction false} CopiesUsed(c: Config, node: NodeId, n: nat)
    ensures forall p: nat :: Copies(c, node, n)[p] > 0 <==> Uses(c, node, n, p)
    ensures |Copies(c, node, n)| == n
  {
    hide Config.Pos;
    if n > 0 {
      CopiesUsed(c, node, n - 1);
      forall p: nat ensures Uses(c, node, n, p) <==> Uses(c, node, n - 1, p) || p == c.Pos(node, n - 1) {
        if Uses(c, node, n, p) {
          var i: nat :| i < n && c.Pos(node, i) == p;
        }
      }
    }
  }

  lemma {:induction false} CopiedOnce(c: Config, node: NodeId, n: nat, p: nat)
    requires forall i: nat, j: nat :: i < n && j < n && c.Pos(node, i) == c.Pos(node, j) ==> i == j
    ensures Copies(c, node, n)[p] <= 1
  {
    hide Config.Pos;
    if n > 0 {
      CopiedOnce(c, node, n - 1, p);
      CopiesUsed(c, node, n - 1);
    }
  }

  lemma {:induction false} SortedButLast(s: seq<nat>)
    requires Sorted(s) && s != []
    ensures Sorted(s[..|s| - 1]) && multiset(s) == multiset(s[..|s| - 1]) + multiset{s[|s| - 1]}
    ensures forall x :: x in multiset(s) ==> x <= s[|s| - 1]
  {
    assert s == s[..|s| - 1] + [s[|s| - 1]];
  }

  lemma {:induction false} Cancel(a: multiset<nat>, b: multiset<nat>, x: nat)
    requires a + multiset{x} == b + multiset{x}
    ensures a == b
  {
    forall y: nat ensures a[y] == b[y] {
      assert (a + multiset{x})[y] == (b + multiset{x})[y];
    }
  }

  lemma {:induction false} LastsAgree(s: seq<nat>, t: seq<nat>)
    requires Sorted(s) && Sorted(t) && multiset(s) == multiset(t) && s != [] && t != []
    ensures s[|s| - 1] == t[|t| - 1] && multiset(s[..|s| - 1]) == multiset(t[..|t| - 1])
  {
    SortedButLast(s);
    SortedButLast(t);
    hide Sorted;
    assert s[|s| - 1] in multiset(s) && t[|t| - 1] in multiset(t);
    Cancel(multiset(s[..|s| - 1]), multiset(t[..|t| - 1]), s[|s| - 1]);
  }

  lemma {:induction false} SortedUnique(s: seq<nat>, t: seq<nat>)
    requires Sorted(s) && Sorted(t) && multiset(s) == multiset(t)
    ensures s == t
  {
    assert |multiset(s)| == |s| && |multiset(t)| == |t|;
    if s != [] {
      LastsAgree(s, t);
      SortedUnique(s[..|s| - 1], t[..|t| - 1]);
      assert s == s[..|s| - 1] + [s[|s| - 1]] && t == t[..|t| - 1] + [t[|t| - 1]];
    }
  }

  /** Membership determines a tidy ring. */
  lemma {:induction false} TidyUnique(c: Config, s: RingState, t: RingState)
    requires Tidy(c, s) && Tidy(c, t) && s.nodes == t.nodes
    ensures s == t
  {
    hide Config.Pos, Uses, Sorted, Copies;
    assert s.nodeMap == t.nodeMap;
    assert multiset(s.ring) == multiset(t.ring);
    SortedUnique(s.ring, t.ring);
  }

  // ---------------------------------------------------------------- adding

  /** all is st with the first n virtual nodes of the node appended. */
  ghost predicate CopiesAdded(c: Config, st: RingState, all: RingState, node: NodeId, n: nat) {
    && multiset(all.ring) == multiset(st.ring) + Copies(c, node, n)
    && (forall p :: p in all.nodeMap <==> p in st.nodeMap || Uses(c, node, n, p))
    && (forall p :: p in all.nodeMap ==> all.nodeMap[p] == if p in st.nodeMap then st.nodeMap[p] else node)
  }

  lemma {:induction false} OneMoreUsed(c: Config, node: NodeId, n: nat)
    ensures forall p: nat :: Uses(c, node, n + 1, p) <==> Uses(c, node, n, p) || p == c.Pos(node, n)
  {
    hide Config.Pos;
    forall p: nat ensures Uses(c, node, n + 1, p) <==> Uses(c, node, n, p) || p == c.Pos(node, n) {
      if Uses(c, node, n + 1, p) {
        var i: nat :| i < n + 1 && c.Pos(node, i) == p;
      }
    }
  }

  lemma {:induction false} AddsCopies(c: Config, st: RingState, node: NodeId, n: nat)
    requires forall p: nat :: Uses(c, node, n, p) ==> p !in st.nodeMap
    ensures CopiesAdded(c, st, WithVnodes(c, st, node, n), node, n)
  {
    hide *;
    if n == 0 {
      NoCopies(c, st, node);
    } else {
      OneMoreUsed(c, node, n - 1);
      AddsCopies(c, st, node, n - 1);
      CopyAppended(c, st, WithVnodes(c, st, node, n - 1), node, n - 1);
      OneMoreVnode(c, st, node, n - 1);
    }
  }

  lemma {:induction false} NoCopies(c: Config, st: RingState, node: NodeId)
    ensures CopiesAdded(c, st, WithVnodes(c, st, node, 0), node, 0)
  {
    assert forall p: nat :: !Uses(c, node, 0, p);
  }

  lemma {:induction false} OneMoreVnode(c: Config, st: RingState, node: NodeId, n: nat)
    ensures var all, p := WithVnodes(c, st, node, n), c.Pos(node, n);
            (p in all.nodeMap ==> all.nodeMap[p] == node) ==>
              WithVnodes(c, st, node, n + 1) == all.(ring := all.ring + [p], nodeMap := all.nodeMap[p := node])
  {
    hide Config.Pos;
  }

  lemma {:induction false} CopyAppended(c: Config, st: RingState, all: RingState, node: NodeId, n: nat)
    requires CopiesAdded(c, st, all, node, n) && c.Pos(node, n) !in st.nodeMap
    ensures var p := c.Pos(node, n);
            && (p in all.nodeMap ==> all.nodeMap[p] == node)
            && CopiesAdded(c, st, all.(ring := all.ring + [p], nodeMap := all.nodeMap[p := node]), node, n + 1)
  {
    OneMoreUsed(c, node, n);
    hide Config.Pos, Uses;
  }

  lemma {:induction false} AddedTidy(c: Config, st: RingState, node: NodeId, u: set<NodeId>)
    requires Tidy(c, st) && OnlyEmptyRepeats(c, u) && st.nodes <= u && node in u
    ensures Tidy(c, Added(c, st, node)) && Added(c, st, node).nodes == st.nodes + {node}
  {
    if node !in st.nodes {
      PositionsFree(c, st, node, u);
      hide Config.Pos, Uses, Sorted, Sort, WithVnodes, OnlyEmptyRepeats, OwnersOk, CountsOk, CopiesAdded;
      var all := WithVnodes(c, st, node, c.vnodes);
      AddsCopies(c, st, node, c.vnodes);
      SortSorted(all.ring);
      AddedCounts(c, st, all, node, Added(c, st, node));
      AddedOwners(c, st, all, node, Added(c, st, node));
    }
  }

  lemma {:induction false} AddedCounts(c: Config, st: RingState, all: RingState, node: NodeId, r: RingState)
    requires CountsOk(c, st) && CopiesAdded(c, st, all, node, c.vnodes)
    requires forall p: nat :: Uses(c, node, c.vnodes, p) ==> p !in st.nodeMap
    requires multiset(r.ring) == multiset(all.ring) && r.nodeMap == all.nodeMap
    ensures CountsOk(c, r)
  {
    CopiesUsed(c, node, c.vnodes);
    hide Config.Pos, Uses, Copies;
  }

  lemma {:induction false} AddedOwners(c: Config, st: RingState, all: RingState, node: NodeId, r: RingState)
    requires OwnersOk(c, st) && CopiesAdded(c, st, all, node, c.vnodes)
    requires forall p: nat :: Uses(c, node, c.vnodes, p) ==> p !in st.nodeMap
    requires r.nodeMap == all.nodeMap && r.nodes == st.nodes + {node}
    ensures OwnersOk(c, r)
  {
    hide Config.Pos, Uses, Copies;
  }

  lemma {:induction false} PositionsFree(c: Config, st: RingState, node: NodeId, u: set<NodeId>)
    requires OwnersOk(c, st) && OnlyEmptyRepeats(c, u) && st.nodes <= u && node in u && node !in st.nodes
    ensures forall p: nat :: Uses(c, node, c.vnodes, p) ==> p !in st.nodeMap
  {
    hide Config.Pos;
    forall p | p in st.nodeMap ensures !Uses(c, node, c.vnodes, p) {
      assert Uses(c, st.nodeMap[p], c.vnodes, p);
    }
  }

  // ---------------------------------------------------------------- removing

  lemma {:induction false} KeepCounts(ring: seq<nat>, nodeMap: map<nat, NodeId>, node: NodeId)
    ensures forall p: nat :: multiset(Keep(ring, nodeMap, node))[p] == if Owner(nodeMap, p) != node then
              multiset(ring)[p] else 0
  {
    if ring != [] {
      var n := |ring| - 1;
      KeepCounts(ring[..n], nodeMap, node);
      assert ring == ring[..n] + [ring[n]];
    }
  }

  lemma {:induction false} KeepSorted(ring: seq<nat>, nodeMap: map<nat, NodeId>, node: NodeId)
    requires Sorted(ring)
    ensures Sorted(Keep(ring, nodeMap, node)) && forall p :: p in Keep(ring, nodeMap, node) ==> p in ring
  {
    if ring != [] {
      var n := |ring| - 1;
      KeepSorted(ring[..n], nodeMap, node);
      var k := Keep(ring[..n], nodeMap, node);
      forall i | 0 <= i < |k| ensures k[i] <= ring[n] {
        assert k[i] in ring[..n];
      }
    }
  }

  lemma {:induction false} RoomOnRing(c: Config, st: RingState, node: NodeId)
    requires Tidy(c, st) && node in st.nodes
    ensures |st.ring| >= c.vnodes
  {
    hide Config.Pos, Uses, Sorted, Copies;
    CopiesUsed(c, node, c.vnodes);
    var mine := Copies(c, node, c.vnodes);
    forall p: nat ensures mine[p] <= multiset(st.ring)[p] {
      if mine[p] > 0 {
        assert Uses(c, node, c.vnodes, p);
      }
    }
    var all: multiset<nat> := multiset(st.ring);
    assert all == mine + (all - mine) && |all| == |st.ring|;
  }

  lemma {:induction false} MemberOwnsOnce(c: Config, st: RingState, node: NodeId, u: set<NodeId>)
    requires Tidy(c, st) && OnlyEmptyRepeats(c, u) && node in u && node != ""
    ensures OwnedOnce(st, node)
  {
    hide Config.Pos, Uses, Sorted;
    forall i, j | 0 <= i < j < |st.ring| && st.ring[i] == st.ring[j] ensures Owner(st.nodeMap, st.ring[i]) != node {
      CountedTwice(st.ring, i, j);
      CopiedOnce(c, node, c.vnodes, st.ring[i]);
    }
  }

  lemma {:induction false} RemovedTidy(c: Config, st: RingState, node: NodeId, u: set<NodeId>)
    requires Tidy(c, st) && OnlyEmptyRepeats(c, u) && node in u
    ensures Removed(c, st, node).Some?
    ensures Tidy(c, Removed(c, st, node).value) && Removed(c, st, node).value.nodes == st.nodes - {node}
  {
    if node in st.nodes {
      RoomOnRing(c, st, node);
      if node != "" {
        MemberOwnsOnce(c, st, node, u);
      }
      AllOwned(c, st);
      hide *;
      SweptFilters(st, node, |st.ring|);
      FilteredTidy(c, st, node, Swept(st, node, |st.ring|));
      RemovedSwept(c, st, node);
    }
  }

  lemma {:induction false} RemovedSwept(c: Config, st: RingState, node: NodeId)
    requires node in st.nodes && |st.ring| >= c.vnodes
    ensures Removed(c, st, node) == Some(Swept(st, node, |st.ring|))
  {
  }

  lemma {:induction false} AllOwned(c: Config, st: RingState)
    requires Tidy(c, st)
    ensures forall p :: p in st.ring <==> p in st.nodeMap
  {
    hide Config.Pos, Sorted, Copies;
    forall p | p in st.nodeMap ensures p in st.ring {
      CopiesUsed(c, st.nodeMap[p], c.vnodes);
      assert p in multiset(st.ring);
    }
    forall p | p in st.ring ensures p in st.nodeMap {
      assert p in multiset(st.ring);
    }
  }

  lemma {:induction false} FilteredTidy(c: Config, st: RingState, node: NodeId, r: RingState)
    requires Tidy(c, st) && Filtered(st, node, |st.ring|, r)
    ensures Tidy(c, r) && r.nodes == st.nodes - {node}
  {
    AllOwned(c, st);
    assert st.ring[..|st.ring|] == st.ring;
    KeepCounts(st.ring, st.nodeMap, node);
    KeepSorted(st.ring, st.nodeMap, node);
    hide Config.Pos, Sorted, Keep, OwnersOk, CountsOk;
    FilteredCounts(c, st, node, r);
    FilteredOwners(c, st, node, r);
  }

  lemma {:induction false} FilteredCounts(c: Config, st: RingState, node: NodeId, r: RingState)
    requires CountsOk(c, st) && forall p :: p in st.ring <==> p in st.nodeMap
    requires forall p: nat :: multiset(r.ring)[p] == if Owner(st.nodeMap, p) != node then multiset(st.ring)[p] else 0
    requires forall p :: p in r.nodeMap <==> p in st.nodeMap && st.nodeMap[p] != node
    requires forall p :: p in r.nodeMap ==> r.nodeMap[p] == st.nodeMap[p]
    ensures CountsOk(c, r)
  {
    hide Config.Pos, Copies;
  }

  lemma {:induction false} FilteredOwners(c: Config, st: RingState, node: NodeId, r: RingState)
    requires OwnersOk(c, st) && r.nodes == st.nodes - {node}
    requires forall p :: p in r.nodeMap <==> p in st.nodeMap && st.nodeMap[p] != node
    requires forall p :: p in r.nodeMap ==> r.nodeMap[p] == st.nodeMap[p]
    ensures OwnersOk(c, r)
  {
    hide Config.Pos, Uses;
  }

  // ---------------------------------------------------------------- whole runs

  /** Every run leaves the tidy ring of its members, and no call panics. */
  lemma {:induction false} RunIsTidy(c: Config, ops: seq<Op>, u: set<NodeId>)
    requires Over(ops, u) && OnlyEmptyRepeats(c, u)
    ensures Run(c, ops).Some? && Tidy(c, Run(c, ops).value)
    ensures Run(c, ops).value.nodes == Members(ops) <= u
  {
    hide OnlyEmptyRepeats, Uses, Added, Removed;
    if ops != [] {
      var n := |ops| - 1;
      RunIsTidy(c, ops[..n], u);
      hide Tidy;
      var st := Run(c, ops[..n]).value;
      match ops[n]
      case Add(node) =>
        AddedTidy(c, st, node, u);
      case Remove(node) =>
        RemovedTidy(c, st, node, u);
    }
  }
}
