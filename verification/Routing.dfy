/** Which nodes serve a key: the walk around the ring, and what a removal does to it. */
module Routing {
  import opened Common
  import opened HashRing

  /** The number of positions below h: where the clockwise walk starts. */
  ghost function Below(ring: seq<nat>, h: nat): (k: nat)
    ensures k <= |ring|
  {
    if ring == [] then 0 else Below(ring[..|ring| - 1], h) + if ring[|ring| - 1] < h then 1 else 0
  }

  lemma {:induction false} BelowSplits(ring: seq<nat>, h: nat)
    requires Sorted(ring)
    ensures forall i :: 0 <= i < |ring| ==> (ring[i] < h <==> i < Below(ring, h))
  {
    if ring != [] {
      var n := |ring| - 1;
      BelowSplits(ring[..n], h);
      forall i | 0 <= i < |ring| ensures ring[i] < h <==> i < Below(ring, h) {
        if i < n {
          assert ring[..n][i] == ring[i];
        } else {
          assert ring[n] < h && n > 0 ==> ring[..n][n - 1] < h;
        }
      }
    }
  }

  /** A split point of a sorted ring is the walk's start. */
  lemma {:induction false} BelowUnique(ring: seq<nat>, h: nat, k: nat)
    requires Sorted(ring) && k <= |ring|
    requires forall i :: 0 <= i < |ring| ==> (ring[i] < h <==> i < k)
    ensures Below(ring, h) == k
  {
    BelowSplits(ring, h);
    var b := Below(ring, h);
    assert b < |ring| ==> (ring[b] < h <==> b < k);
    assert k < |ring| ==> (ring[k] < h <==> k < b);
  }

  /** The positions in the order the walk from h visits them. */
  ghost function Clockwise(ring: seq<nat>, h: nat): seq<nat> {
    ring[Below(ring, h)..] + ring[..Below(ring, h)]
  }

  ghost function Owners(ring: seq<nat>, nodeMap: map<nat, NodeId>): (o: seq<NodeId>)
    ensures |o| == |ring|
  {
    seq(|ring|, i requires 0 <= i < |ring| => Owner(nodeMap, ring[i]))
  }

  /** Keeps the first occurrence of each element. */
  function Dedup(s: seq<NodeId>): seq<NodeId> {
    if s == [] then []
    else
      var d := Dedup(s[..|s| - 1]);
      if s[|s| - 1] in d then d else d + [s[|s| - 1]]
  }

  function Take(s: seq<NodeId>, n: int): seq<NodeId> {
    if n <= 0 then [] else if n < |s| then s[..n] else s
  }

  function StrikeOut(s: seq<NodeId>, x: NodeId): seq<NodeId> {
    if s == [] then []
    else StrikeOut(s[..|s| - 1], x) + if s[|s| - 1] == x then [] else [s[|s| - 1]]
  }

  /** All distinct nodes in walk order. */
  ghost function Preference(st: RingState, h: nat): seq<NodeId> {
    Dedup(Owners(Clockwise(st.ring, h), st.nodeMap))
  }

  ghost function Replicas(st: RingState, h: nat, n: int): seq<NodeId> {
    Take(Preference(st, h), n)
  }

  ghost function Primary(st: RingState, h: nat): NodeId {
    if st.ring == [] then "" else Owner(st.nodeMap, Clockwise(st.ring, h)[0])
  }

  // ---------------------------------------------------------------- sequences

  lemma {:induction false} StrikeOutConcat(s: seq<NodeId>, t: seq<NodeId>, x: NodeId)
    ensures StrikeOut(s + t, x) == StrikeOut(s, x) + StrikeOut(t, x)
  {
    if t == [] {
      assert s + t == s;
    } else {
      var n := |t| - 1;
      assert (s + t)[..|s + t| - 1] == s + t[..n];
      StrikeOutConcat(s, t[..n], x);
    }
  }

  lemma {:induction false} StrikeOutMembers(s: seq<NodeId>, x: NodeId)
    ensures forall y :: y in StrikeOut(s, x) <==> y in s && y != x
    ensures x !in s ==> StrikeOut(s, x) == s
  {
    if s != [] {
      var n := |s| - 1;
      StrikeOutMembers(s[..n], x);
      assert s == s[..n] + [s[n]];
    }
  }

  lemma {:induction false} DedupStrikeOut(s: seq<NodeId>, x: NodeId)
    ensures Dedup(StrikeOut(s, x)) == StrikeOut(Dedup(s), x)
  {
    if s != [] {
      var n := |s| - 1;
      DedupStrikeOut(s[..n], x);
      var d := Dedup(s[..n]);
      StrikeOutMembers(d, x);
      if s[n] == x {
        assert StrikeOut(s, x) == StrikeOut(s[..n], x);
        if s[n] !in d {
          StrikeOutConcat(d, [x], x);
          assert StrikeOut([x], x) == [] by { assert [x][..0] == []; }
        }
      } else {
        var t := StrikeOut(s[..n], x);
        assert (t + [s[n]])[..|t|] == t;
        StrikeOutConcat(d, [s[n]], x);
        assert StrikeOut([s[n]], x) == [s[n]] by { assert [s[n]][..0] == []; }
      }
    }
  }

  lemma {:induction false} DedupOk(s: seq<NodeId>)
    ensures NoRepeats(Dedup(s)) && forall y :: y in Dedup(s) <==> y in s
  {
    if s != [] {
      var n := |s| - 1;
      DedupOk(s[..n]);
      assert s == s[..n] + [s[n]];
    }
  }

  lemma {:induction false} StrikeOutLength(s: seq<NodeId>, x: NodeId)
    requires NoRepeats(s)
    ensures |StrikeOut(s, x)| >= |s| - 1
    ensures x !in s ==> |StrikeOut(s, x)| == |s|
  {
    if s != [] {
      var n := |s| - 1;
      StrikeOutLength(s[..n], x);
    }
  }

  /** Striking one node from a repetition-free list: n survivors need only the first n + 1 entries. */
  lemma {:induction false} TakeStrikeOut(d: seq<NodeId>, x: NodeId, n: int)
    requires NoRepeats(d)
    ensures Take(StrikeOut(d, x), n) == Take(StrikeOut(Take(d, n + 1), x), n)
  {
    if 0 <= n && n + 1 < |d| {
      var a, b := d[..n + 1], d[n + 1..];
      assert d == a + b;
      StrikeOutConcat(a, b, x);
      StrikeOutLength(a, x);
    }
  }

  // ---------------------------------------------------------------- removal

  lemma {:induction false} OwnersKeep(ring: seq<nat>, nodeMap: map<nat, NodeId>, x: NodeId)
    ensures Owners(Keep(ring, nodeMap, x), nodeMap) == StrikeOut(Owners(ring, nodeMap), x)
  {
    if ring != [] {
      var n := |ring| - 1;
      OwnersKeep(ring[..n], nodeMap, x);
      var o := Owners(ring, nodeMap);
      assert o[..n] == Owners(ring[..n], nodeMap);
      assert o[n] == Owner(nodeMap, ring[n]);
    }
  }

  lemma {:induction false} KeepConcat(s: seq<nat>, t: seq<nat>, nodeMap: map<nat, NodeId>, x: NodeId)
    ensures Keep(s + t, nodeMap, x) == Keep(s, nodeMap, x) + Keep(t, nodeMap, x)
  {
    if t == [] {
      assert s + t == s;
    } else {
      var n := |t| - 1;
      assert (s + t)[..|s + t| - 1] == s + t[..n];
      KeepConcat(s, t[..n], nodeMap, x);
    }
  }

  /** Filtering commutes with the rotation to the walk's start. */
  lemma {:induction false} ClockwiseKeep(ring: seq<nat>, nodeMap: map<nat, NodeId>, x: NodeId, h: nat)
    requires StrictlySorted(ring)
    ensures Clockwise(Keep(ring, nodeMap, x), h) == Keep(Clockwise(ring, h), nodeMap, x)
  {
    hide Keep, Below;
    var k := Below(ring, h);
    var lo, hi := ring[..k], ring[k..];
    assert ring == lo + hi;
    BelowSplits(ring, h);
    KeepConcat(lo, hi, nodeMap, x);
    KeepConcat(hi, lo, nodeMap, x);
    var klo, khi := Keep(lo, nodeMap, x), Keep(hi, nodeMap, x);
    KeepMembers(ring, nodeMap, x);
    KeptBelow(lo, nodeMap, x, h);
    KeptAbove(hi, nodeMap, x, h);
    BelowUnique(klo + khi, h, |klo|);
    assert (klo + khi)[|klo|..] == khi && (klo + khi)[..|klo|] == klo;
  }

  lemma {:induction false} KeptBelow(lo: seq<nat>, nodeMap: map<nat, NodeId>, x: NodeId, h: nat)
    requires StrictlySorted(lo) && forall i :: 0 <= i < |lo| ==> lo[i] < h
    ensures var k := Keep(lo, nodeMap, x); forall i :: 0 <= i < |k| ==> k[i] < h
  {
    hide Keep;
    KeepMembers(lo, nodeMap, x);
    var k := Keep(lo, nodeMap, x);
    forall i | 0 <= i < |k| ensures k[i] < h {
      assert k[i] in lo;
    }
  }

  lemma {:induction false} KeptAbove(hi: seq<nat>, nodeMap: map<nat, NodeId>, x: NodeId, h: nat)
    requires StrictlySorted(hi) && forall i :: 0 <= i < |hi| ==> hi[i] >= h
    ensures var k := Keep(hi, nodeMap, x); forall i :: 0 <= i < |k| ==> k[i] >= h
  {
    hide Keep;
    KeepMembers(hi, nodeMap, x);
    var k := Keep(hi, nodeMap, x);
    forall i | 0 <= i < |k| ensures k[i] >= h {
      assert k[i] in hi;
    }
  }

  /** Two owner maps that agree on the ring give the same owners. */
  lemma {:induction false} OwnersAgree(ring: seq<nat>, m: map<nat, NodeId>, m': map<nat, NodeId>)
    requires forall p :: p in ring ==> p in m && p in m' && m[p] == m'[p]
    ensures Owners(ring, m) == Owners(ring, m')
  {
  }

  /** After removing a node the preference list of every key is the old one with the node struck out. */
  lemma {:induction false} RemovalStrikesOut(c: Config, st: RingState, x: NodeId, h: nat)
    requires Canonical(c, st) && CollisionFree(c, st.nodes)
    ensures Removed(c, st, x).Some?
    ensures Preference(Removed(c, st, x).value, h) == StrikeOut(Preference(st, h), x)
  {
    RemovedCanonical(c, st, x);
    hide CollisionFree, Config.Pos, Swept, Below;
    var walk := Clockwise(st.ring, h);
    if x in st.nodes {
      SweptCanonical(c, st, x);
      var r := Removed(c, st, x).value;
      ClockwiseKeep(st.ring, st.nodeMap, x, h);
      WalkMembers(r.ring, h);
      OwnersAgree(Clockwise(r.ring, h), r.nodeMap, st.nodeMap);
      OwnersKeep(walk, st.nodeMap, x);
      DedupStrikeOut(Owners(walk, st.nodeMap), x);
    } else {
      NonMemberNotPreferred(c, st, x, h);
      StrikeOutMembers(Preference(st, h), x);
    }
  }

  lemma {:induction false} WalkMembers(ring: seq<nat>, h: nat)
    ensures forall p :: p in Clockwise(ring, h) <==> p in ring
  {
    var k := Below(ring, h);
    assert ring == ring[..k] + ring[k..];
  }

  lemma {:induction false} NonMemberNotPreferred(c: Config, st: RingState, x: NodeId, h: nat)
    requires Canonical(c, st) && x !in st.nodes
    ensures x !in Preference(st, h)
  {
    var walk := Clockwise(st.ring, h);
    WalkMembers(st.ring, h);
    DedupOk(Owners(walk, st.nodeMap));
    forall i | 0 <= i < |walk| ensures Owner(st.nodeMap, walk[i]) != x {
      assert walk[i] in st.ring;
    }
  }

  /** GetNodes after RemoveNode(x) is the first n of GetNodes(n + 1) before it, with x struck out. */
  lemma {:induction false} ReplicasAfterRemoval(c: Config, st: RingState, x: NodeId, h: nat, n: int)
    requires Canonical(c, st) && CollisionFree(c, st.nodes)
    ensures Removed(c, st, x).Some?
    ensures Replicas(Removed(c, st, x).value, h, n) == Take(StrikeOut(Replicas(st, h, n + 1), x), n)
  {
    RemovalStrikesOut(c, st, x, h);
    DedupOk(Owners(Clockwise(st.ring, h), st.nodeMap));
    TakeStrikeOut(Preference(st, h), x, n);
  }

  lemma {:induction false} DedupFirst(s: seq<NodeId>)
    requires s != []
    ensures Dedup(s) != [] && Dedup(s)[0] == s[0]
  {
    if |s| > 1 {
      DedupFirst(s[..|s| - 1]);
    }
  }

  lemma {:induction false} PrimaryIsFirst(st: RingState, h: nat)
    ensures st.ring != [] ==> Preference(st, h) != [] && Primary(st, h) == Preference(st, h)[0]
    ensures st.ring == [] ==> Preference(st, h) == [] && Primary(st, h) == ""
  {
    if st.ring != [] {
      var o := Owners(Clockwise(st.ring, h), st.nodeMap);
      DedupFirst(o);
    }
  }

  /** Only keys of the removed node move, each to its former first replica. */
  lemma {:induction false} OnlyItsKeysMove(c: Config, st: RingState, x: NodeId, h: nat)
    requires Canonical(c, st) && CollisionFree(c, st.nodes)
    ensures Removed(c, st, x).Some?
    ensures var after := Primary(Removed(c, st, x).value, h);
            var two := Replicas(st, h, 2);
            && (st.ring != [] && Primary(st, h) != x ==> after == Primary(st, h))
            && (st.ring != [] && Primary(st, h) == x ==> after == if |two| == 2 then two[1] else "")
  {
    RemovalStrikesOut(c, st, x, h);
    ReplicasAfterRemoval(c, st, x, h, 1);
    hide Canonical, CollisionFree, Config.Pos, Removed, Primary, Preference, Replicas, Take, StrikeOut, NoRepeats;
    var r := Removed(c, st, x).value;
    FirstReplicas(st, h);
    FirstReplicas(r, h);
    if st.ring != [] {
      StrikePair(Replicas(st, h, 2), x);
    }
  }

  lemma {:induction false} FirstReplicas(st: RingState, h: nat)
    ensures Replicas(st, h, 1) == if st.ring == [] then [] else [Primary(st, h)]
    ensures st.ring == [] ==> Primary(st, h) == ""
    ensures var two := Replicas(st, h, 2);
            st.ring != [] ==> 1 <= |two| <= 2 && NoRepeats(two) && two[0] == Primary(st, h)
  {
    PrimaryIsFirst(st, h);
    DedupOk(Owners(Clockwise(st.ring, h), st.nodeMap));
    hide Clockwise, Primary, Dedup;
  }

  lemma {:induction false} StrikePair(two: seq<NodeId>, x: NodeId)
    requires 1 <= |two| <= 2 && NoRepeats(two)
    ensures Take(StrikeOut(two, x), 1) == if two[0] != x then [two[0]] else two[1..]
  {
    var first := if two[0] == x then [] else [two[0]];
    StrikeOne(two[0], x);
    if |two| == 1 {
      assert two == [two[0]];
    } else {
      assert two[..1] == [two[0]];
      var second := if two[1] == x then [] else [two[1]];
      assert StrikeOut(two, x) == StrikeOut([two[0]], x) + second;
      hide StrikeOut;
      assert two[0] != two[1];
      assert two[1..] == [two[1]];
      if two[0] == x {
        assert [] + second == second;
      } else {
        assert ([two[0]] + second)[..1] == [two[0]];
        assert [two[0]] + [] == [two[0]];
      }
    }
  }

  lemma {:induction false} StrikeOne(y: NodeId, x: NodeId)
    ensures StrikeOut([y], x) == if y == x then [] else [y]
  {
    assert [y][..0] == [];
    assert StrikeOut([], x) == [];
  }

  /**
   On a canonical ring a key goes to the owner of the least position at or above its hash, else
   of the least of all.
   */
  lemma {:induction false} RoutesToSuccessor(c: Config, st: RingState, h: nat)
    requires Canonical(c, st) && st.ring != []
    ensures var p := Clockwise(st.ring, h)[0];
            && p in st.nodeMap && Primary(st, h) == st.nodeMap[p]
            && (p >= h ==> forall a, i: nat :: a in st.nodes && i < c.vnodes && c.Pos(a, i) >= h ==> p <= c.Pos(a, i))
            && (p < h ==> forall a, i: nat :: a in st.nodes && i < c.vnodes ==> p <= c.Pos(a, i) < h)
  {
    hide Config.Pos;
    var k := Below(st.ring, h);
    BelowSplits(st.ring, h);
    var p := Clockwise(st.ring, h)[0];
    assert p == if k < |st.ring| then st.ring[k] else st.ring[0];
    assert p in st.ring;
    forall q | q in st.ring ensures (p >= h && q >= h ==> p <= q) && (p < h ==> p <= q < h) {
      var i :| 0 <= i < |st.ring| && st.ring[i] == q;
    }
  }

  /** Equal memberships route every key to the same nodes, whatever calls led there. */
  lemma {:induction false} EqualMembershipsRouteAlike(c: Config, ops: seq<Op>, ops': seq<Op>, u: set<NodeId>)
    requires CollisionFree(c, u) && Over(ops, u) && Over(ops', u) && Members(ops) == Members(ops')
    ensures Run(c, ops).Some? && Run(c, ops) == Run(c, ops')
  {
    RunIsCanonical(c, ops, u);
    RunIsCanonical(c, ops', u);
    CanonicalUnique(c, Run(c, ops).value, Run(c, ops').value);
  }
}
