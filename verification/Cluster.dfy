/** The mutable hash ring and the migration planner that works on it. */
module Cluster {
  import opened Common
  import opened HashRing
  import opened Routing

  class Ring {
    const config: Config
    var ring: seq<nat>
    var nodeMap: map<nat, NodeId>
    var nodes: set<NodeId>

    ghost function State(): RingState
      reads this
    {
      RingState(ring, nodeMap, nodes)
    }

    ghost predicate Valid()
      reads this
    {
      Sorted(ring)
    }

    constructor (vnodes: nat, hashKey: string -> nat)
      ensures Valid() && State() == EMPTY_RING
      ensures config == Config(if vnodes == 0 then 150 else vnodes, hashKey)
    {
      config := Config(if vnodes == 0 then 150 else vnodes, hashKey);
      ring, nodeMap, nodes := [], map[], {};
    }

    /** Adds the virtual nodes of a new node, skipping positions another node owns, and sorts. */
    method AddNode(nodeID: NodeId)
      requires Valid()
      modifies this
      ensures Valid() && State() == Added(config, old(State()), nodeID)
    {
      if nodeID in nodes {
        return;
      }
      nodes := nodes + {nodeID};
      for i := 0 to config.vnodes
        invariant nodes == old(nodes) + {nodeID}
        invariant RingState(ring, nodeMap, old(nodes)) == WithVnodes(config, old(State()), nodeID, i)
      {
        var p := config.Pos(nodeID, i);
        if p in nodeMap && nodeMap[p] != nodeID {
          continue;
        }
        ring := ring + [p];
        nodeMap := nodeMap[p := nodeID];
      }
      SortSorted(ring);
      ring := Sort(ring);
    }

    /** Removes a node; panics when fewer positions are left than a node has virtual nodes. */
    method RemoveNode(nodeID: NodeId) returns (panicked: bool)
      requires Valid()
      modifies this
      ensures Valid()
      ensures panicked <==> Removed(config, old(State()), nodeID).None?
      ensures !panicked ==> Some(State()) == Removed(config, old(State()), nodeID)
      ensures panicked ==> ring == old(ring) && nodeMap == old(nodeMap) && nodes == old(nodes) - {nodeID}
    {
      if nodeID !in nodes {
        return false;
      }
      nodes := nodes - {nodeID};
      if |ring| < config.vnodes {
        return true;
      }
      var newRing: seq<nat> := [];
      for i := 0 to |ring|
        invariant ring == old(ring) && nodes == old(nodes) - {nodeID}
        invariant RingState(newRing, nodeMap, nodes) == Swept(old(State()), nodeID, i)
      {
        if Owner(nodeMap, ring[i]) != nodeID {
          newRing := newRing + [ring[i]];
        } else {
          nodeMap := nodeMap - {ring[i]};
        }
      }
      SweptSorted(old(State()), nodeID, |ring|);
      ring := newRing;
      panicked := false;
    }

    /** Binary search for the first position at or above the hash. */
    method Search(h: nat) returns (idx: nat)
      requires Valid()
      ensures idx == Below(ring, h)
    {
      var lo, hi := 0, |ring|;
      while lo < hi
        invariant 0 <= lo <= hi <= |ring|
        invariant forall i :: 0 <= i < lo ==> ring[i] < h
        invariant forall i :: hi <= i < |ring| ==> ring[i] >= h
      {
        var mid := (lo + hi) / 2;
        if ring[mid] >= h {
          hi := mid;
        } else {
          lo := mid + 1;
        }
      }
      BelowUnique(ring, h, lo);
      idx := lo;
    }

    method GetNode(key: string) returns (node: NodeId)
      requires Valid()
      ensures node == Primary(State(), config.hashKey(key))
    {
      if |ring| == 0 {
        return "";
      }
      var idx := Search(config.hashKey(key));
      if idx >= |ring| {
        idx := 0;
      }
      node := Owner(nodeMap, ring[idx]);
    }

    /** The first n distinct nodes of the clockwise walk. */
    method GetNodes(key: string, n: int) returns (result: seq<NodeId>)
      requires Valid()
      ensures result == Replicas(State(), config.hashKey(key), n)
    {
      result := [];
      if |ring| == 0 || n <= 0 {
        return;
      }
      var h := config.hashKey(key);
      var idx := Search(h);
      if idx >= |ring| {
        idx := 0;
      }
      result := Walk(h, idx, n);
    }

    /** Collects distinct owners clockwise from index idx until n are found or the ring is exhausted. */
    method Walk(h: nat, idx: nat, n: int) returns (result: seq<NodeId>)
      requires Valid() && |ring| > 0 && n > 0 && idx == (if Below(ring, h) < |ring| then Below(ring, h) else 0)
      ensures result == Replicas(State(), h, n)
    {
      hide Below, Clockwise, Owner;
      WalkLength(h);
      ghost var owners := Owners(Clockwise(ring, h), nodeMap);
      result := [];
      var seen: set<NodeId> := {};
      var i := 0;
      while i < |ring| && |result| < n
        invariant 0 <= i <= |ring| && |result| <= n
        invariant result == Dedup(owners[..i])
        invariant forall x :: x in seen <==> x in result
      {
        var pos := (idx + i) % |ring|;
        WalkIndex(h, idx, i);
        var nodeID := Owner(nodeMap, ring[pos]);
        assert owners[..i + 1][..i] == owners[..i] && owners[..i + 1][i] == nodeID;
        if nodeID !in seen {
          seen := seen + {nodeID};
          result := result + [nodeID];
        }
        i := i + 1;
      }
      DedupPrefix(owners, i);
      assert owners[..|owners|] == owners;
    }

    lemma {:induction false} WalkLength(h: nat)
      ensures |Clockwise(ring, h)| == |ring|
    {
    }

    lemma {:induction false} WalkIndex(h: nat, idx: nat, i: nat)
      requires i < |ring| && idx == (if Below(ring, h) < |ring| then Below(ring, h) else 0)
      ensures Clockwise(ring, h)[i] == ring[(idx + i) % |ring|]
    {
      ModOnce(idx + i, |ring|);
    }
  }

  lemma {:induction false} ModOnce(a: nat, n: nat)
    requires 0 < n && a < 2 * n
    ensures a % n == if a < n then a else a - n
  {
    if a >= n {
      assert a == n + (a - n);
    }
  }

  lemma {:induction false} SweptSorted(st: RingState, node: NodeId, n: nat)
    requires Sorted(st.ring) && n <= |st.ring|
    ensures Sorted(Swept(st, node, n).ring)
    ensures forall p :: p in Swept(st, node, n).ring ==> p in st.ring[..n]
  {
    if n > 0 {
      SweptSorted(st, node, n - 1);
      assert st.ring[..n] == st.ring[..n - 1] + [st.ring[n - 1]];
      var r := Swept(st, node, n - 1).ring;
      forall i | 0 <= i < |r| ensures r[i] <= st.ring[n - 1] {
        assert r[i] in st.ring[..n - 1];
      }
    }
  }

  lemma {:induction false} DedupPrefix(s: seq<NodeId>, i: nat)
    requires i <= |s|
    ensures Dedup(s[..i]) <= Dedup(s)
  {
    if i < |s| {
      var n := |s| - 1;
      assert s[..n][..i] == s[..i];
      DedupPrefix(s[..n], i);
    } else {
      assert s[..i] == s;
    }
  }

  // ---------------------------------------------------------------- migration planning

  datatype Plan = Plan(collection: string, source: NodeId, target: NodeId)

  /** The collections the dead node was primary for and that have a new primary once it is gone, in order. */
  ghost function Moves(c: Config, before: RingState, after: RingState, dead: NodeId,
                       collections: seq<string>): seq<Plan> {
    if collections == [] then []
    else
      var n := |collections| - 1;
      var h := c.hashKey(collections[n]);
      Moves(c, before, after, dead, collections[..n])
      + if Primary(before, h) == dead && Primary(after, h) != "" then
        [Plan(collections[n], dead, Primary(after, h))] else []
  }

  /** Phase 1: which collections the node is primary for. */
  method OwnedBy(ring: Ring, node: NodeId, collections: seq<string>) returns (owned: set<string>)
    requires ring.Valid()
    ensures forall x :: x in owned <==> x in collections && Primary(ring.State(), ring.config.hashKey(x)) == node
  {
    owned := {};
    for i := 0 to |collections|
      invariant forall x :: x in owned <==>
                  x in collections[..i] && Primary(ring.State(), ring.config.hashKey(x)) == node
    {
      hide Primary;
      assert collections[..i + 1] == collections[..i] + [collections[i]];
      var primary := ring.GetNode(collections[i]);
      if primary == node {
        owned := owned + {collections[i]};
      }
    }
    assert collections[..|collections|] == collections;
  }

  /** Phase 3: one plan per owned collection that has a new primary. */
  method PlanMoves(ring: Ring, dead: NodeId, collections: seq<string>, owned: set<string>, ghost before: RingState)
    returns (plans: seq<Plan>)
    requires ring.Valid()
    requires forall x :: x in owned <==> x in collections && Primary(before, ring.config.hashKey(x)) == dead
    ensures plans == Moves(ring.config, before, ring.State(), dead, collections)
  {
    plans := [];
    for i := 0 to |collections|
      invariant plans == Moves(ring.config, before, ring.State(), dead, collections[..i])
    {
      hide Primary;
      assert collections[..i + 1][..i] == collections[..i];
      if collections[i] in owned {
        var newPrimary := ring.GetNode(collections[i]);
        if newPrimary == "" {
          continue;
        }
        plans := plans + [Plan(collections[i], dead, newPrimary)];
      }
    }
    assert collections[..|collections|] == collections;
  }

  /** Plans the migrations caused by a node's death and removes it from the ring. */
  method TriggerOnNodeRemoval(ring: Ring, dead: NodeId, collections: seq<string>)
    returns (panicked: bool, plans: seq<Plan>)
    requires ring.Valid()
    modifies ring
    ensures ring.Valid()
    ensures dead == "" ==> !panicked && plans == [] && ring.State() == old(ring.State())
    ensures panicked ==> plans == []
    ensures dead != "" ==> (panicked <==> Removed(ring.config, old(ring.State()), dead).None?)
    ensures dead != "" && !panicked ==>
              && Some(ring.State()) == Removed(ring.config, old(ring.State()), dead)
              && plans == Moves(ring.config, old(ring.State()), ring.State(), dead, collections)
  {
    if dead == "" {
      return false, [];
    }
    var owned := OwnedBy(ring, dead, collections);
    panicked := ring.RemoveNode(dead);
    if panicked {
      return panicked, [];
    }
    plans := PlanMoves(ring, dead, collections, owned, old(ring.State()));
  }

  /** The collections whose primary is the dead node and that have a second replica: each moves there, in order. */
  ghost function Handovers(c: Config, st: RingState, dead: NodeId, collections: seq<string>): seq<Plan> {
    if collections == [] then []
    else
      var n := |collections| - 1;
      var two := Replicas(st, c.hashKey(collections[n]), 2);
      Handovers(c, st, dead, collections[..n])
      + if |two| == 2 && two[0] == dead && two[1] != "" then [Plan(collections[n], dead, two[1])] else []
  }

  /** Without collisions the plans are exactly the handovers to former first replicas. */
  lemma {:induction false} PlansAreHandovers(c: Config, st: RingState, dead: NodeId, collections: seq<string>)
    requires Canonical(c, st) && CollisionFree(c, st.nodes) && dead != ""
    ensures Removed(c, st, dead).Some?
    ensures Moves(c, st, Removed(c, st, dead).value, dead, collections) == Handovers(c, st, dead, collections)
  {
    RemovedCanonical(c, st, dead);
    if collections != [] {
      var n := |collections| - 1;
      PlansAreHandovers(c, st, dead, collections[..n]);
      PlannedMove(c, st, dead, c.hashKey(collections[n]));
    }
  }

  lemma {:induction false} PlannedMove(c: Config, st: RingState, dead: NodeId, h: nat)
    requires Canonical(c, st) && CollisionFree(c, st.nodes) && dead != ""
    ensures Removed(c, st, dead).Some?
    ensures var two := Replicas(st, h, 2);
            var target := Primary(Removed(c, st, dead).value, h);
            && (Primary(st, h) == dead && target != "" <==> |two| == 2 && two[0] == dead && two[1] != "")
            && (Primary(st, h) == dead && target != "" ==> target == two[1])
  {
    OnlyItsKeysMove(c, st, dead, h);
    PrimaryIsFirst(st, h);
  }
}
