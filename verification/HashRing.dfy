/** The consistent hash ring with virtual nodes. */
module HashRing {
  import opened Common

  type NodeId = string

  /** Sorted positions, the owner of each position, and the member nodes. */
  datatype RingState = RingState(ring: seq<nat>, nodeMap: map<nat, NodeId>, nodes: set<NodeId>)

  const EMPTY_RING := RingState([], map[], {})

  /** A map lookup that, as in Go, yields the empty string for an absent position. */
  function Owner(nodeMap: map<nat, NodeId>, p: nat): NodeId {
    if p in nodeMap then nodeMap[p] else ""
  }

  /** The decimal numeral, without leading zeros. */
  function Digits(n: nat): (s: string)
    ensures s != [] && (s[0] == '0' ==> n == 0 && s == "0")
    ensures forall i :: 0 <= i < |s| ==> '0' <= s[i] <= '9'
  {
    if n < 10 then [Digit(n)] else Digits(n / 10) + [Digit(n % 10)]
  }

  function Digit(d: nat): (c: char)
    requires d < 10
    ensures c as int == '0' as int + d
  {
    '0' + d as char
  }

  /** The number a numeral stands for. */
  ghost function Value(s: string): int {
    if s == [] then 0 else 10 * Value(s[..|s| - 1]) + (s[|s| - 1] as int - '0' as int)
  }

  lemma {:induction false} DigitsValue(n: nat)
    ensures Value(Digits(n)) == n
  {
    if n >= 10 {
      DigitsValue(n / 10);
      assert Digits(n)[..|Digits(n)| - 1] == Digits(n / 10);
    } else {
      assert Digits(n)[..0] == [];
    }
  }

  /** The name of a virtual node determines the node and its number, whatever either contains. */
  lemma {:induction false} NamesAreDistinct(a: NodeId, i: nat, b: NodeId, j: nat)
    requires a + "#" + Digits(i) == b + "#" + Digits(j)
    ensures a == b && i == j
  {
    var s, t := a + "#" + Digits(i), b + "#" + Digits(j);
    NotShorter(a, Digits(i), b, Digits(j));
    NotShorter(b, Digits(j), a, Digits(i));
    assert a == s[..|a|] && b == t[..|b|];
    assert Digits(i) == s[|a| + 1..] && Digits(j) == t[|b| + 1..];
    DigitsValue(i);
    DigitsValue(j);
  }

  lemma {:induction false} NotShorter(a: string, x: string, b: string, y: string)
    requires a + "#" + x == b + "#" + y
    requires forall k :: 0 <= k < |x| ==> '0' <= x[k] <= '9'
    ensures |b| <= |a|
  {
    var s := b + "#" + y;
    assert s[|b|] == '#';
    assert forall k :: |a| < k < |s| ==> s[k] == x[k - |a| - 1];
  }

  /** Ring parameters: virtual nodes per node and the 32-bit hash of a key. */
  datatype Config = Config(vnodes: nat, hashKey: string -> nat) {
    function Pos(node: NodeId, i: nat): nat {
      hashKey(node + "#" + Digits(i))
    }
  }

  // ---------------------------------------------------------------- sorted positions

  ghost predicate Sorted(s: seq<nat>) {
    forall i, j :: 0 <= i < j < |s| ==> s[i] <= s[j]
  }

  ghost predicate StrictlySorted(s: seq<nat>) {
    forall i, j :: 0 <= i < j < |s| ==> s[i] < s[j]
  }

  function Place(s: seq<nat>, x: nat): seq<nat> {
    if s == [] || s[|s| - 1] <= x then s + [x] else Place(s[..|s| - 1], x) + [s[|s| - 1]]
  }

  /** The unique ascending arrangement. */
  function Sort(s: seq<nat>): seq<nat> {
    if s == [] then [] else Place(Sort(s[..|s| - 1]), s[|s| - 1])
  }

  lemma {:induction false} AppendSorted(p: seq<nat>, x: nat)
    requires Sorted(p) && forall i :: 0 <= i < |p| ==> p[i] <= x
    ensures Sorted(p + [x])
  {
  }

  lemma {:induction false} PlaceSorted(s: seq<nat>, x: nat)
    requires Sorted(s)
    ensures Sorted(Place(s, x)) && multiset(Place(s, x)) == multiset(s) + multiset{x}
  {
    if !(s == [] || s[|s| - 1] <= x) {
      var n := |s| - 1;
      PlaceSorted(s[..n], x);
      assert s == s[..n] + [s[n]];
      var p := Place(s[..n], x);
      forall i | 0 <= i < |p| ensures p[i] <= s[n] {
        FromEither(p, s[..n], x, i);
      }
      AppendSorted(p, s[n]);
    } else {
      forall i | 0 <= i < |s| ensures s[i] <= x {}
      AppendSorted(s, x);
    }
  }

  lemma {:induction false} FromEither(p: seq<nat>, s: seq<nat>, x: nat, i: nat)
    requires multiset(p) == multiset(s) + multiset{x} && i < |p|
    ensures p[i] == x || p[i] in s
  {
    assert p[i] in multiset(p);
  }

  lemma {:induction false} SortSorted(s: seq<nat>)
    ensures Sorted(Sort(s)) && multiset(Sort(s)) == multiset(s)
  {
    if s != [] {
      var n := |s| - 1;
      SortSorted(s[..n]);
      PlaceSorted(Sort(s[..n]), s[n]);
      assert s == s[..n] + [s[n]];
    }
  }

  lemma {:induction false} HeadIn(s: seq<nat>)
    ensures s != [] ==> s[0] in s
  {
  }

  ghost predicate SameElements(s: seq<nat>, t: seq<nat>) {
    forall x :: x in s <==> x in t
  }

  lemma {:induction false} LastAtMost(s: seq<nat>, t: seq<nat>)
    requires StrictlySorted(t) && s != [] && t != [] && SameElements(s, t)
    ensures s[|s| - 1] <= t[|t| - 1]
  {
    var x := s[|s| - 1];
    assert x in s;
    var j :| 0 <= j < |t| && t[j] == x;
  }

  lemma {:induction false} StrictlySortedUnique(s: seq<nat>, t: seq<nat>)
    requires StrictlySorted(s) && StrictlySorted(t) && SameElements(s, t)
    ensures s == t
    decreases |s|
  {
    HeadIn(s);
    HeadIn(t);
    if s != [] {
      var m, n := |s| - 1, |t| - 1;
      LastAtMost(s, t);
      LastAtMost(t, s);
      ButLast(s);
      ButLast(t);
      forall x ensures x in s[..m] <==> x in t[..n] {
        assert x in s <==> x in t;
      }
      StrictlySortedUnique(s[..m], t[..n]);
      assert s == s[..m] + [s[m]] && t == t[..n] + [t[n]];
    }
  }

  lemma {:induction false} ButLast(s: seq<nat>)
    requires StrictlySorted(s) && s != []
    ensures forall x :: x in s[..|s| - 1] <==> x in s && x != s[|s| - 1]
  {
    assert s == s[..|s| - 1] + [s[|s| - 1]];
  }

  // ---------------------------------------------------------------- adding and removing

  /** Appends virtual nodes 0 to n-1, skipping positions another node owns. */
  function WithVnodes(c: Config, st: RingState, node: NodeId, n: nat): RingState {
    if n == 0 then st
    else
      var before := WithVnodes(c, st, node, n - 1);
      var p := c.Pos(node, n - 1);
      if p in before.nodeMap && before.nodeMap[p] != node then before
      else before.(ring := before.ring + [p], nodeMap := before.nodeMap[p := node])
  }

  function Added(c: Config, st: RingState, node: NodeId): RingState {
    if node in st.nodes then st
    else
      var all := WithVnodes(c, st, node, c.vnodes);
      RingState(Sort(all.ring), all.nodeMap, st.nodes + {node})
  }

  /** The first n positions with those of the node dropped; a position's owner is forgotten when it is first dropped. */
  function Swept(st: RingState, node: NodeId, n: nat): RingState
    requires n <= |st.ring|
  {
    if n == 0 then RingState([], st.nodeMap, st.nodes - {node})
    else
      var before := Swept(st, node, n - 1);
      var p := st.ring[n - 1];
      if Owner(before.nodeMap, p) != node then before.(ring := before.ring + [p])
      else before.(nodeMap := before.nodeMap - {p})
  }

  /** None stands for the panic of a negative slice capacity. */
  function Removed(c: Config, st: RingState, node: NodeId): Option<RingState> {
    if node !in st.nodes then Some(st)
    else if |st.ring| < c.vnodes then None
    else Some(Swept(st, node, |st.ring|))
  }

  // ---------------------------------------------------------------- no collisions: a canonical ring

  ghost predicate CollisionFree(c: Config, s: set<NodeId>) {
    forall a, b, i: nat, j: nat :: a in s && b in s && i < c.vnodes && j < c.vnodes && c.Pos(a, i) == c.Pos(b, j) ==>
      a == b && i == j
  }

  /** The strings hashed for the virtual nodes of the members. */
  ghost function VnodeNames(c: Config, s: set<NodeId>): iset<string> {
    iset a: NodeId, i: nat | a in s && i < c.vnodes :: a + "#" + Digits(i)
  }

  /** Positions collide exactly when the hash itself collides on two of these strings. */
  lemma {:induction false} CollisionsAreTheHash(c: Config, s: set<NodeId>)
    ensures CollisionFree(c, s) <==>
            forall x, y :: x in VnodeNames(c, s) && y in VnodeNames(c, s) && c.hashKey(x) == c.hashKey(y) ==> x == y
  {
    if CollisionFree(c, s) {
      forall x, y | x in VnodeNames(c, s) && y in VnodeNames(c, s) && c.hashKey(x) == c.hashKey(y) ensures x == y {
        var a: NodeId, i: nat :| a in s && i < c.vnodes && x == a + "#" + Digits(i);
        var b: NodeId, j: nat :| b in s && j < c.vnodes && y == b + "#" + Digits(j);
        assert c.Pos(a, i) == c.Pos(b, j);
      }
    } else {
      var a, b, i: nat, j: nat :|
        a in s && b in s && i < c.vnodes && j < c.vnodes && c.Pos(a, i) == c.Pos(b, j) && !(a == b && i == j);
      var x, y := a + "#" + Digits(i), b + "#" + Digits(j);
      if x == y {
        NamesAreDistinct(a, i, b, j);
      }
      assert x in VnodeNames(c, s) && y in VnodeNames(c, s);
    }
  }

  /** Exactly the virtual nodes of the members, in order, each owned by its node. */
  ghost predicate Canonical(c: Config, st: RingState) {
    && StrictlySorted(st.ring)
    && (forall p :: p in st.ring <==> p in st.nodeMap)
    && (forall p :: p in st.nodeMap ==>
        st.nodeMap[p] in st.nodes && exists i: nat :: i < c.vnodes && c.Pos(st.nodeMap[p], i) == p)
    && forall a, i: nat :: a in st.nodes && i < c.vnodes ==> c.Pos(a, i) in st.nodeMap && st.nodeMap[c.Pos(a, i)] == a
  }

  /** Membership determines a canonical ring. */
  lemma {:induction false} CanonicalUnique(c: Config, s: RingState, t: RingState)
    requires Canonical(c, s) && Canonical(c, t) && s.nodes == t.nodes
    ensures s == t
  {
    forall p ensures p in s.nodeMap ==> p in t.nodeMap && t.nodeMap[p] == s.nodeMap[p] {
      if p in s.nodeMap {
        var i: nat :| i < c.vnodes && c.Pos(s.nodeMap[p], i) == p;
      }
    }
    forall p ensures p in t.nodeMap ==> p in s.nodeMap {
      if p in t.nodeMap {
        var i: nat :| i < c.vnodes && c.Pos(t.nodeMap[p], i) == p;
      }
    }
    StrictlySortedUnique(s.ring, t.ring);
  }

  /** all is st with exactly the first n virtual nodes of the node appended. */
  ghost predicate VnodesAdded(c: Config, st: RingState, all: RingState, node: NodeId, n: nat) {
    && NoRepeats(all.ring)
    && (forall p :: p in all.ring <==> p in all.nodeMap)
    && (forall p :: p in st.nodeMap ==> p in all.nodeMap && all.nodeMap[p] == st.nodeMap[p])
    && (forall i: nat :: i < n ==> c.Pos(node, i) in all.nodeMap && all.nodeMap[c.Pos(node, i)] == node)
    && (forall p :: p in all.nodeMap ==> p in st.nodeMap || exists i: nat :: i < n && c.Pos(node, i) == p)
  }

  /** Without collisions a virtual node's position is free until it is added. */
  lemma {:induction false} PositionIsFree(c: Config, st: RingState, all: RingState, node: NodeId, n: nat)
    requires Canonical(c, st) && node !in st.nodes && CollisionFree(c, st.nodes + {node}) && n < c.vnodes
    requires VnodesAdded(c, st, all, node, n)
    ensures c.Pos(node, n) !in all.nodeMap
  {
    hide Config.Pos;
    var p := c.Pos(node, n);
    assert node in st.nodes + {node};
  }

  /** Adding virtual nodes without collisions adds exactly their positions. */
  lemma {:induction false} WithVnodesOk(c: Config, st: RingState, node: NodeId, n: nat)
    requires Canonical(c, st) && node !in st.nodes && CollisionFree(c, st.nodes + {node}) && n <= c.vnodes
    ensures VnodesAdded(c, st, WithVnodes(c, st, node, n), node, n)
  {
    hide Config.Pos, CollisionFree, VnodesAdded;
    if n == 0 {
      NoVnodes(c, st, node);
    } else {
      hide Canonical;
      WithVnodesOk(c, st, node, n - 1);
      var before := WithVnodes(c, st, node, n - 1);
      PositionIsFree(c, st, before, node, n - 1);
      VnodeAppended(c, st, before, node, n - 1);
    }
  }

  lemma {:induction false} NoVnodes(c: Config, st: RingState, node: NodeId)
    requires Canonical(c, st)
    ensures VnodesAdded(c, st, st, node, 0)
  {
    hide Config.Pos;
  }

  lemma {:induction false} VnodeAppended(c: Config, st: RingState, all: RingState, node: NodeId, n: nat)
    requires VnodesAdded(c, st, all, node, n) && c.Pos(node, n) !in all.nodeMap
    ensures var p := c.Pos(node, n);
            VnodesAdded(c, st, all.(ring := all.ring + [p], nodeMap := all.nodeMap[p := node]), node, n + 1)
  {
    hide Config.Pos;
    var p := c.Pos(node, n);
    assert p !in all.ring;
    var r := all.(ring := all.ring + [p], nodeMap := all.nodeMap[p := node]);
    forall q | q in r.nodeMap ensures q in st.nodeMap || exists i: nat :: i < n + 1 && c.Pos(node, i) == q {
      if q != p && q !in st.nodeMap {
        var i: nat :| i < n && c.Pos(node, i) == q;
      }
    }
  }

  lemma {:induction false} SortDistinct(s: seq<nat>)
    requires NoRepeats(s)
    ensures StrictlySorted(Sort(s)) && forall x :: x in Sort(s) <==> x in s
  {
    SortSorted(s);
    hide Sort;
    var t := Sort(s);
    forall x ensures x in t <==> x in s {
      assert x in multiset(t) <==> x in multiset(s);
    }
    forall i, j | 0 <= i < j < |t| ensures t[i] < t[j] {
      CountedTwice(t, i, j);
      CountedOnce(s, t[i]);
    }
  }

  lemma {:induction false} AddedCanonical(c: Config, st: RingState, node: NodeId)
    requires Canonical(c, st) && CollisionFree(c, st.nodes + {node})
    ensures Canonical(c, Added(c, st, node)) && Added(c, st, node).nodes == st.nodes + {node}
  {
    hide Canonical, CollisionFree, Sort, WithVnodes;
    if node in st.nodes {
      assert st.nodes + {node} == st.nodes;
    } else {
      var all := WithVnodes(c, st, node, c.vnodes);
      WithVnodesOk(c, st, node, c.vnodes);
      SortDistinct(all.ring);
      AddedParts(c, st, node, all, Added(c, st, node));
    }
  }

  lemma {:induction false} AddedParts(c: Config, st: RingState, node: NodeId, all: RingState, r: RingState)
    requires Canonical(c, st) && VnodesAdded(c, st, all, node, c.vnodes)
    requires StrictlySorted(r.ring) && r.nodeMap == all.nodeMap && r.nodes == st.nodes + {node}
    requires forall x :: x in r.ring <==> x in all.ring
    ensures Canonical(c, r)
  {
    hide Config.Pos, StrictlySorted, NoRepeats;
    forall p | p in r.nodeMap
      ensures r.nodeMap[p] in r.nodes && exists i: nat :: i < c.vnodes && c.Pos(r.nodeMap[p], i) == p
    {
      if p in st.nodeMap {
        var i: nat :| i < c.vnodes && c.Pos(st.nodeMap[p], i) == p;
      } else {
        var i: nat :| i < c.vnodes && c.Pos(node, i) == p;
      }
    }
  }

  // ---------------------------------------------------------------- removal

  /** The positions not owned by the node, in order. */
  function Keep(ring: seq<nat>, nodeMap: map<nat, NodeId>, node: NodeId): seq<nat> {
    if ring == [] then []
    else
      var n := |ring| - 1;
      Keep(ring[..n], nodeMap, node) + if Owner(nodeMap, ring[n]) != node then [ring[n]] else []
  }

  lemma {:induction false} KeepMembers(ring: seq<nat>, nodeMap: map<nat, NodeId>, node: NodeId)
    requires StrictlySorted(ring)
    ensures forall p :: p in Keep(ring, nodeMap, node) <==> p in ring && Owner(nodeMap, p) != node
    ensures StrictlySorted(Keep(ring, nodeMap, node))
  {
    if ring != [] {
      var n := |ring| - 1;
      KeepMembers(ring[..n], nodeMap, node);
      ButLast(ring);
      hide StrictlySorted, Owner;
      AppendStrictly(Keep(ring[..n], nodeMap, node), ring, n);
    }
  }

  lemma {:induction false} AppendStrictly(k: seq<nat>, ring: seq<nat>, n: nat)
    requires StrictlySorted(k) && StrictlySorted(ring) && n < |ring| && forall p :: p in k ==> p in ring[..n]
    ensures StrictlySorted(k + [ring[n]])
  {
    forall i | 0 <= i < |k| ensures k[i] < ring[n] {
      assert k[i] in ring[..n];
    }
  }

  /** No position of the node is on the ring twice. */
  ghost predicate OwnedOnce(st: RingState, node: NodeId) {
    forall i, j :: 0 <= i < j < |st.ring| && st.ring[i] == st.ring[j] ==> Owner(st.nodeMap, st.ring[i]) != node
  }

  /** The sweep over the first n positions is a filter. */
  ghost predicate Filtered(st: RingState, node: NodeId, n: nat, r: RingState)
    requires n <= |st.ring|
  {
    && r.ring == Keep(st.ring[..n], st.nodeMap, node)
    && (forall p :: p in r.nodeMap <==> p in st.nodeMap && !(p in st.ring[..n] && st.nodeMap[p] == node))
    && (forall p :: p in r.nodeMap ==> r.nodeMap[p] == st.nodeMap[p])
    && r.nodes == st.nodes - {node}
  }

  /** So it is where the node owns no position twice, and always for the empty id. */
  lemma {:induction false} SweptFilters(st: RingState, node: NodeId, n: nat)
    requires n <= |st.ring| && (forall p :: p in st.ring ==> p in st.nodeMap) && (node == "" || OwnedOnce(st, node))
    ensures Filtered(st, node, n, Swept(st, node, n))
  {
    hide *;
    if n == 0 {
      NothingSwept(st, node);
    } else {
      SweptFilters(st, node, n - 1);
      assert st.ring[n - 1] in st.ring;
      FilteredNext(st, node, n - 1, Swept(st, node, n - 1));
      OneMoreSwept(st, node, n - 1);
    }
  }

  lemma {:induction false} NothingSwept(st: RingState, node: NodeId)
    ensures Filtered(st, node, 0, Swept(st, node, 0))
  {
  }

  lemma {:induction false} OneMoreSwept(st: RingState, node: NodeId, n: nat)
    requires n < |st.ring|
    ensures var r := Swept(st, node, n);
            Swept(st, node, n + 1) ==
              if Owner(r.nodeMap, st.ring[n]) != node then r.(ring := r.ring + [st.ring[n]])
              else r.(nodeMap := r.nodeMap - {st.ring[n]})
  {
  }

  lemma {:induction false} FilteredNext(st: RingState, node: NodeId, n: nat, r: RingState)
    requires n < |st.ring| && st.ring[n] in st.nodeMap && (node == "" || OwnedOnce(st, node))
    requires Filtered(st, node, n, r)
    ensures Filtered(st, node, n + 1,
                     if Owner(r.nodeMap, st.ring[n]) != node then r.(ring := r.ring + [st.ring[n]])
                     else r.(nodeMap := r.nodeMap - {st.ring[n]}))
  {
    SweptOwner(st, node, n, r);
    KeepNext(st.ring, st.nodeMap, node, n);
    hide OwnedOnce, Keep, Owner;
  }

  /** The sweep decides a position as the original owners would. */
  lemma {:induction false} SweptOwner(st: RingState, node: NodeId, n: nat, r: RingState)
    requires n < |st.ring| && st.ring[n] in st.nodeMap && (node == "" || OwnedOnce(st, node))
    requires Filtered(st, node, n, r)
    ensures Owner(r.nodeMap, st.ring[n]) != node <==> Owner(st.nodeMap, st.ring[n]) != node
    ensures Owner(st.nodeMap, st.ring[n]) == st.nodeMap[st.ring[n]]
  {
    hide Keep;
    var p := st.ring[n];
    if p in st.ring[..n] && node != "" {
      var i :| 0 <= i < n && st.ring[i] == p;
      assert Owner(st.nodeMap, st.ring[i]) != node;
    }
  }

  lemma {:induction false} KeepNext(ring: seq<nat>, nodeMap: map<nat, NodeId>, node: NodeId, n: nat)
    requires n < |ring|
    ensures Keep(ring[..n + 1], nodeMap, node) == Keep(ring[..n], nodeMap, node) +
              if Owner(nodeMap, ring[n]) != node then [ring[n]] else []
    ensures forall x :: x in ring[..n + 1] <==> x in ring[..n] || x == ring[n]
  {
    assert ring[..n + 1][..n] == ring[..n] && ring[..n + 1] == ring[..n] + [ring[n]];
  }

  lemma {:induction false} SweptCanonical(c: Config, st: RingState, node: NodeId)
    requires Canonical(c, st) && node in st.nodes
    ensures var r := Swept(st, node, |st.ring|);
            Canonical(c, r) && r.nodes == st.nodes - {node} && r.ring == Keep(st.ring, st.nodeMap, node)
            && forall p :: p in r.ring ==> p in st.nodeMap && p in r.nodeMap && r.nodeMap[p] == st.nodeMap[p]
  {
    hide Config.Pos, Keep, Swept;
    SweptFilters(st, node, |st.ring|);
    assert st.ring[..|st.ring|] == st.ring;
    KeepMembers(st.ring, st.nodeMap, node);
    var r := Swept(st, node, |st.ring|);
    forall p | p in r.nodeMap
      ensures p in r.ring && r.nodeMap[p] in r.nodes && exists i: nat :: i < c.vnodes && c.Pos(r.nodeMap[p], i) == p
    {
      var i: nat :| i < c.vnodes && c.Pos(st.nodeMap[p], i) == p;
    }
  }

  /** A member's virtual nodes are all on a canonical ring, so the capacity computed by removal is not negative. */
  lemma {:induction false} CapacityNotNegative(c: Config, st: RingState, node: NodeId)
    requires Canonical(c, st) && node in st.nodes && CollisionFree(c, st.nodes)
    ensures |st.ring| >= c.vnodes
  {
    hide Config.Pos, StrictlySorted;
    var mine := seq(c.vnodes, i requires 0 <= i => c.Pos(node, i));
    forall i | 0 <= i < |mine| ensures mine[i] in st.ring {
      assert mine[i] == c.Pos(node, i);
    }
    assert NoRepeats(mine) by {
      hide Canonical;
    }
    hide Canonical, CollisionFree;
    ElementsSize(mine);
    ElementsSize(st.ring);
    SubsetSize(Elements(mine), Elements(st.ring));
  }

  lemma {:induction false} RemovedCanonical(c: Config, st: RingState, node: NodeId)
    requires Canonical(c, st) && CollisionFree(c, st.nodes)
    ensures Removed(c, st, node).Some?
    ensures Canonical(c, Removed(c, st, node).value) && Removed(c, st, node).value.nodes == st.nodes - {node}
  {
    if node in st.nodes {
      CapacityNotNegative(c, st, node);
      SweptCanonical(c, st, node);
    }
  }

  // ---------------------------------------------------------------- whole runs

  datatype Op = Add(node: NodeId) | Remove(node: NodeId)

  function Step(c: Config, st: RingState, op: Op): Option<RingState> {
    match op
    case Add(node) => Some(Added(c, st, node))
    case Remove(node) => Removed(c, st, node)
  }

  /** Every call of a run in order, from an empty ring; None once a call panics. */
  function Run(c: Config, ops: seq<Op>): Option<RingState> {
    if ops == [] then Some(EMPTY_RING)
    else
      match Run(c, ops[..|ops| - 1])
      case None => None
      case Some(st) => Step(c, st, ops[|ops| - 1])
  }

  /** The members a run should leave. */
  function Members(ops: seq<Op>): set<NodeId> {
    if ops == [] then {}
    else
      match ops[|ops| - 1]
      case Add(node) => Members(ops[..|ops| - 1]) + {node}
      case Remove(node) => Members(ops[..|ops| - 1]) - {node}
  }

  ghost predicate Over(ops: seq<Op>, u: set<NodeId>) {
    forall i :: 0 <= i < |ops| ==> ops[i].node in u
  }

  /** Without collisions every run leaves exactly the sorted virtual nodes of the current members. */
  lemma {:induction false} RunIsCanonical(c: Config, ops: seq<Op>, u: set<NodeId>)
    requires Over(ops, u) && CollisionFree(c, u)
    ensures Run(c, ops).Some? && Canonical(c, Run(c, ops).value)
    ensures Run(c, ops).value.nodes == Members(ops) <= u
  {
    if ops != [] {
      var n := |ops| - 1;
      RunIsCanonical(c, ops[..n], u);
      var st := Run(c, ops[..n]).value;
      match ops[n]
      case Add(node) =>
        AddedCanonical(c, st, node);
      case Remove(node) =>
        RemovedCanonical(c, st, node);
    }
  }
}
