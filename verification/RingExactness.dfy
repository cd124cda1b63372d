/**
 When exactly the ring is a function of its membership: precisely when no two
 virtual nodes of the node ids in use share a position, two of the empty id apart.
 */
module RingExactness {
  import opened Common
  import opened HashRing
  import opened RingCopies

  /** Any two runs over these ids that end with the same members end with the same ring. */
  ghost predicate Determined(c: Config, u: set<NodeId>) {
    forall ops, ops' :: Over(ops, u) && Over(ops', u) && Members(ops) == Members(ops') ==> Run(c, ops) == Run(c, ops')
  }

  /** Two virtual nodes on one position are harmless only when both belong to the empty id. */
  lemma {:induction false} DeterminedExactly(c: Config, u: set<NodeId>)
    ensures Determined(c, u) <==> OnlyEmptyRepeats(c, u)
    ensures "" !in u ==> (Determined(c, u) <==> CollisionFree(c, u))
  {
    if OnlyEmptyRepeats(c, u) {
      forall ops, ops' | Over(ops, u) && Over(ops', u) && Members(ops) == Members(ops')
        ensures Run(c, ops) == Run(c, ops')
      {
        RunIsTidy(c, ops, u);
        RunIsTidy(c, ops', u);
        TidyUnique(c, Run(c, ops).value, Run(c, ops').value);
      }
    } else {
      hide Config.Pos;
      var a, b, i: nat, j: nat :| a in u && b in u && i < c.vnodes && j < c.vnodes && c.Pos(a, i) == c.Pos(b, j)
                                  && !(a == b && (i == j || a == ""));
      if a != b {
        SharedPositionDependsOnOrder(c, u, a, b, i, j);
      } else {
        RepeatedPositionSurvivesRemoval(c, u, a, i, j);
      }
    }
    WithoutEmptyId(c, u);
  }

  lemma {:induction false} WithoutEmptyId(c: Config, u: set<NodeId>)
    ensures "" !in u ==> (OnlyEmptyRepeats(c, u) <==> CollisionFree(c, u))
  {
    hide Config.Pos;
  }

  // ---------------------------------------------------------------- two nodes on one position

  lemma {:induction false} OwnerKept(c: Config, st: RingState, node: NodeId, n: nat, p: nat)
    requires p in st.nodeMap && st.nodeMap[p] != node
    ensures p in WithVnodes(c, st, node, n).nodeMap && WithVnodes(c, st, node, n).nodeMap[p] == st.nodeMap[p]
  {
    hide Config.Pos;
    if n > 0 {
      OwnerKept(c, st, node, n - 1, p);
    }
  }

  lemma {:induction false} FromEmpty(c: Config, node: NodeId, n: nat)
    ensures var all := WithVnodes(c, EMPTY_RING, node, n);
            && |all.ring| == n
            && (forall p :: p in all.nodeMap ==> all.nodeMap[p] == node)
            && forall i: nat :: i < n ==> all.ring[i] == c.Pos(node, i) && c.Pos(node, i) in all.nodeMap
  {
    hide Config.Pos;
    if n > 0 {
      FromEmpty(c, node, n - 1);
    }
  }

  ghost function Pair(a: NodeId, b: NodeId): seq<Op> {
    [Add(a), Add(b)]
  }

  lemma {:induction false} RunPair(c: Config, a: NodeId, b: NodeId)
    ensures Run(c, Pair(a, b)) == Some(Added(c, Added(c, EMPTY_RING, a), b))
    ensures Members(Pair(a, b)) == {a, b}
  {
    hide Added;
    assert Pair(a, b)[..1] == [Add(a)] && [Add(a)][..0] == [];
    assert Run(c, [Add(a)]) == Some(Added(c, EMPTY_RING, a));
    assert Members([Add(a)]) == {a};
  }

  /** The first of two nodes to be added owns a shared position. */
  lemma {:induction false} FirstComerOwns(c: Config, a: NodeId, b: NodeId, p: nat, i: nat)
    requires a != b && i < c.vnodes && c.Pos(a, i) == p
    ensures Run(c, Pair(a, b)).Some?
    ensures var m := Run(c, Pair(a, b)).value.nodeMap; p in m && m[p] == a
  {
    RunPair(c, a, b);
    hide Config.Pos, Sort;
    FromEmpty(c, a, c.vnodes);
    OwnerKept(c, Added(c, EMPTY_RING, a), b, c.vnodes, p);
  }

  lemma {:induction false} SharedPositionDependsOnOrder(c: Config, u: set<NodeId>, a: NodeId, b: NodeId, i: nat, j: nat)
    requires a in u && b in u && a != b && i < c.vnodes && j < c.vnodes && c.Pos(a, i) == c.Pos(b, j)
    ensures !Determined(c, u)
  {
    var p := c.Pos(a, i);
    hide Config.Pos, Run, Members;
    FirstComerOwns(c, a, b, p, i);
    FirstComerOwns(c, b, a, p, j);
    RunPair(c, a, b);
    RunPair(c, b, a);
    assert Over(Pair(a, b), u) && Over(Pair(b, a), u);
    assert Run(c, Pair(a, b)) != Run(c, Pair(b, a));
  }

  // ---------------------------------------------------------------- one node twice on one position

  lemma {:induction false} TwoIndices(s: seq<nat>, x: nat) returns (i: nat, j: nat)
    requires multiset(s)[x] >= 2
    ensures i < j < |s| && s[i] == x && s[j] == x
  {
    var n := |s| - 1;
    assert s != [];
    assert s == s[..n] + [s[n]];
    if s[n] == x {
      assert multiset(s[..n])[x] >= 1;
      assert x in s[..n];
      i :| 0 <= i < n && s[i] == x;
      j := n;
    } else {
      i, j := TwoIndices(s[..n], x);
    }
  }

  /** Sweeping past the second copy of a position leaves something behind. */
  lemma {:induction false} SweptLeavesCopy(st: RingState, node: NodeId, n: nat, i: nat, j: nat)
    requires i < j < |st.ring| && st.ring[i] == st.ring[j] && node != "" && n <= |st.ring|
    ensures i < n ==> |Swept(st, node, n).ring| > 0 || st.ring[i] !in Swept(st, node, n).nodeMap
    ensures j < n ==> |Swept(st, node, n).ring| > 0
  {
    if n > 0 {
      SweptLeavesCopy(st, node, n - 1, i, j);
    }
  }

  lemma {:induction false} SweptOwners(st: RingState, node: NodeId, n: nat)
    requires n <= |st.ring| && forall p :: p in st.nodeMap ==> st.nodeMap[p] == node
    ensures forall p :: p in Swept(st, node, n).nodeMap ==> Swept(st, node, n).nodeMap[p] == node
    ensures Swept(st, node, n).nodes == st.nodes - {node}
  {
    if n > 0 {
      SweptOwners(st, node, n - 1);
    }
  }

  /** Where no other node owns anything, adding always appends. */
  lemma {:induction false} AddsAll(c: Config, st: RingState, node: NodeId, n: nat)
    requires forall p :: p in st.nodeMap ==> st.nodeMap[p] == node
    ensures |WithVnodes(c, st, node, n).ring| == |st.ring| + n
    ensures forall p :: p in WithVnodes(c, st, node, n).nodeMap ==> WithVnodes(c, st, node, n).nodeMap[p] == node
  {
    hide Config.Pos;
    if n > 0 {
      AddsAll(c, st, node, n - 1);
    }
  }

  lemma {:induction false} SortLength(s: seq<nat>)
    ensures |Sort(s)| == |s|
  {
    SortSorted(s);
    assert |multiset(Sort(s))| == |multiset(s)|;
  }

  lemma {:induction false} RunTriple(c: Config, a: NodeId)
    ensures Run(c, [Add(a)]) == Some(Added(c, EMPTY_RING, a)) && Members([Add(a)]) == {a}
    ensures Members([Add(a), Remove(a), Add(a)]) == {a}
    ensures Run(c, [Add(a), Remove(a), Add(a)]) ==
              match Removed(c, Added(c, EMPTY_RING, a), a)
              case None => None
              case Some(st) => Some(Added(c, st, a))
  {
    hide Added, Removed;
    var ops := [Add(a), Remove(a), Add(a)];
    assert [Add(a)][..0] == [];
    assert Run(c, [Add(a)]) == Some(Added(c, EMPTY_RING, a));
    assert ops[..2] == [Add(a), Remove(a)] && [Add(a), Remove(a)][..1] == [Add(a)];
    assert Members([Add(a)]) == {a};
    assert Members([Add(a), Remove(a)]) == {};
  }

  /** Removing the only member leaves a stale position behind when two of its own coincide. */
  lemma {:induction false} StalePosition(c: Config, a: NodeId, i: nat, j: nat)
    requires a != "" && i < c.vnodes && j < c.vnodes && i != j && c.Pos(a, i) == c.Pos(a, j)
    ensures var left := Removed(c, Added(c, EMPTY_RING, a), a);
            && left.Some? && a !in left.value.nodes && |left.value.ring| > 0 &&
              |Added(c, EMPTY_RING, a).ring| == c.vnodes
            && forall p :: p in left.value.nodeMap ==> left.value.nodeMap[p] == a
  {
    var p := c.Pos(a, i);
    hide Config.Pos, Sort;
    var all := WithVnodes(c, EMPTY_RING, a, c.vnodes);
    FromEmpty(c, a, c.vnodes);
    CountedTwice(all.ring, if i < j then i else j, if i < j then j else i);
    SortSorted(all.ring);
    SortLength(all.ring);
    var st := Added(c, EMPTY_RING, a);
    var k, l := TwoIndices(st.ring, p);
    SweptLeavesCopy(st, a, |st.ring|, k, l);
    SweptOwners(st, a, |st.ring|);
    hide Swept, WithVnodes;
  }

  lemma {:induction false} RepeatedPositionSurvivesRemoval(c: Config, u: set<NodeId>, a: NodeId, i: nat, j: nat)
    requires a in u && a != "" && i < c.vnodes && j < c.vnodes && i != j && c.Pos(a, i) == c.Pos(a, j)
    ensures !Determined(c, u)
  {
    hide Config.Pos, Sort, Run, Members, Removed;
    StalePosition(c, a, i, j);
    var st := Added(c, EMPTY_RING, a);
    var left := Removed(c, st, a).value;
    AddsAll(c, left, a, c.vnodes);
    SortLength(WithVnodes(c, left, a, c.vnodes).ring);
    RunTriple(c, a);
    hide WithVnodes;
    assert |Added(c, left, a).ring| > |st.ring|;
    assert Over([Add(a)], u) && Over([Add(a), Remove(a), Add(a)], u);
    assert Run(c, [Add(a)]) != Run(c, [Add(a), Remove(a), Add(a)]);
  }
}
