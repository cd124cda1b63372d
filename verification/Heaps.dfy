/**
 The binary heaps of container/heap over search hits, in both orientations:
 minCandHeap (closest at the root) and maxCandHeap / distHeap (farthest at the root).
 */
module Heaps {
  import opened Ranking

  /** Less of the heap: maxHeap selects the farthest-first orientation. */
  predicate Less(maxHeap: bool, a: Hit, b: Hit) {
    if maxHeap then a.dist > b.dist else a.dist < b.dist
  }

  function Parent(c: nat): nat
    requires c > 0
  {
    (c - 1) / 2
  }

  ghost predicate Settled(maxHeap: bool, h: seq<Hit>, c: nat)
    requires 0 < c < |h|
  {
    !Less(maxHeap, h[c], h[Parent(c)])
  }

  ghost predicate IsHeap(maxHeap: bool, h: seq<Hit>) {
    forall c: nat :: 0 < c < |h| ==> Settled(maxHeap, h, c)
  }

  lemma {:induction false} OneIsHeap(x: Hit)
    ensures IsHeap(false, [x]) && IsHeap(true, [x])
  {
  }

  /** Heap order everywhere except between the hole and its children, which stay below the hole's parent. */
  ghost predicate HoleAbove(maxHeap: bool, h: seq<Hit>, hole: nat) {
    && (forall c: nat :: 0 < c < |h| && Parent(c) != hole ==> Settled(maxHeap, h, c))
    && Bridged(maxHeap, h, hole)
  }

  /** Heap order everywhere except between the hole and its parent. */
  ghost predicate HoleBelow(maxHeap: bool, h: seq<Hit>, hole: nat) {
    && (forall c: nat :: 0 < c < |h| && c != hole ==> Settled(maxHeap, h, c))
    && Bridged(maxHeap, h, hole)
  }

  ghost predicate Bridged(maxHeap: bool, h: seq<Hit>, hole: nat) {
    0 < hole < |h| ==>
      forall c: nat :: 0 < c < |h| && Parent(c) == hole ==> !Less(maxHeap, h[c], h[Parent(hole)])
  }

  function Swapped(h: seq<Hit>, i: nat, j: nat): (r: seq<Hit>)
    requires i < |h| && j < |h|
    ensures |r| == |h| && multiset(r) == multiset(h)
  {
    h[i := h[j]][j := h[i]]
  }

  /** The root of a heap is never beaten. */
  lemma {:induction false} RootIsBest(maxHeap: bool, h: seq<Hit>, k: nat)
    requires IsHeap(maxHeap, h) && k < |h|
    ensures !Less(maxHeap, h[k], h[0])
  {
    if k > 0 {
      assert Settled(maxHeap, h, k);
      RootIsBest(maxHeap, h, Parent(k));
    }
  }

  lemma {:induction false} RootIsBestOfAll(maxHeap: bool, h: seq<Hit>)
    requires IsHeap(maxHeap, h) && |h| > 0
    ensures forall i :: 0 <= i < |h| ==> !Less(maxHeap, h[i], h[0])
    ensures forall x :: x in h ==> !Less(maxHeap, x, h[0])
  {
    forall i | 0 <= i < |h| ensures !Less(maxHeap, h[i], h[0]) {
      RootIsBest(maxHeap, h, i);
    }
    forall x | x in h ensures !Less(maxHeap, x, h[0]) {
      var k :| 0 <= k < |h| && h[k] == x;
      RootIsBest(maxHeap, h, k);
    }
  }

  /** Swapping the hole with its better child moves the hole down one level. */
  lemma {:induction false} SiftDownStep(maxHeap: bool, h: seq<Hit>, i: nat, j: nat)
    requires BestChild(maxHeap, h, i, j) && Less(maxHeap, h[j], h[i])
    requires HoleAbove(maxHeap, h, i)
    ensures HoleAbove(maxHeap, Swapped(h, i, j), j)
  {
    var g := Swapped(h, i, j);
    forall c: nat | 0 < c < |g| && Parent(c) != j ensures Settled(maxHeap, g, c) {
      if Parent(c) != i { assert Settled(maxHeap, h, c); }
    }
    forall c: nat | 0 < c < |g| && Parent(c) == j ensures !Less(maxHeap, g[c], g[i]) {
      assert Settled(maxHeap, h, c);
    }
  }

  /** Swapping the hole with its parent moves the hole up one level. */
  lemma {:induction false} SiftUpStep(maxHeap: bool, h: seq<Hit>, j: nat)
    requires 0 < j < |h| && Less(maxHeap, h[j], h[Parent(j)])
    requires HoleBelow(maxHeap, h, j)
    ensures HoleBelow(maxHeap, Swapped(h, Parent(j), j), Parent(j))
  {
    var i := Parent(j);
    var g := Swapped(h, i, j);
    forall c: nat | 0 < c < |g| && c != i ensures Settled(maxHeap, g, c) {
      if c != j { assert Settled(maxHeap, h, c); }
    }
    if i > 0 {
      assert Settled(maxHeap, h, i);
      forall c: nat | 0 < c < |g| && Parent(c) == i ensures !Less(maxHeap, g[c], g[Parent(i)]) {
        if c != j { assert Settled(maxHeap, h, c); }
      }
    }
  }

  /** j is a best child of i. */
  ghost predicate BestChild(maxHeap: bool, h: seq<Hit>, i: nat, j: nat) {
    && 0 < j < |h| && Parent(j) == i
    && forall c: nat :: 0 < c < |h| && Parent(c) == i ==> !Less(maxHeap, h[c], h[j])
  }

  lemma {:induction false} ChooseChild(maxHeap: bool, h: seq<Hit>, i: nat, j: nat)
    requires 2 * i + 1 < |h|
    requires j == if 2 * i + 2 < |h| && Less(maxHeap, h[2 * i + 2], h[2 * i + 1]) then 2 * i + 2 else 2 * i + 1
    ensures BestChild(maxHeap, h, i, j)
  {
    forall c: nat | 0 < c < |h| && Parent(c) == i ensures !Less(maxHeap, h[c], h[j]) {
      assert c == 2 * i + 1 || c == 2 * i + 2;
    }
  }

  lemma {:induction false} HoleFilled(maxHeap: bool, h: seq<Hit>, i: nat)
    requires HoleAbove(maxHeap, h, i)
    requires forall c: nat :: 0 < c < |h| && Parent(c) == i ==> Settled(maxHeap, h, c)
    ensures IsHeap(maxHeap, h)
  {
  }

  method Down(maxHeap: bool, s: seq<Hit>) returns (h: seq<Hit>)
    requires HoleAbove(maxHeap, s, 0)
    ensures IsHeap(maxHeap, h)
    ensures multiset(h) == multiset(s) && |h| == |s|
  {
    h := s;
    var i: nat := 0;
    while 2 * i + 1 < |h|
      invariant |h| == |s| && multiset(h) == multiset(s)
      invariant HoleAbove(maxHeap, h, i)
      decreases |h| - i
    {
      var j := 2 * i + 1;
      if j + 1 < |h| && Less(maxHeap, h[j + 1], h[j]) {
        j := j + 1;
      }
      ChooseChild(maxHeap, h, i, j);
      if !Less(maxHeap, h[j], h[i]) {
        HoleFilled(maxHeap, h, i);
        return;
      }
      SiftDownStep(maxHeap, h, i, j);
      h := Swapped(h, i, j);
      i := j;
    }
    HoleFilled(maxHeap, h, i);
  }

  method Up(maxHeap: bool, s: seq<Hit>, start: nat) returns (h: seq<Hit>)
    requires start < |s|
    requires HoleBelow(maxHeap, s, start)
    ensures IsHeap(maxHeap, h)
    ensures multiset(h) == multiset(s) && |h| == |s|
  {
    h := s;
    var j: nat := start;
    while j > 0 && Less(maxHeap, h[j], h[Parent(j)])
      invariant j < |h| == |s| && multiset(h) == multiset(s)
      invariant HoleBelow(maxHeap, h, j)
    {
      SiftUpStep(maxHeap, h, j);
      h := Swapped(h, Parent(j), j);
      j := Parent(j);
    }
  }

  method Push(maxHeap: bool, s: seq<Hit>, x: Hit) returns (h: seq<Hit>)
    requires IsHeap(maxHeap, s)
    ensures IsHeap(maxHeap, h)
    ensures multiset(h) == multiset(s) + multiset{x} && |h| == |s| + 1
  {
    var t := s + [x];
    forall c: nat | 0 < c < |s| ensures Settled(maxHeap, t, c) {
      assert Settled(maxHeap, s, c);
    }
    h := Up(maxHeap, t, |s|);
  }

  /** Dropping or overwriting the root leaves a hole there. */
  lemma {:induction false} RootHole(maxHeap: bool, s: seq<Hit>, t: seq<Hit>)
    requires IsHeap(maxHeap, s) && |t| <= |s|
    requires forall k :: 0 < k < |t| ==> t[k] == s[k]
    ensures HoleAbove(maxHeap, t, 0)
  {
    forall c: nat | 0 < c < |t| && Parent(c) != 0 ensures Settled(maxHeap, t, c) {
      assert Settled(maxHeap, s, c);
    }
  }

  method Pop(maxHeap: bool, s: seq<Hit>) returns (x: Hit, h: seq<Hit>)
    requires IsHeap(maxHeap, s) && |s| > 0
    ensures IsHeap(maxHeap, h)
    ensures x == s[0] && multiset(s) == multiset(h) + multiset{x} && |h| == |s| - 1
    ensures forall y :: y in s ==> !Less(maxHeap, y, x)
  {
    RootIsBestOfAll(maxHeap, s);
    x := s[0];
    var n := |s| - 1;
    var t := Swapped(s, 0, n);
    assert t == t[..n] + [x];
    RootHole(maxHeap, s, t[..n]);
    h := Down(maxHeap, t[..n]);
  }

  /** Replace the root and restore heap order: heap.Fix at index 0. */
  method ReplaceRoot(maxHeap: bool, s: seq<Hit>, x: Hit) returns (h: seq<Hit>)
    requires IsHeap(maxHeap, s) && |s| > 0
    ensures IsHeap(maxHeap, h)
    ensures multiset(h) == multiset(s) - multiset{s[0]} + multiset{x} && |h| == |s|
  {
    var t := s[0 := x];
    assert s == [s[0]] + s[1..] && t == [x] + s[1..];
    RootHole(maxHeap, s, t);
    h := Down(maxHeap, t);
  }

  /** No hit of the heap is farther than a hit already drained. */
  ghost predicate Fits(h: seq<Hit>, sorted: seq<Hit>) {
    && Ascending(sorted)
    && forall i, k :: 0 <= i < |h| && 0 <= k < |sorted| ==> h[i].dist <= sorted[k].dist
  }

  lemma {:induction false} DrainStep(before: seq<Hit>, h: seq<Hit>, sorted: seq<Hit>, x: Hit)
    requires Fits(before, sorted) && multiset(before) == multiset(h) + multiset{x}
    requires forall y :: y in before ==> y.dist <= x.dist
    ensures Fits(h, [x] + sorted)
  {
    assert x in multiset(before);
    forall i | 0 <= i < |h| ensures h[i] in before {
      assert h[i] in multiset(before);
    }
  }

  /** Popping a farthest-first heap from the back fills an ascending result. */
  method DrainAscending(s: seq<Hit>) returns (sorted: seq<Hit>)
    requires IsHeap(true, s)
    ensures Ascending(sorted)
    ensures multiset(sorted) == multiset(s) && |sorted| == |s|
  {
    var h := s;
    sorted := [];
    while |h| > 0
      invariant IsHeap(true, h)
      invariant multiset(sorted) + multiset(h) == multiset(s)
      invariant |sorted| + |h| == |s|
      invariant Fits(h, sorted)
    {
      ghost var before := h;
      var x;
      x, h := Pop(true, h);
      DrainStep(before, h, sorted, x);
      sorted := [x] + sorted;
    }
  }
}
