/**
 A finished beam search expands the closest node it has seen, time and again, as long as one is due.
 When no two nodes of the layer are equally far from the query, that leaves it no choice at all.
 */
module BeamOrder {
  import opened Common
  import opened Ranking
  import opened Beam

  ghost predicate AllApart(v: LayerView) {
    forall x, y :: 0 <= x < y < |v.dist| ==> v.dist[x] != v.dist[y]
  }

  lemma {:induction false} OneDue(v: LayerView, ef: int, seen: set<nat>, done: set<nat>, x: nat, y: nat)
    requires Due(v, ef, seen, done, x) && Due(v, ef, seen, done, y) && AllApart(v)
    ensures x == y
  {
  }

  lemma {:induction false} OneDueAt(v: LayerView, ep: nat, ef: int, blocked: iset<nat>, a: seq<nat>, b: seq<nat>,
                                    k: nat)
    requires k < |a| && k < |b| && a[..k] == b[..k] && AllApart(v)
    requires DueAt(v, ep, ef, blocked, a, k) && DueAt(v, ep, ef, blocked, b, k)
    ensures a[..k + 1] == b[..k + 1]
  {
    OneDue(v, ef, SeenAfter(v, ep, blocked, a[..k]), Elements(a[..k]), a[k], b[k]);
  }

  /** Two best-first expansions agree as far as both go. */
  lemma {:induction false} OneOrder(v: LayerView, ep: nat, ef: int, blocked: iset<nat>, a: seq<nat>, b: seq<nat>,
                                    n: nat)
    requires BestFirst(v, ep, ef, blocked, a) && BestFirst(v, ep, ef, blocked, b) && n <= |a| && n <= |b|
    requires AllApart(v)
    ensures a[..n] == b[..n]
  {
    if n > 0 {
      hide DueAt, AllApart;
      OneOrder(v, ep, ef, blocked, a, b, n - 1);
      OneDueAt(v, ep, ef, blocked, a, b, n - 1);
    }
  }

  /** A finished search leaves no node due. */
  lemma {:induction false} NothingDue(v: LayerView, ep: nat, ef: int, blocked: iset<nat>, evaluated: set<nat>,
                                      r: seq<Hit>, done: set<nat>, c: nat)
    requires BeamResult(v, ep, ef, blocked, evaluated, r) && AllApart(v) && Ids(r) <= done
    ensures !Due(v, ef, evaluated, done, c)
  {
    hide Paced, Reachable, ViewOk;
    if Due(v, ef, evaluated, done, c) {
      DistinctIdsCount(r);
      if |r| == |evaluated| {
        SameSize(Ids(r), evaluated);
      }
      forall x | x in Ids(r) ensures x in CloserThan(v, evaluated, c) {
        var k :| 0 <= k < |r| && r[k].id == x;
        assert r[k].dist <= v.dist[c];
      }
      SubsetSize(Ids(r), CloserThan(v, evaluated, c));
    }
  }

  /** With distances all apart the width, the start and the tracker determine what is evaluated. */
  lemma {:induction false} OneSearch(v: LayerView, ep: nat, ef: int, blocked: iset<nat>, e1: set<nat>, r1: seq<Hit>,
                                     e2: set<nat>, r2: seq<Hit>)
    requires BeamResult(v, ep, ef, blocked, e1, r1) && BeamResult(v, ep, ef, blocked, e2, r2) && AllApart(v)
    ensures e1 == e2
  {
    hide BestFirst, SeenAfter, Due, DueAt;
    var a :| BestFirst(v, ep, ef, blocked, a) && e1 == SeenAfter(v, ep, blocked, a) && Ids(r1) <= Elements(a);
    var b :| BestFirst(v, ep, ef, blocked, b) && e2 == SeenAfter(v, ep, blocked, b) && Ids(r2) <= Elements(b);
    NotLonger(v, ep, ef, blocked, e1, r1, a, b);
    NotLonger(v, ep, ef, blocked, e2, r2, b, a);
    OneOrder(v, ep, ef, blocked, a, b, |a|);
    assert a[..|a|] == a && b[..|b|] == b;
  }

  lemma {:induction false} NotLonger(v: LayerView, ep: nat, ef: int, blocked: iset<nat>, evaluated: set<nat>,
                                     r: seq<Hit>, a: seq<nat>, b: seq<nat>)
    requires BeamResult(v, ep, ef, blocked, evaluated, r) && AllApart(v)
    requires BestFirst(v, ep, ef, blocked, a) && evaluated == SeenAfter(v, ep, blocked, a) && Ids(r) <= Elements(a)
    requires BestFirst(v, ep, ef, blocked, b)
    ensures |b| <= |a|
  {
    hide BeamResult, SeenAfter, Due;
    if |b| > |a| {
      OneOrder(v, ep, ef, blocked, a, b, |a|);
      assert a[..|a|] == a && DueAt(v, ep, ef, blocked, b, |a|);
      NothingDue(v, ep, ef, blocked, evaluated, r, Elements(a), b[|a|]);
    }
  }

  /** With distances all apart the answer of a finished search is determined completely. */
  lemma {:induction false} OneAnswer(v: LayerView, ep: nat, ef: int, blocked: iset<nat>, e1: set<nat>, r1: seq<Hit>,
                                     e2: set<nat>, r2: seq<Hit>)
    requires BeamResult(v, ep, ef, blocked, e1, r1) && BeamResult(v, ep, ef, blocked, e2, r2) && AllApart(v)
    ensures r1 == r2
  {
    OneSearch(v, ep, ef, blocked, e1, r1, e2, r2);
    SameMembers(v, ep, ef, blocked, e1, r1, r2);
    SameMembers(v, ep, ef, blocked, e1, r2, r1);
    AscendingUnique(v, r1, r2);
  }

  lemma {:induction false} SameMembers(v: LayerView, ep: nat, ef: int, blocked: iset<nat>, e: set<nat>, r1: seq<Hit>,
                                       r2: seq<Hit>)
    requires BeamResult(v, ep, ef, blocked, e, r1) && BeamResult(v, ep, ef, blocked, e, r2) && AllApart(v)
    ensures Ids(r1) <= Ids(r2)
  {
    IdsCounted(v, ep, ef, blocked, e, r1);
    IdsCounted(v, ep, ef, blocked, e, r2);
    hide BeamResult, Ids;
    if x :| x in Ids(r1) && x !in Ids(r2) {
      var y := OtherWay(Ids(r1), Ids(r2), x);
      ReturnedNotFarther(v, ep, ef, blocked, e, r1, x, y);
      ReturnedNotFarther(v, ep, ef, blocked, e, r2, y, x);
      assert false;
    }
  }

  lemma {:induction false} IdsCounted(v: LayerView, ep: nat, ef: int, blocked: iset<nat>, e: set<nat>, r: seq<Hit>)
    requires BeamResult(v, ep, ef, blocked, e, r)
    ensures Ids(r) <= e && |Ids(r)| == Min(|e|, Cap(ef))
  {
    DistinctIdsCount(r);
  }

  lemma {:induction false} OtherWay(a: set<nat>, b: set<nat>, x: nat) returns (y: nat)
    requires |a| == |b| && x in a && x !in b
    ensures y in b && y !in a
  {
    if b <= a {
      SameSize(b, a);
      assert false;
    }
    y :| y in b && y !in a;
  }

  lemma {:induction false} ReturnedNotFarther(v: LayerView, ep: nat, ef: int, blocked: iset<nat>, e: set<nat>,
                                              r: seq<Hit>, x: nat, y: nat)
    requires BeamResult(v, ep, ef, blocked, e, r) && x in Ids(r) && y in e && y !in Ids(r)
    ensures x < |v.dist| && y < |v.dist| && v.dist[x] <= v.dist[y]
  {
    var i :| 0 <= i < |r| && r[i].id == x;
  }

  ghost predicate Measured(v: LayerView, r: seq<Hit>) {
    forall k :: 0 <= k < |r| ==> r[k].id < |v.dist| && r[k].dist == v.dist[r[k].id]
  }

  /** Distinct distances allow one ascending list of the same nodes. */
  lemma {:induction false} AscendingUnique(v: LayerView, a: seq<Hit>, b: seq<Hit>)
    requires Ascending(a) && Ascending(b) && DistinctIds(a) && DistinctIds(b) && Ids(a) == Ids(b) && AllApart(v)
    requires Measured(v, a) && Measured(v, b)
    ensures a == b
  {
    DistinctIdsCount(a);
    DistinctIdsCount(b);
    if a != [] {
      var n := |a| - 1;
      hide Ids, DistinctIds, Ascending, Measured, AllApart;
      LastNotFarther(v, a, b);
      LastNotFarther(v, b, a);
      LastApart(v, a, b);
      IdsButLast(a);
      IdsButLast(b);
      ButLastFits(v, a);
      ButLastFits(v, b);
      AscendingUnique(v, a[..n], b[..n]);
      assert a == a[..n] + [a[n]] && b == b[..n] + [b[n]];
    }
  }

  lemma {:induction false} LastNotFarther(v: LayerView, a: seq<Hit>, b: seq<Hit>)
    requires Ascending(b) && a != [] && b != [] && Ids(a) <= Ids(b)
    requires Measured(v, a) && Measured(v, b)
    ensures a[|a| - 1].dist <= b[|b| - 1].dist
  {
    assert a[|a| - 1].id in Ids(a);
    var k :| 0 <= k < |b| && b[k].id == a[|a| - 1].id;
  }

  lemma {:induction false} LastApart(v: LayerView, a: seq<Hit>, b: seq<Hit>)
    requires AllApart(v) && a != [] && |a| == |b| && a[|a| - 1].dist == b[|b| - 1].dist
    requires Measured(v, a) && Measured(v, b)
    ensures a[|a| - 1] == b[|b| - 1]
  {
    var x, y := a[|a| - 1], b[|b| - 1];
    assert x.id < |v.dist| && y.id < |v.dist|;
  }

  lemma {:induction false} ButLastFits(v: LayerView, a: seq<Hit>)
    requires a != [] && Ascending(a) && DistinctIds(a) && Measured(v, a)
    ensures Ascending(a[..|a| - 1]) && DistinctIds(a[..|a| - 1]) && Measured(v, a[..|a| - 1])
  {
  }

  lemma {:induction false} IdsButLast(a: seq<Hit>)
    requires a != [] && DistinctIds(a)
    ensures Ids(a[..|a| - 1]) == Ids(a) - {a[|a| - 1].id}
  {
    assert a == a[..|a| - 1] + [a[|a| - 1]];
  }
}
