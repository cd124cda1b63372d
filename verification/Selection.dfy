/** Bounded max-heap selection of the k nearest, and what "the k nearest" means. */
module Selection {
  import opened Common
  import opened Ranking
  import opened Heaps

  /** r lists, in ascending order, k nearest of the identified distances m (all of them when there are fewer). */
  ghost predicate IsTopK(r: seq<Hit>, m: map<nat, real>, k: int) {
    && Ascending(r) && DistinctIds(r)
    && |r| == Min(|m|, Max(k, 0))
    && (forall i :: 0 <= i < |r| ==> r[i].id in m && r[i].dist == m[r[i].id])
    && forall x, i :: x in m && x !in Ids(r) && 0 <= i < |r| ==> r[i].dist <= m[x]
  }

  /** Ties may resolve to different ids, but the distances of a top-k are determined. */
  lemma {:induction false} TopKDistancesUnique(a: seq<Hit>, b: seq<Hit>, m: map<nat, real>, k: int)
    requires IsTopK(a, m, k) && IsTopK(b, m, k)
    ensures |a| == |b| && forall i :: 0 <= i < |a| ==> a[i].dist == b[i].dist
  {
    forall i | 0 <= i < |a| ensures a[i].dist == b[i].dist {
      NoBetter(a, b, m, k, i);
      NoBetter(b, a, m, k, i);
    }
  }

  lemma {:induction false} NoBetter(a: seq<Hit>, b: seq<Hit>, m: map<nat, real>, k: int, i: nat)
    requires IsTopK(a, m, k) && IsTopK(b, m, k) && i < |a|
    ensures a[i].dist >= b[i].dist
  {
    var closer, before := a[..i + 1], b[..i];
    if a[i].dist < b[i].dist {
      forall x | x in Ids(closer) ensures x in Ids(before) {
        var j :| 0 <= j < |closer| && closer[j].id == x;
        assert m[x] < b[i].dist;
        assert x in Ids(b);
        var l :| 0 <= l < |b| && b[l].id == x;
        assert b[l] in before;
      }
    }
    DistinctIdsCount(closer);
    DistinctIdsCount(before);
    if Ids(closer) <= Ids(before) {
      SubsetSize(Ids(closer), Ids(before));
    }
  }

  /** The (id, distance) pairs fed to the selection. */
  ghost function Zip(distances: seq<real>, ids: seq<nat>): (z: seq<Hit>)
    requires |distances| == |ids|
    ensures |z| == |ids|
  {
    seq(|ids|, i requires 0 <= i < |ids| => Hit(ids[i], distances[i]))
  }

  /** result holds the k smallest of all, rest the others. */
  ghost predicate Selects(result: seq<Hit>, rest: multiset<Hit>, all: multiset<Hit>, k: int) {
    && multiset(result) + rest == all
    && |result| == Min(|all|, Max(k, 0))
    && forall i, y :: 0 <= i < |result| && y in rest ==> result[i].dist <= y.dist
  }

  lemma {:induction false} PushSelects(h: seq<Hit>, h': seq<Hit>, rest: multiset<Hit>, all: multiset<Hit>, k: int,
                                       x: Hit)
    requires Selects(h, rest, all, k) && |h| < k && multiset(h') == multiset(h) + multiset{x} && |h'| == |h| + 1
    ensures Selects(h', rest, all + multiset{x}, k)
  {
    assert |multiset(h) + rest| == |h| + |rest|;
    assert |rest| == 0;
  }

  lemma {:induction false} ReplaceSelects(h: seq<Hit>, h': seq<Hit>, rest: multiset<Hit>, all: multiset<Hit>, k: int,
                                          x: Hit)
    requires Selects(h, rest, all, k) && |h| >= k > 0 && multiset(h') == multiset(h) - multiset{h[0]} + multiset{x}
    requires |h'| == |h|
    requires x.dist < h[0].dist && forall i :: 0 <= i < |h| ==> h[i].dist <= h[0].dist
    ensures Selects(h', rest + multiset{h[0]}, all + multiset{x}, k)
  {
    assert h[0] in multiset(h);
    assert multiset(h') + (rest + multiset{h[0]}) == multiset(h) + rest + multiset{x};
    forall i | 0 <= i < |h'| ensures h'[i].dist <= h[0].dist && forall y :: y in rest ==> h'[i].dist <= y.dist {
      assert h'[i] in multiset(h');
      if h'[i] != x {
        assert h'[i] in multiset(h);
        var j :| 0 <= j < |h| && h[j] == h'[i];
      }
    }
  }

  lemma {:induction false} RejectSelects(h: seq<Hit>, rest: multiset<Hit>, all: multiset<Hit>, k: int, x: Hit)
    requires Selects(h, rest, all, k) && |h| >= k > 0
    requires forall i :: 0 <= i < |h| ==> h[i].dist <= x.dist
    ensures Selects(h, rest + multiset{x}, all + multiset{x}, k)
  {
  }

  /** Offers one hit to the bounded heap. */
  method Feed(h: seq<Hit>, k: int, x: Hit, ghost rest: multiset<Hit>, ghost all: multiset<Hit>)
    returns (h': seq<Hit>, ghost rest': multiset<Hit>)
    requires k > 0 && IsHeap(true, h) && Selects(h, rest, all, k)
    ensures IsHeap(true, h') && Selects(h', rest', all + multiset{x}, k)
  {
    hide IsHeap, Selects;
    SelectedSize(h, rest, all, k);
    if |h| < k {
      h' := Push(true, h, x);
      rest' := rest;
      PushSelects(h, h', rest, all, k, x);
    } else {
      RootIsBestOfAll(true, h);
      if x.dist < h[0].dist {
        h' := ReplaceRoot(true, h, x);
        rest' := rest + multiset{h[0]};
        ReplaceSelects(h, h', rest, all, k, x);
      } else {
        RejectSelects(h, rest, all, k, x);
        h', rest' := h, rest + multiset{x};
      }
    }
  }

  /** One pass with a farthest-first heap of at most k hits. */
  method TopK(distances: seq<real>, ids: seq<nat>, k: int) returns (result: seq<Hit>, ghost rest: multiset<Hit>)
    requires |distances| == |ids|
    ensures Ascending(result)
    ensures Selects(result, rest, multiset(Zip(distances, ids)), k)
  {
    ghost var z := Zip(distances, ids);
    if k <= 0 {
      rest := multiset(z);
      return [], rest;
    }
    var h: seq<Hit> := [];
    rest := multiset{};
    for i := 0 to |ids|
      invariant IsHeap(true, h) && Selects(h, rest, multiset(z[..i]), k)
    {
      hide IsHeap, Selects;
      assert z[..i + 1] == z[..i] + [z[i]];
      h, rest := Feed(h, k, Hit(ids[i], distances[i]), rest, multiset(z[..i]));
    }
    assert z[..|ids|] == z;
    result := DrainAscending(h);
    PermutedSelects(h, result, rest, multiset(z), k);
  }

  lemma {:induction false} SelectedSize(h: seq<Hit>, rest: multiset<Hit>, all: multiset<Hit>, k: int)
    requires Selects(h, rest, all, k)
    ensures |h| <= Max(k, 0)
  {
  }

  lemma {:induction false} PermutedSelects(h: seq<Hit>, r: seq<Hit>, rest: multiset<Hit>, all: multiset<Hit>, k: int)
    requires Selects(h, rest, all, k) && multiset(r) == multiset(h) && |r| == |h|
    ensures Selects(r, rest, all, k)
  {
    forall i, y | 0 <= i < |r| && y in rest ensures r[i].dist <= y.dist {
      assert r[i] in multiset(h);
      var j :| 0 <= j < |h| && h[j] == r[i];
    }
  }

  /** all holds exactly one hit for each entry of m. */
  ghost predicate Tabulates(all: multiset<Hit>, m: map<nat, real>) {
    && |all| == |m|
    && forall e: Hit :: all[e] == if e.id in m && m[e.id] == e.dist then 1 else 0
  }

  /** Selecting from one hit per id yields an exact top-k. */
  lemma {:induction false} SelectionIsTopK(r: seq<Hit>, rest: multiset<Hit>, all: multiset<Hit>, m: map<nat, real>,
                                           k: int)
    requires Ascending(r) && Selects(r, rest, all, k) && Tabulates(all, m)
    ensures IsTopK(r, m, k)
  {
    forall i | 0 <= i < |r| ensures r[i].id in m && r[i].dist == m[r[i].id] {
      assert r[i] in multiset(r);
      assert all[r[i]] > 0;
    }
    forall i, j | 0 <= i < j < |r| ensures r[i].id != r[j].id {
      CountedTwice(r, i, j);
      assert all[r[i]] == multiset(r)[r[i]] + rest[r[i]];
    }
    forall x, i | x in m && x !in Ids(r) && 0 <= i < |r| ensures r[i].dist <= m[x] {
      var e := Hit(x, m[x]);
      assert all[e] == 1;
      assert e !in r;
      assert multiset(r)[e] == 0;
      assert rest[e] == 1;
    }
  }

  /** Counting one hit per id counts the ids. */
  lemma {:induction false} TabulatesSize(all: multiset<Hit>, m: map<nat, real>)
    requires forall e: Hit :: all[e] == if e.id in m && m[e.id] == e.dist then 1 else 0
    ensures |all| == |m| && Tabulates(all, m)
    decreases |m|
  {
    if m == map[] {
      assert forall e :: all[e] == 0;
      assert all == multiset{};
    } else {
      var id :| id in m;
      var e := Hit(id, m[id]);
      var m' := m - {id};
      assert m'.Keys == m.Keys - {id};
      assert all[e] == 1;
      TabulatesSize(all - multiset{e}, m');
    }
  }

  /** Distinct hits that list m tabulate it. */
  lemma {:induction false} DistinctCounts(z: seq<Hit>, m: map<nat, real>)
    requires DistinctIds(z)
    requires forall i :: 0 <= i < |z| ==> z[i].id in m && m[z[i].id] == z[i].dist
    requires forall id :: id in m ==> exists i :: 0 <= i < |z| && z[i].id == id
    ensures Tabulates(multiset(z), m)
  {
    forall e: Hit ensures multiset(z)[e] == if e.id in m && m[e.id] == e.dist then 1 else 0 {
      DistinctOnce(z, e);
      if e.id in m && m[e.id] == e.dist {
        var i :| 0 <= i < |z| && z[i].id == e.id;
        assert z[i] == e;
      }
    }
    TabulatesSize(multiset(z), m);
  }

  lemma {:induction false} TabulatesUnion(a: multiset<Hit>, b: multiset<Hit>, ma: map<nat, real>, mb: map<nat, real>)
    requires Tabulates(a, ma) && Tabulates(b, mb) && ma.Keys !! mb.Keys
    ensures Tabulates(a + b, ma + mb)
  {
    TabulatesSize(a + b, ma + mb);
  }

  /** One hit per entry of m. */
  ghost function Tabulation(m: map<nat, real>): multiset<Hit> {
    multiset(set id | id in m :: Hit(id, m[id]))
  }

  lemma {:induction false} TabulationTabulates(m: map<nat, real>)
    ensures Tabulates(Tabulation(m), m)
  {
    TabulatesSize(Tabulation(m), m);
  }

  // ---------------------------------------------------------------- selecting from selections

  /** The first k of an ascending arrangement are a selection. */
  lemma {:induction false} CutSelects(sorted: seq<Hit>, all: multiset<Hit>, k: nat)
    requires Ascending(sorted) && multiset(sorted) == all
    ensures var n := Min(k, |sorted|); Selects(sorted[..n], multiset(sorted[n..]), all, k)
  {
    var n := Min(k, |sorted|);
    assert sorted == sorted[..n] + sorted[n..];
    assert |all| == |sorted|;
    forall i, y | 0 <= i < n && y in multiset(sorted[n..]) ensures sorted[..n][i].dist <= y.dist {
      var j :| 0 <= j < |sorted[n..]| && sorted[n..][j] == y;
      assert sorted[n + j] == y;
    }
  }

  /** Selecting from a selection and more is selecting from all. */
  lemma {:induction false} SelectsNested(r: seq<Hit>, rest: multiset<Hit>, other: multiset<Hit>, b: seq<Hit>,
                                         restB: multiset<Hit>, allB: multiset<Hit>, k: nat)
    requires Selects(b, restB, allB, k) && Selects(r, rest, other + multiset(b), k)
    ensures Selects(r, rest + restB, other + allB, k)
  {
    assert multiset(r) + (rest + restB) == (multiset(r) + rest) + restB;
    assert (other + multiset(b)) + restB == other + (multiset(b) + restB);
    assert |other + allB| == |other| + |b| + |restB| && |other + multiset(b)| == |other| + |b|;
    assert |allB| == |b| + |restB|;
    forall i, y | 0 <= i < |r| && y in rest + restB ensures r[i].dist <= y.dist {
      if y !in rest {
        NoneBetterLeft(r, rest, other, b, restB, allB, k, i, y);
      }
    }
  }

  lemma {:induction false} NoneBetterLeft(r: seq<Hit>, rest: multiset<Hit>, other: multiset<Hit>, b: seq<Hit>,
                                          restB: multiset<Hit>, allB: multiset<Hit>,
                       k: nat, i: nat, y: Hit)
    requires Selects(b, restB, allB, k) && Selects(r, rest, other + multiset(b), k) && i < |r| && y in restB
    ensures r[i].dist <= y.dist
  {
    assert |allB| == |b| + |restB| && |restB| > 0;
    if x :| x in multiset(b) && x in rest {
      assert x in b;
    } else {
      AllKept(r, rest, other, b, k);
      assert r[i] in multiset(r);
      assert r[i] in b;
    }
  }

  /** A selection of k that leaves out none of k candidates consists of them. */
  lemma {:induction false} AllKept(r: seq<Hit>, rest: multiset<Hit>, other: multiset<Hit>, b: seq<Hit>, k: nat)
    requires Selects(r, rest, other + multiset(b), k) && |b| == k && forall x :: x in multiset(b) ==> x !in rest
    ensures multiset(r) == multiset(b)
  {
    forall x ensures multiset(b)[x] <= multiset(r)[x] {
      assert (multiset(r) + rest)[x] == (other + multiset(b))[x];
    }
    assert multiset(b) <= multiset(r);
    assert multiset(r) == multiset(b) + (multiset(r) - multiset(b));
    assert |r| == |multiset(r)| == |multiset(b)| + |multiset(r) - multiset(b)|;
  }

  /** An exact top-k is a selection from one hit per id. */
  lemma {:induction false} TopKSelects(r: seq<Hit>, m: map<nat, real>, k: int)
    requires IsTopK(r, m, k)
    ensures Selects(r, Tabulation(m) - multiset(r), Tabulation(m), k)
  {
    TabulationTabulates(m);
    var all := Tabulation(m);
    forall e ensures multiset(r)[e] <= all[e] {
      DistinctOnce(r, e);
    }
    assert multiset(r) + (all - multiset(r)) == all;
    forall i, y | 0 <= i < |r| && y in all - multiset(r) ensures r[i].dist <= y.dist {
      DistinctOnce(r, y);
      assert y !in r;
      forall h | h in r ensures h.id != y.id {
        var j :| 0 <= j < |r| && r[j] == h;
        assert h.dist == m[h.id] && y.dist == m[y.id];
      }
    }
  }
}
