/** Search hits, their ordering by distance, and sorting. */
module Ranking {
  import opened Common

  /** A node or vector identifier together with its distance to the query. */
  datatype Hit = Hit(id: nat, dist: real)

  ghost predicate Ascending(s: seq<Hit>) {
    forall i, j :: 0 <= i < j < |s| ==> s[i].dist <= s[j].dist
  }

  ghost predicate DistinctIds(s: seq<Hit>) {
    forall i, j :: 0 <= i < j < |s| ==> s[i].id != s[j].id
  }

  ghost function Ids(s: seq<Hit>): set<nat> {
    set h | h in s :: h.id
  }

  function Min(a: int, b: int): (r: int)
    ensures r <= a && r <= b && (r == a || r == b)
  {
    if a < b then a else b
  }

  function Max(a: int, b: int): (r: int)
    ensures r >= a && r >= b && (r == a || r == b)
  {
    if a < b then b else a
  }

  lemma {:induction false} SpliceAscends(s: seq<Hit>, k: nat, h: Hit)
    requires Ascending(s) && k <= |s|
    requires k > 0 ==> s[k - 1].dist <= h.dist
    requires k < |s| ==> h.dist <= s[k].dist
    ensures Ascending(s[..k] + [h] + s[k..])
  {
    var r := s[..k] + [h] + s[k..];
    forall i, j | 0 <= i < j < |r| ensures r[i].dist <= r[j].dist {
      assert r[i] == if i < k then s[i] else if i == k then h else s[i - 1];
      assert r[j] == if j < k then s[j] else if j == k then h else s[j - 1];
    }
  }

  lemma {:induction false} SpliceContents(s: seq<Hit>, k: nat, h: Hit)
    requires k <= |s|
    ensures multiset(s[..k] + [h] + s[k..]) == multiset(s) + multiset{h}
  {
    assert s == s[..k] + s[k..];
  }

  /** Inserts h before the first strictly farther hit of an ascending sequence. */
  method InsertByDistance(s: seq<Hit>, h: Hit) returns (r: seq<Hit>)
    requires Ascending(s)
    ensures Ascending(r)
    ensures multiset(r) == multiset(s) + multiset{h}
  {
    var k := |s|;
    while k > 0 && h.dist < s[k - 1].dist
      invariant 0 <= k <= |s|
      invariant k < |s| ==> h.dist < s[k].dist
    {
      k := k - 1;
    }
    SpliceAscends(s, k, h);
    SpliceContents(s, k, h);
    r := s[..k] + [h] + s[k..];
  }

  /** Stands for sort.Slice by distance: callers learn only that the result is an ascending permutation. */
  method SortByDistance(s: seq<Hit>) returns (r: seq<Hit>)
    ensures Ascending(r)
    ensures multiset(r) == multiset(s)
    ensures |r| == |s|
  {
    r := [];
    for i := 0 to |s|
      invariant Ascending(r)
      invariant multiset(r) == multiset(s[..i])
    {
      assert s[..i + 1] == s[..i] + [s[i]];
      r := InsertByDistance(r, s[i]);
    }
    assert s[..|s|] == s;
    assert |multiset(r)| == |multiset(s)|;
  }

  lemma {:induction false} DistinctIdsCount(r: seq<Hit>)
    requires DistinctIds(r)
    ensures |Ids(r)| == |r|
  {
    var ids := seq(|r|, i requires 0 <= i < |r| => r[i].id);
    ElementsSize(ids);
    forall x | x in Elements(ids) ensures x in Ids(r) {
      var i :| 0 <= i < |ids| && ids[i] == x;
      assert r[i] in r;
    }
    forall h | h in r ensures h.id in Elements(ids) {
      var i :| 0 <= i < |r| && r[i] == h;
      assert ids[i] == h.id;
    }
    assert Ids(r) == Elements(ids);
  }

  lemma {:induction false} DistinctOnce(z: seq<Hit>, e: Hit)
    requires DistinctIds(z)
    ensures multiset(z)[e] == if e in z then 1 else 0
  {
    if z != [] {
      var n := |z| - 1;
      assert z == z[..n] + [z[n]];
      DistinctOnce(z[..n], e);
    }
  }

  /** A permutation has the same members, and distinct ids stay distinct. */
  lemma {:induction false} PermutedDistinct(s: seq<Hit>, t: seq<Hit>)
    requires DistinctIds(s) && multiset(s) == multiset(t)
    ensures DistinctIds(t) && |s| == |t| && Ids(s) == Ids(t)
    ensures forall h :: h in t <==> h in s
  {
    assert |multiset(s)| == |s| && |multiset(t)| == |t|;
    forall h ensures h in t <==> h in s {
      assert h in t <==> h in multiset(t);
      assert h in s <==> h in multiset(s);
    }
    forall i, j | 0 <= i < j < |t| ensures t[i].id != t[j].id {
      CountedTwice(t, i, j);
      DistinctOnce(s, t[i]);
      assert t[i] in s && t[j] in s;
    }
  }
}
