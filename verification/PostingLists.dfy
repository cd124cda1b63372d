/** Posting lists and the cluster map that inverts them. */
module PostingLists {
  import opened Common
  import opened Rows

  /** Posting lists partition the ids as clusterOf says. */
  ghost predicate PostingsOk(postings: seq<seq<nat>>, clusterOf: map<nat, nat>) {
    && (forall id :: id in clusterOf ==> clusterOf[id] < |postings| && id in postings[clusterOf[id]])
    && forall c :: 0 <= c < |postings| ==> NoRepeats(postings[c]) && forall id :: id in postings[c] ==>
      id in clusterOf && clusterOf[id] == c
  }

  /** Removes id from one list by swapping it with the last entry. */
  method RemoveFromList(list: seq<nat>, id: nat) returns (r: seq<nat>)
    requires NoRepeats(list)
    ensures NoRepeats(r)
    ensures forall x :: x in r <==> x in list && x != id
  {
    for i := 0 to |list|
      invariant forall j :: 0 <= j < i ==> list[j] != id
    {
      if list[i] == id {
        var n := |list| - 1;
        r := list[i := list[n]][..n];
        SwapOut(list, i, r);
        return;
      }
    }
    r := list;
  }

  lemma {:induction false} SwapOut(list: seq<nat>, i: nat, r: seq<nat>)
    requires NoRepeats(list) && i < |list| && r == list[i := list[|list| - 1]][..|list| - 1]
    ensures NoRepeats(r)
    ensures forall x :: x in r <==> x in list && x != list[i]
  {
    var n := |list| - 1;
    forall j | 0 <= j < n ensures r[j] == if j == i then list[n] else list[j] {}
    forall x | x in list && x != list[i] ensures x in r {
      var j :| 0 <= j < |list| && list[j] == x;
      assert r[if j == n then i else j] == x;
    }
  }

  lemma {:induction false} PostingOf(postings: seq<seq<nat>>, clusterOf: map<nat, nat>, id: nat)
    requires PostingsOk(postings, clusterOf) && id in clusterOf
    ensures clusterOf[id] < |postings| && NoRepeats(postings[clusterOf[id]])
  {
  }

  lemma {:induction false} RemovedPostingsOk(postings: seq<seq<nat>>, clusterOf: map<nat, nat>, id: nat, r: seq<nat>)
    requires PostingsOk(postings, clusterOf) && id in clusterOf
    requires NoRepeats(r) && forall x :: x in r <==> x in postings[clusterOf[id]] && x != id
    ensures PostingsOk(postings[clusterOf[id] := r], clusterOf - {id})
  {
  }

  /** Puts id at the end of list c. */
  lemma {:induction false} AddedPostingsOk(postings: seq<seq<nat>>, clusterOf: map<nat, nat>, id: nat, c: nat)
    requires PostingsOk(postings, clusterOf) && id !in clusterOf && c < |postings|
    ensures PostingsOk(postings[c := postings[c] + [id]], clusterOf[id := c])
  {
    var p, o := postings[c := postings[c] + [id]], clusterOf[id := c];
    assert id !in postings[c];
    forall x | x in o ensures o[x] < |p| && x in p[o[x]] {
      if x == id {
        assert p[c][|postings[c]|] == id;
      }
    }
  }

  /** Fills the posting lists from the cluster assignments. */
  method BuildPostings<T>(ids: seq<nat>, assignments: seq<nat>, k: nat, ghost m: map<nat, seq<T>>,
                          ghost vecs: seq<seq<T>>, ghost dim: nat)
    returns (postings: seq<seq<nat>>, clusterOf: map<nat, nat>)
    requires |assignments| == |ids| && forall i :: 0 <= i < |assignments| ==> assignments[i] < k
    requires SnapshotOf(ids, vecs, m, dim)
    ensures PostingsOk(postings, clusterOf) && |postings| == k && clusterOf.Keys == m.Keys
    ensures forall i :: 0 <= i < |ids| ==> ids[i] in clusterOf && clusterOf[ids[i]] == assignments[i]
  {
    postings := seq(k, _ => []);
    clusterOf := map[];
    for i := 0 to |ids|
      invariant PostingsOk(postings, clusterOf) && |postings| == k
      invariant forall x :: x in clusterOf <==> x in ids[..i]
      invariant forall j :: 0 <= j < i ==> ids[j] in clusterOf && clusterOf[ids[j]] == assignments[j]
    {
      assert ids[..i + 1] == ids[..i] + [ids[i]];
      AddedPostingsOk(postings, clusterOf, ids[i], assignments[i]);
      hide PostingsOk;
      postings := postings[assignments[i] := postings[assignments[i]] + [ids[i]]];
      clusterOf := clusterOf[ids[i] := assignments[i]];
    }
    assert ids[..|ids|] == ids;
    forall x ensures x in clusterOf <==> x in m {
      if x in ids { var j :| 0 <= j < |ids| && ids[j] == x; }
    }
  }
}
