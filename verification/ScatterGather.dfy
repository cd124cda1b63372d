/** Merging the answers of the shards a scatter-gather search reached. */
module ScatterGather {
  import opened Common
  import opened Ranking
  import opened Selection

  /** m is the combined contents of the shards. */
  ghost predicate Combines(m: map<nat, real>, shards: seq<map<nat, real>>) {
    && (forall id :: id in m ==> exists i :: 0 <= i < |shards| && id in shards[i])
    && forall i, id :: 0 <= i < |shards| && id in shards[i] ==> id in m && m[id] == shards[i][id]
  }

  /** Responses in the order they arrived. */
  ghost function Gathered(responses: seq<seq<Hit>>): seq<Hit> {
    if responses == [] then [] else Gathered(responses[..|responses| - 1]) + responses[|responses| - 1]
  }

  lemma {:induction false} GatheredMembers(responses: seq<seq<Hit>>, h: Hit)
    ensures h in Gathered(responses) <==> exists i :: 0 <= i < |responses| && h in responses[i]
  {
    if responses != [] {
      var n := |responses| - 1;
      GatheredMembers(responses[..n], h);
      assert forall i :: 0 <= i < n ==> responses[..n][i] == responses[i];
    }
  }

  lemma {:induction false} IdsAppend(s: seq<Hit>, h: Hit)
    ensures Ids(s + [h]) == Ids(s) + {h.id}
  {
    assert forall x :: x in s + [h] <==> x in s || x == h;
  }

  /** The hits of more whose id is new, after those of acc. */
  ghost function Unseen(acc: seq<Hit>, more: seq<Hit>): seq<Hit> {
    if more == [] then acc
    else
      var n := |more| - 1;
      var before := Unseen(acc, more[..n]);
      if more[n].id in Ids(before) then before else before + [more[n]]
  }

  lemma {:induction false} UnseenStep(acc: seq<Hit>, more: seq<Hit>)
    requires more != []
    ensures var n := |more| - 1;
            var before := Unseen(acc, more[..n]);
            Unseen(acc, more) == if more[n].id in Ids(before) then before else before + [more[n]]
  {
  }

  lemma {:induction false} NewIdStaysDistinct(s: seq<Hit>, h: Hit)
    requires DistinctIds(s) && h.id !in Ids(s)
    ensures DistinctIds(s + [h])
  {
    forall j | 0 <= j < |s| ensures s[j].id != h.id {
      assert s[j] in s;
    }
  }

  lemma {:induction false} UnseenIds(acc: seq<Hit>, more: seq<Hit>)
    requires DistinctIds(acc)
    ensures DistinctIds(Unseen(acc, more)) && Ids(Unseen(acc, more)) == Ids(acc) + Ids(more)
    ensures forall h :: h in Unseen(acc, more) ==> h in acc || h in more
    ensures forall h :: h in acc ==> h in Unseen(acc, more)
  {
    if more == [] {
      assert Ids(more) == {};
    } else {
      var n := |more| - 1;
      UnseenIds(acc, more[..n]);
      assert more == more[..n] + [more[n]];
      var before := Unseen(acc, more[..n]);
      UnseenStep(acc, more);
      hide *;
      IdsAppend(more[..n], more[n]);
      IdsAppend(before, more[n]);
      if more[n].id !in Ids(before) {
        NewIdStaysDistinct(before, more[n]);
      }
    }
  }

  /** Appends the hits whose id has not been seen. */
  method AppendUnseen(all0: seq<Hit>, seen0: set<nat>, more: seq<Hit>) returns (all: seq<Hit>, seen: set<nat>)
    requires DistinctIds(all0) && seen0 == Ids(all0)
    ensures all == Unseen(all0, more) && seen == Ids(all) && DistinctIds(all)
  {
    all, seen := all0, seen0;
    for i := 0 to |more|
      invariant all == Unseen(all0, more[..i]) && seen == Ids(all)
    {
      hide Ids, DistinctIds;
      assert more[..i + 1][..i] == more[..i];
      IdsAppend(all, more[i]);
      if more[i].id !in seen {
        seen := seen + {more[i].id};
        all := all + [more[i]];
      }
    }
    assert more[..|more|] == more;
    UnseenIds(all0, more);
  }

  /** Every hit of d is no farther than any hit of s with its id. */
  ghost predicate ClosestOf(d: seq<Hit>, s: seq<Hit>) {
    forall x, h :: x in d && h in s && x.id == h.id ==> x.dist <= h.dist
  }

  /** Of an ascending list, deduplication keeps the closest hit of each id, in order. */
  lemma {:induction false} UnseenOfSorted(sorted: seq<Hit>)
    requires Ascending(sorted)
    ensures Ascending(Unseen([], sorted)) && ClosestOf(Unseen([], sorted), sorted)
  {
    if sorted != [] {
      var n := |sorted| - 1;
      UnseenOfSorted(sorted[..n]);
      UnseenIds([], sorted[..n]);
      UnseenStep([], sorted);
      hide Unseen, DistinctIds;
      LastIsFarthest(sorted, Unseen([], sorted[..n]));
    }
  }

  lemma {:induction false} LastIsFarthest(sorted: seq<Hit>, d: seq<Hit>)
    requires sorted != [] && Ascending(sorted) && Ascending(d) && ClosestOf(d, sorted[..|sorted| - 1])
    requires Ids(d) == Ids(sorted[..|sorted| - 1]) && forall h :: h in d ==> h in sorted[..|sorted| - 1]
    ensures var last := sorted[|sorted| - 1];
            && (last.id in Ids(d) ==> ClosestOf(d, sorted))
            && (last.id !in Ids(d) ==> Ascending(d + [last]) && ClosestOf(d + [last], sorted))
  {
    var n := |sorted| - 1;
    var last := sorted[n];
    assert sorted == sorted[..n] + [last];
    forall x | x in d ensures x.dist <= last.dist {
      var j :| 0 <= j < n && sorted[..n][j] == x;
    }
    forall h | h in sorted[..n] ensures h.id in Ids(d) {
      assert h.id in Ids(sorted[..n]);
    }
  }

  /** Keeps the first, hence closest, hit of each id. */
  method Dedupe(sorted: seq<Hit>) returns (deduped: seq<Hit>)
    requires Ascending(sorted)
    ensures Ascending(deduped) && DistinctIds(deduped) && Ids(deduped) == Ids(sorted)
    ensures ClosestOf(deduped, sorted) && forall h :: h in deduped ==> h in sorted
  {
    var seen;
    deduped, seen := AppendUnseen([], {}, sorted);
    UnseenIds([], sorted);
    UnseenOfSorted(sorted);
  }

  /** Sorts by distance, keeps the closest hit of each id, and truncates. */
  method Merge(results: seq<Hit>, k: nat) returns (merged: seq<Hit>, ghost deduped: seq<Hit>)
    ensures Ascending(deduped) && DistinctIds(deduped) && Ids(deduped) == Ids(results)
    ensures ClosestOf(deduped, results) && forall h :: h in deduped ==> h in results
    ensures |merged| <= k && Ascending(merged) && DistinctIds(merged)
    ensures merged == if |deduped| > k then deduped[..k] else deduped
  {
    var sorted := SortByDistance(results);
    forall h ensures h in sorted <==> h in results {
      assert h in multiset(sorted) <==> h in multiset(results);
    }
    merged := Dedupe(sorted);
    deduped := merged;
    if |merged| > k {
      merged := merged[..k];
    }
  }

  ghost predicate ExactAnswers(responses: seq<seq<Hit>>, shards: seq<map<nat, real>>, k: int) {
    && |responses| == |shards|
    && forall i :: 0 <= i < |shards| ==> IsTopK(responses[i], shards[i], k)
  }

  lemma {:induction false} GatheredFromShards(responses: seq<seq<Hit>>, shards: seq<map<nat, real>>, m: map<nat, real>,
                                              k: int, h: Hit)
    requires ExactAnswers(responses, shards, k) && Combines(m, shards) && h in Gathered(responses)
    ensures h.id in m && h.dist == m[h.id]
  {
    GatheredMembers(responses, h);
    var i :| 0 <= i < |responses| && h in responses[i];
    var j :| 0 <= j < |responses[i]| && responses[i][j] == h;
    assert IsTopK(responses[i], shards[i], k);
  }

  /** An id left out of every response belongs to a shard whose k answers are all no farther. */
  lemma {:induction false} LeftOut(responses: seq<seq<Hit>>, shards: seq<map<nat, real>>, m: map<nat, real>, k: nat,
                                   x: nat)
    returns (i: nat)
    requires ExactAnswers(responses, shards, k) && Combines(m, shards)
    requires x in m && x !in Ids(Gathered(responses))
    ensures i < |shards| && |responses[i]| == k
    ensures forall j :: 0 <= j < k ==> responses[i][j].dist <= m[x]
  {
    i :| 0 <= i < |shards| && x in shards[i];
    var r := responses[i];
    assert IsTopK(r, shards[i], k);
    if x in Ids(r) {
      var h :| h in r && h.id == x;
      GatheredMembers(responses, h);
      assert false;
    }
    assert Ids(r) <= shards[i].Keys - {x};
    SubsetSize(Ids(r), shards[i].Keys - {x});
    DistinctIdsCount(r);
  }

  /**
   Merging exact shard answers gives an exact answer over the combined contents, for any overlap
   and arrival order.
   */
  lemma {:induction false} MergedIsTopK(responses: seq<seq<Hit>>, shards: seq<map<nat, real>>, m: map<nat, real>,
                                        k: nat,
                     deduped: seq<Hit>, merged: seq<Hit>)
    requires ExactAnswers(responses, shards, k) && Combines(m, shards)
    requires Ascending(deduped) && DistinctIds(deduped) && Ids(deduped) == Ids(Gathered(responses))
    requires forall h :: h in deduped ==> h in Gathered(responses)
    requires merged == if |deduped| > k then deduped[..k] else deduped
    ensures IsTopK(merged, m, k)
  {
    hide ExactAnswers, Combines, Gathered, Ids;
    forall i | 0 <= i < |deduped| ensures deduped[i].id in m && deduped[i].dist == m[deduped[i].id] {
      GatheredFromShards(responses, shards, m, k, deduped[i]);
    }
    MergedSize(responses, shards, m, k, deduped);
    forall x, j | x in m && x !in Ids(merged) && 0 <= j < |merged| ensures merged[j].dist <= m[x] {
      OmittedIsFarther(responses, shards, m, k, deduped, merged, x, j);
    }
  }

  lemma {:induction false} MergedSize(responses: seq<seq<Hit>>, shards: seq<map<nat, real>>, m: map<nat, real>, k: nat,
                                      deduped: seq<Hit>)
    requires ExactAnswers(responses, shards, k) && Combines(m, shards)
    requires DistinctIds(deduped) && Ids(deduped) == Ids(Gathered(responses))
    requires forall i :: 0 <= i < |deduped| ==> deduped[i].id in m
    ensures Min(|deduped|, k) == Min(|m|, k)
  {
    hide ExactAnswers, Combines, Gathered;
    DistinctIdsCount(deduped);
    SubsetSize(Ids(deduped), m.Keys);
    if |deduped| < k {
      forall x | x in m ensures x in Ids(deduped) {
        if x !in Ids(deduped) {
          var i := LeftOut(responses, shards, m, k, x);
          AnswersCounted(responses, shards, k, i, deduped);
          assert false;
        }
      }
      assert Ids(deduped) == m.Keys;
    }
  }

  lemma {:induction false} AnswersCounted(responses: seq<seq<Hit>>, shards: seq<map<nat, real>>, k: nat, i: nat,
                                          deduped: seq<Hit>)
    requires ExactAnswers(responses, shards, k) && i < |shards|
    requires DistinctIds(deduped) && Ids(deduped) == Ids(Gathered(responses))
    ensures Ids(responses[i]) <= Ids(deduped) && |responses[i]| <= |deduped|
  {
    assert IsTopK(responses[i], shards[i], k);
    forall h | h in responses[i] ensures h.id in Ids(deduped) {
      GatheredMembers(responses, h);
    }
    SubsetSize(Ids(responses[i]), Ids(deduped));
    DistinctIdsCount(responses[i]);
    DistinctIdsCount(deduped);
  }

  /** A hit that was deduplicated but cut off is no closer than any merged hit. */
  lemma {:induction false} CutOff(deduped: seq<Hit>, merged: seq<Hit>, k: nat, y: nat, j: nat) returns (l: nat)
    requires Ascending(deduped) && merged == (if |deduped| > k then deduped[..k] else deduped)
    requires y in Ids(deduped) && y !in Ids(merged) && j < |merged|
    ensures l < |deduped| && deduped[l].id == y && merged[j].dist <= deduped[l].dist
  {
    l :| 0 <= l < |deduped| && deduped[l].id == y;
  }

  /** The position and distance of an id within one shard's answer. */
  lemma {:induction false} Locate(r: seq<Hit>, shard: map<nat, real>, k: int, y: nat) returns (t: nat)
    requires IsTopK(r, shard, k) && y in Ids(r)
    ensures t < |r| && r[t].id == y && y in shard && r[t].dist == shard[y]
  {
    t :| 0 <= t < |r| && r[t].id == y;
  }

  lemma {:induction false} OmittedIsFarther(responses: seq<seq<Hit>>, shards: seq<map<nat, real>>, m: map<nat, real>,
                                            k: nat,
                         deduped: seq<Hit>, merged: seq<Hit>, x: nat, j: nat)
    requires ExactAnswers(responses, shards, k) && Combines(m, shards)
    requires Ascending(deduped) && DistinctIds(deduped) && Ids(deduped) == Ids(Gathered(responses))
    requires forall i :: 0 <= i < |deduped| ==> deduped[i].id in m && deduped[i].dist == m[deduped[i].id]
    requires merged == if |deduped| > k then deduped[..k] else deduped
    requires x in m && x !in Ids(merged) && j < |merged|
    ensures merged[j].dist <= m[x]
  {
    hide Gathered;
    if x in Ids(deduped) {
      var l := CutOff(deduped, merged, k, x, j);
    } else {
      var i := LeftOut(responses, shards, m, k, x);
      AnswersCounted(responses, shards, k, i, deduped);
      FullShardBounds(responses[i], shards[i], m, k, deduped, merged, x, j);
    }
  }

  /** k answers of one shard that are all within m[x] push every merged hit within m[x]. */
  lemma {:induction false} FullShardBounds(r: seq<Hit>, shard: map<nat, real>, m: map<nat, real>, k: nat,
                        deduped: seq<Hit>, merged: seq<Hit>, x: nat, j: nat)
    requires IsTopK(r, shard, k) && |r| == k && forall id :: id in shard ==> id in m && m[id] == shard[id]
    requires Ascending(deduped) && DistinctIds(deduped) && Ids(r) <= Ids(deduped)
    requires forall i :: 0 <= i < |deduped| ==> deduped[i].id in m && deduped[i].dist == m[deduped[i].id]
    requires merged == if |deduped| > k then deduped[..k] else deduped
    requires x in m && j < |merged| && forall t :: 0 <= t < k ==> r[t].dist <= m[x]
    ensures merged[j].dist <= m[x]
  {
    hide IsTopK;
    if Ids(r) <= Ids(merged) {
      TopKDistinct(r, shard, k);
      DistinctIdsCount(r);
      DistinctIdsCount(merged);
      SubsetSize(Ids(r), Ids(merged));
      SameSize(Ids(r), Ids(merged));
      assert merged[j].id in Ids(r);
      var t := Locate(r, shard, k, merged[j].id);
    } else {
      var y :| y in Ids(r) && y !in Ids(merged);
      var l := CutOff(deduped, merged, k, y, j);
      var t := Locate(r, shard, k, y);
    }
  }

  lemma {:induction false} TopKDistinct(r: seq<Hit>, m: map<nat, real>, k: int)
    requires IsTopK(r, m, k)
    ensures DistinctIds(r)
  {
  }

  /** Collects the responses in arrival order and merges them. */
  method GatherAndMerge(responses: seq<seq<Hit>>, k: nat, ghost shards: seq<map<nat, real>>, ghost m: map<nat, real>)
    returns (merged: seq<Hit>)
    requires ExactAnswers(responses, shards, k) && Combines(m, shards)
    ensures IsTopK(merged, m, k)
  {
    var results: seq<Hit> := [];
    for i := 0 to |responses|
      invariant results == Gathered(responses[..i])
    {
      assert responses[..i + 1][..i] == responses[..i];
      results := results + responses[i];
    }
    assert responses[..|responses|] == responses;
    ghost var deduped;
    merged, deduped := Merge(results, k);
    MergedIsTopK(responses, shards, m, k, deduped, merged);
  }

  // ---------------------------------------------------------------- two sources

  lemma {:induction false} GatheredPair(a: seq<Hit>, b: seq<Hit>)
    ensures Gathered([a, b]) == a + b
  {
    assert [a, b][..1] == [a] && [a][..0] == [];
    assert Gathered([a]) == [] + a;
  }

  /** Two sources give a shared id the same distance. */
  ghost predicate Agreeing(ma: map<nat, real>, mb: map<nat, real>) {
    forall id :: id in ma && id in mb ==> ma[id] == mb[id]
  }

  lemma {:induction false} CombinesTwo(ma: map<nat, real>, mb: map<nat, real>)
    requires Agreeing(ma, mb)
    ensures Combines(ma + mb, [ma, mb])
  {
    forall id | id in ma + mb ensures exists i :: 0 <= i < 2 && id in [ma, mb][i] {
      assert id in [ma, mb][if id in ma then 0 else 1];
    }
  }
}
