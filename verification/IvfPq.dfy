/**
 The IVF index in product-quantization mode: rows hold codes of residuals. A search uses
 the centroid of the list it scans and the code row of the id; an export uses the cluster
 the id is assigned to.
 */
module IvfPq {
  import opened Common
  import opened Ranking
  import opened Selection
  import opened Euclid
  import opened Rows
  import opened PostingLists
  import opened ProductQuantizer

  /** z has one hit per entry of m. */
  ghost predicate Lists(z: seq<Hit>, m: map<nat, real>) {
    && DistinctIds(z) && (forall i :: 0 <= i < |z| ==> z[i].id in m && m[z[i].id] == z[i].dist)
    && forall id :: id in m ==> exists i :: 0 <= i < |z| && z[i].id == id
  }

  lemma {:induction false} ListsUnion(a: seq<Hit>, b: seq<Hit>, ma: map<nat, real>, mb: map<nat, real>)
    requires Lists(a, ma) && Lists(b, mb) && ma.Keys !! mb.Keys
    ensures Lists(a + b, ma + mb)
  {
    var z, m := a + b, ma + mb;
    forall i, j | 0 <= i < j < |z| ensures z[i].id != z[j].id {
      assert z[i] == if i < |a| then a[i] else b[i - |a|];
      assert z[j] == if j < |a| then a[j] else b[j - |a|];
    }
    forall i | 0 <= i < |z| ensures z[i].id in m && m[z[i].id] == z[i].dist {
      assert z[i] == if i < |a| then a[i] else b[i - |a|];
    }
    forall id | id in m ensures exists i :: 0 <= i < |z| && z[i].id == id {
      if id in mb {
        var i :| 0 <= i < |b| && b[i].id == id;
        assert z[|a| + i].id == id;
      } else {
        var i :| 0 <= i < |a| && a[i].id == id;
        assert z[i].id == id;
      }
    }
  }

  lemma {:induction false} ListsEach(list: seq<nat>, hits: seq<Hit>, m: map<nat, real>)
    requires NoRepeats(list) && |hits| == |list| && m.Keys == Elements(list)
    requires forall i :: 0 <= i < |hits| ==> hits[i].id == list[i] && list[i] in m && m[list[i]] == hits[i].dist
    ensures Lists(hits, m)
  {
    forall id | id in m ensures exists i :: 0 <= i < |hits| && hits[i].id == id {
      var i :| 0 <= i < |list| && list[i] == id;
      assert hits[i].id == id;
    }
  }

  /** The k closest of listed hits. */
  method PickTopK(hits: seq<Hit>, k: int, ghost m: map<nat, real>) returns (results: seq<Hit>)
    requires Lists(hits, m)
    ensures IsTopK(results, m, k)
  {
    var distances := seq(|hits|, i requires 0 <= i < |hits| => hits[i].dist);
    var ids := seq(|hits|, i requires 0 <= i < |hits| => hits[i].id);
    ghost var rest;
    results, rest := TopK(distances, ids, k);
    assert Zip(distances, ids) == hits;
    DistinctCounts(hits, m);
    SelectionIsTopK(results, rest, multiset(hits), m, k);
  }

  lemma {:induction false} SnapshotShapes(ids: seq<nat>, vecs: seq<Vec>, m: map<nat, Vec>, dim: nat)
    requires SnapshotOf(ids, vecs, m, dim)
    ensures |ids| == |vecs| && forall i :: 0 <= i < |vecs| ==> |vecs[i]| == dim
  {
  }

  /** The codes by id. */
  ghost function CodeMap(ids: seq<nat>, rows: seq<seq<nat>>): map<nat, seq<nat>>
    requires |rows| == |ids|
  {
    if ids == [] then map[] else CodeMap(ids[..|ids| - 1], rows[..|ids| - 1])[ids[|ids| - 1] := rows[|ids| - 1]]
  }

  lemma {:induction false} CodeMapOf(ids: seq<nat>, rows: seq<seq<nat>>)
    requires |rows| == |ids| && NoRepeats(ids)
    ensures CodeMap(ids, rows).Keys == Elements(ids)
    ensures forall i :: 0 <= i < |ids| ==> ids[i] in CodeMap(ids, rows) && CodeMap(ids, rows)[ids[i]] == rows[i]
  {
    if ids != [] {
      var n := |ids| - 1;
      CodeMapOf(ids[..n], rows[..n]);
      assert ids == ids[..n] + [ids[n]];
      assert ids[n] !in ids[..n];
      assert Elements(ids) == Elements(ids[..n]) + {ids[n]};
    }
  }

  lemma {:induction false} CodeMapIs(ids: seq<nat>, vecs: seq<Vec>, m: map<nat, Vec>, dim: nat, rows: seq<seq<nat>>)
    requires SnapshotOf(ids, vecs, m, dim) && |rows| == |ids|
    ensures CodeMap(ids, rows).Keys == m.Keys
    ensures forall i :: 0 <= i < |ids| ==> ids[i] in CodeMap(ids, rows) && CodeMap(ids, rows)[ids[i]] == rows[i]
    ensures forall id :: id in CodeMap(ids, rows) ==> exists i :: 0 <= i < |ids| && ids[i] == id
  {
    CodeMapOf(ids, rows);
    hide CodeMap;
    forall id ensures id in Elements(ids) <==> id in m {
      if id in ids {
        var i :| 0 <= i < |ids| && ids[i] == id;
      }
    }
  }

  lemma {:induction false} CodesSnapshot(ids: seq<nat>, vecs: seq<Vec>, m: map<nat, Vec>, dim: nat, rows: seq<seq<nat>>,
                                         width: nat)
    requires SnapshotOf(ids, vecs, m, dim) && |rows| == |ids| && forall i :: 0 <= i < |rows| ==> |rows[i]| == width
    ensures SnapshotOf(ids, rows, CodeMap(ids, rows), width)
  {
    CodeMapIs(ids, vecs, m, dim, rows);
    hide CodeMap;
  }

  class IVFPQIndex {
    const dim: nat
    var pq: Quantizer
    var centroids: seq<Vec>
    var postingList: seq<seq<nat>>
    var clusterOf: map<nat, nat>
    var codes: Table<nat>

    ghost predicate Shapes()
      reads this
    {
      && Ok(pq) && pq.trained && pq.dim == dim && TableOk(codes, pq.m)
      && |centroids| == |postingList| && forall c :: 0 <= c < |centroids| ==> |centroids[c]| == dim
    }

    ghost predicate Valid()
      reads this
    {
      && Shapes() && PostingsOk(postingList, clusterOf) && clusterOf.Keys == codes.idToRow.Keys
      && forall id :: id in codes.idToRow ==> CodesOk(pq, CodesOf(id))
    }

    /** The code row of an id. */
    ghost function CodesOf(id: nat): seq<nat>
      requires Shapes() && id in codes.idToRow
      reads this
    {
      Contents(codes, pq.m)[id]
    }

    /** An empty index around a trained quantizer. */
    constructor (pq: Quantizer)
      requires Ok(pq) && pq.trained
      ensures Valid() && this.pq == pq && dim == pq.dim && Exported() == map[]
    {
      this.pq, dim := pq, pq.dim;
      centroids, postingList, clusterOf, codes := [], [], map[], Table([], [], map[], 0);
    }

    lemma {:induction false} ClusterOf(id: nat)
      requires Valid() && id in clusterOf
      ensures clusterOf[id] < |centroids| && |centroids[clusterOf[id]]| == dim && id in codes.idToRow
      ensures CodesOk(pq, CodesOf(id))
    {
      PostingOf(postingList, clusterOf, id);
    }

    /** The vector an export reconstructs for an id. */
    ghost function Reconstructed(id: nat): (v: Vec)
      requires Valid() && id in clusterOf
      reads this
      ensures |v| == dim
    {
      ClusterOf(id);
      DecodedLength(pq, CodesOf(id));
      Plus(centroids[clusterOf[id]], Decoded(pq, CodesOf(id)))
    }

    ghost function Exported(): map<nat, Vec>
      requires Valid()
      reads this
    {
      map id | id in clusterOf :: Reconstructed(id)
    }

    /** The distances of the ids in some clusters, to their exported vectors. */
    ghost function ExportDistances(query: Vec, clusters: set<nat>): map<nat, real>
      requires Valid() && |query| == dim
      reads this
    {
      map id | id in clusterOf && clusterOf[id] in clusters :: L2(query, Reconstructed(id))
    }

    /** The row a search looks up for an id is the row that holds its codes. */
    lemma {:induction false} RowHoldsCodes(id: nat)
      requires Valid() && id in codes.idToRow
      ensures codes.idToRow[id] < codes.count <= |codes.vectors| && codes.vectors[codes.idToRow[id]] == CodesOf(id)
    {
    }

    /** For an id of a list, the centroid of the list is the centroid of its cluster. */
    lemma {:induction false} LookedUpIsExported(query: Vec, id: nat, table: seq<seq<real>>)
      requires Valid() && |query| == dim && id in clusterOf
      requires clusterOf[id] < |centroids| && |centroids[clusterOf[id]]| == dim
      requires IsTable(pq, Minus(query, centroids[clusterOf[id]]), table)
      ensures id in codes.idToRow && CodesOk(pq, CodesOf(id))
      ensures Lookup(table, CodesOf(id), pq.m) == L2(query, Reconstructed(id))
    {
      hide PostingsOk, TableOk, Contents, L2;
      DecodedDecodes(pq, CodesOf(id), pq.m);
      SearchDistanceIsExportDistance(pq, query, centroids[clusterOf[id]], table, CodesOf(id), Decoded(pq, CodesOf(id)));
    }

    /** The ids a list contributes are the ids of its cluster. */
    lemma {:induction false} ListIsCluster(query: Vec, c: nat)
      requires Valid() && |query| == dim && c < |postingList|
      ensures NoRepeats(postingList[c]) && ExportDistances(query, {c}).Keys == Elements(postingList[c])
    {
      hide IVFPQIndex.Reconstructed, L2, TableOk, Contents;
      assert forall id :: id in postingList[c] <==> id in clusterOf && clusterOf[id] == c;
    }

    /** The distance of one id from the table of its list. */
    method LookUp(query: Vec, c: nat, id: nat, table: seq<seq<real>>) returns (d: real)
      requires Valid() && |query| == dim && c < |centroids| && id in ExportDistances(query, {c})
      requires IsTable(pq, Minus(query, centroids[c]), table)
      ensures d == ExportDistances(query, {c})[id]
    {
      hide PostingsOk, TableOk, Contents, L2;
      RowHoldsCodes(id);
      LookedUpIsExported(query, id, table);
      d := DistanceADC(pq, table, codes.vectors[codes.idToRow[id]]);
    }

    /** Scans one posting list: the distance looked up for each id is the distance to its exported vector. */
    method ScanList(query: Vec, c: nat) returns (hits: seq<Hit>)
      requires Valid() && |query| == dim && c < |postingList|
      ensures Lists(hits, ExportDistances(query, {c}))
    {
      hide PostingsOk, TableOk, Contents, L2, Lists, IVFPQIndex.Reconstructed, IVFPQIndex.ExportDistances;
      var list := postingList[c];
      ListIsCluster(query, c);
      ghost var m := ExportDistances(query, {c});
      var table := BuildDistanceTable(pq, Minus(query, centroids[c]));
      hits := [];
      for j := 0 to |list|
        invariant |hits| == j
        invariant forall i :: 0 <= i < j ==> hits[i].id == list[i] && list[i] in m && hits[i].dist == m[list[i]]
      {
        assert list[j] in Elements(list);
        var d := LookUp(query, c, list[j], table);
        hits := hits + [Hit(list[j], d)];
      }
      ListsEach(list, hits, m);
    }

    /** Searches the probed clusters: an exact top-k over what an export reconstructs for them. */
    method SearchProbed(query: Vec, probed: seq<nat>, k: int) returns (results: seq<Hit>)
      requires Valid() && |query| == dim && NoRepeats(probed) && forall t :: 0 <= t < |probed| ==>
                 probed[t] < |postingList|
      ensures IsTopK(results, ExportDistances(query, Elements(probed)), k)
    {
      var hits: seq<Hit> := [];
      assert ExportDistances(query, Elements(probed[..0])) == map[];
      for t := 0 to |probed|
        invariant Lists(hits, ExportDistances(query, Elements(probed[..t])))
      {
        hide Lists, PostingsOk, TableOk, Contents, IVFPQIndex.Reconstructed, IVFPQIndex.ExportDistances;
        var more := ScanList(query, probed[t]);
        ProbeOneMore(query, probed, t);
        ListsUnion(hits, more, ExportDistances(query, Elements(probed[..t])), ExportDistances(query, {probed[t]}));
        hits := hits + more;
      }
      assert probed[..|probed|] == probed;
      results := PickTopK(hits, k, ExportDistances(query, Elements(probed)));
    }

    lemma {:induction false} ProbeOneMore(query: Vec, probed: seq<nat>, t: nat)
      requires Valid() && |query| == dim && NoRepeats(probed) && t < |probed|
      ensures var a, b := ExportDistances(query, Elements(probed[..t])), ExportDistances(query, {probed[t]});
              a.Keys !! b.Keys && a + b == ExportDistances(query, Elements(probed[..t + 1]))
    {
      hide IVFPQIndex.Reconstructed, PostingsOk, TableOk, Contents, L2;
      assert probed[..t + 1] == probed[..t] + [probed[t]];
      assert probed[t] !in probed[..t];
      assert Elements(probed[..t + 1]) == Elements(probed[..t]) + {probed[t]};
    }

    lemma {:induction false} ExportedKeys()
      requires Valid()
      ensures Exported().Keys == codes.idToRow.Keys
    {
    }

    method Reconstruct(id: nat) returns (v: Vec)
      requires Valid() && id in Exported()
      ensures v == Exported()[id]
    {
      hide PostingsOk, TableOk, Contents;
      ClusterOf(id);
      RowHoldsCodes(id);
      DecodedLength(pq, CodesOf(id));
      var residual := Decode(pq, codes.vectors[codes.idToRow[id]]);
      v := Plus(centroids[clusterOf[id]], residual.value);
    }

    /** Reconstructs every vector, ids in any order. */
    method ExportVectors() returns (out: map<nat, Vec>)
      requires Valid()
      ensures out == Exported()
    {
      hide IVFPQIndex.Valid, IVFPQIndex.Exported;
      ExportedKeys();
      ghost var want := Exported();
      out := map[];
      var todo := codes.idToRow.Keys;
      while todo != {}
        invariant todo <= want.Keys && out.Keys == want.Keys - todo
        invariant forall id :: id in out ==> out[id] == want[id]
        decreases |todo|
      {
        var id :| id in todo;
        var v := Reconstruct(id);
        out := out[id := v];
        todo := todo - {id};
      }
    }

    /** Drops an id from its list and, by swap with last, from the code rows; every other id keeps its codes. */
    method RemoveStored(id: nat)
      requires Valid() && id in codes.idToRow
      modifies this`codes, this`postingList, this`clusterOf
      ensures Valid() && Exported() == old(Exported()) - {id} && clusterOf == old(clusterOf) - {id}
    {
      hide TableOk, Contents, PostingsOk, WithoutRow, NoRepeats;
      var c := clusterOf[id];
      PostingOf(postingList, clusterOf, id);
      var list := RemoveFromList(postingList[c], id);
      RemovedPostingsOk(postingList, clusterOf, id, list);
      RowOf(codes, pq.m, id);
      WithoutRowOk(codes, pq.m, id);
      ghost var before := Contents(codes, pq.m);
      var smaller := WithoutRow(codes, id);
      assert Contents(smaller, pq.m) == before - {id};
      postingList := postingList[c := list];
      clusterOf := clusterOf - {id};
      codes := smaller;
      assert Shapes() && codes.idToRow.Keys == Contents(codes, pq.m).Keys;
      forall x | x in codes.idToRow ensures CodesOf(x) == old(Contents(codes, pq.m))[x] {
        assert x in before;
      }
    }

    // ---------------------------------------------------------------- rebuild

    /** The residuals of the vectors to their centroids, encoded. */
    method EncodeResiduals(vecs: seq<Vec>, newCentroids: seq<Vec>, assignments: seq<nat>) returns (rows: seq<seq<nat>>)
      requires Ok(pq) && pq.trained && pq.dim == dim && |assignments| == |vecs|
      requires forall i :: 0 <= i < |vecs| ==> |vecs[i]| == dim && assignments[i] < |newCentroids|
      requires forall c :: 0 <= c < |newCentroids| ==> |newCentroids[c]| == dim
      ensures |rows| == |vecs| && forall i :: 0 <= i < |rows| ==>
                NearestCodes(pq, Minus(vecs[i], newCentroids[assignments[i]]), rows[i])
    {
      hide NearestCodes;
      rows := [];
      for i := 0 to |vecs|
        invariant |rows| == i
        invariant forall j :: 0 <= j < i ==> NearestCodes(pq, Minus(vecs[j], newCentroids[assignments[j]]), rows[j])
      {
        var code := Encode(pq, Minus(vecs[i], newCentroids[assignments[i]]));
        rows := rows + [code.value];
      }
    }

    /** The encoded residuals as code rows of the ids. */
    method EncodeAll(ids: seq<nat>, vecs: seq<Vec>, newCentroids: seq<Vec>, assignments: seq<nat>,
                     ghost m: map<nat, Vec>)
      returns (rows: seq<seq<nat>>, ghost mc: map<nat, seq<nat>>)
      requires Ok(pq) && pq.trained && pq.dim == dim && SnapshotOf(ids, vecs, m, dim)
      requires |assignments| == |ids| && forall i :: 0 <= i < |assignments| ==> assignments[i] < |newCentroids|
      requires forall c :: 0 <= c < |newCentroids| ==> |newCentroids[c]| == dim
      ensures |rows| == |ids| == |vecs| && SnapshotOf(ids, rows, mc, pq.m) && mc.Keys == m.Keys
      ensures forall id :: id in mc ==> CodesOk(pq, mc[id])
      ensures forall i :: 0 <= i < |ids| ==> |vecs[i]| == dim && ids[i] in mc && mc[ids[i]] == rows[i]
      ensures forall i :: 0 <= i < |ids| ==> NearestCodes(pq, Minus(vecs[i], newCentroids[assignments[i]]), rows[i])
    {
      SnapshotShapes(ids, vecs, m, dim);
      hide SnapshotOf, CodeMap;
      rows := EncodeResiduals(vecs, newCentroids, assignments);
      mc := CodeMap(ids, rows);
      forall i | 0 <= i < |rows| ensures CodesOk(pq, rows[i]) {
        assert NearestCodes(pq, Minus(vecs[i], newCentroids[assignments[i]]), rows[i]);
      }
      hide NearestCodes;
      CodesSnapshot(ids, vecs, m, dim, rows, pq.m);
      CodeMapIs(ids, vecs, m, dim, rows);
    }

    /** The id is in the cluster and its codes are a nearest encoding of the residual of v. */
    ghost predicate EncodedNearest(id: nat, v: Vec, cluster: nat)
      requires Valid()
      reads this
    {
      && id in clusterOf && clusterOf[id] == cluster && cluster < |centroids| && |centroids[cluster]| == |v| == dim
      && id in codes.idToRow && NearestCodes(pq, Minus(v, centroids[cluster]), CodesOf(id))
    }

    /** Switches to the new lists and code rows. */
    method Swap(t: Table<nat>, newCentroids: seq<Vec>, newPostings: seq<seq<nat>>, newClusterOf: map<nat, nat>,
                ghost mc: map<nat, seq<nat>>)
      requires Shapes() && TableOk(t, pq.m) && Contents(t, pq.m) == mc && t.idToRow.Keys == mc.Keys
      requires PostingsOk(newPostings, newClusterOf) && newClusterOf.Keys == mc.Keys && |newCentroids| == |newPostings|
      requires (forall c :: 0 <= c < |newCentroids| ==> |newCentroids[c]| == dim) && forall id :: id in mc ==>
                 CodesOk(pq, mc[id])
      modifies this`codes, this`postingList, this`clusterOf, this`centroids
      ensures Valid() && Exported().Keys == mc.Keys && centroids == newCentroids && clusterOf == newClusterOf
      ensures codes.idToRow.Keys == mc.Keys && forall id :: id in mc ==> CodesOf(id) == mc[id]
    {
      hide TableOk, Contents, PostingsOk;
      codes, centroids, postingList, clusterOf := t, newCentroids, newPostings, newClusterOf;
    }

    lemma {:induction false} NearestInstalled(id: nat, v: Vec, cluster: nat, row: seq<nat>)
      requires Valid() && id in clusterOf && clusterOf[id] == cluster < |centroids| && |v| == dim && id in codes.idToRow
      requires CodesOf(id) == row
      requires |centroids[cluster]| == dim && NearestCodes(pq, Minus(v, centroids[cluster]), row)
      ensures EncodedNearest(id, v, cluster)
    {
    }

    /**
     Installs a clustering: every id goes to its assigned cluster, and its codes are a
     nearest encoding of the residual of its vector.
     */
    method Install(ids: seq<nat>, vecs: seq<Vec>, newCentroids: seq<Vec>, assignments: seq<nat>, ghost m: map<nat, Vec>)
      requires Shapes() && SnapshotOf(ids, vecs, m, dim)
      requires |assignments| == |ids| && forall i :: 0 <= i < |assignments| ==> assignments[i] < |newCentroids|
      requires forall c :: 0 <= c < |newCentroids| ==> |newCentroids[c]| == dim
      modifies this`codes, this`postingList, this`clusterOf, this`centroids
      ensures Valid() && Exported().Keys == m.Keys && centroids == newCentroids
      ensures forall i :: 0 <= i < |ids| ==> EncodedNearest(ids[i], vecs[i], assignments[i])
    {
      hide NearestCodes, SnapshotOf, TableOk, Contents, PostingsOk;
      var rows, mc := EncodeAll(ids, vecs, newCentroids, assignments, m);
      SnapshotShapes(ids, vecs, m, dim);
      var newPostings, newClusterOf := BuildPostings(ids, assignments, |newCentroids|, mc, rows, pq.m);
      var t := InstallRows(codes, ids, rows, mc, pq.m);
      Swap(t, newCentroids, newPostings, newClusterOf, mc);
      hide IVFPQIndex.Valid, IVFPQIndex.Exported;
      forall i | 0 <= i < |ids| ensures EncodedNearest(ids[i], vecs[i], assignments[i]) {
        NearestInstalled(ids[i], vecs[i], assignments[i], rows[i]);
      }
    }

    /** What an export reconstructs is at least as close to the original as any other codes would be. */
    lemma {:induction false} ExportIsNearest(id: nat, v: Vec, cluster: nat, other: seq<nat>)
      requires Valid() && EncodedNearest(id, v, cluster) && CodesOk(pq, other)
      ensures |Decoded(pq, other)| == dim
      ensures L2(v, Reconstructed(id)) <= L2(v, Plus(centroids[cluster], Decoded(pq, other)))
    {
      var mine := CodesOf(id);
      DecodedDecodes(pq, mine, pq.m);
      DecodedDecodes(pq, other, pq.m);
      var residual := Minus(v, centroids[cluster]);
      hide PostingsOk, TableOk, Contents;
      EncodeIsOptimal(pq, residual, mine, Decoded(pq, mine), other, Decoded(pq, other));
      hide NearestCodes, Decodes;
      ShiftPartial(v, centroids[cluster], Decoded(pq, mine), dim);
      ShiftPartial(v, centroids[cluster], Decoded(pq, other), dim);
    }
  }
}
