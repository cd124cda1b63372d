/**
 Row storage shared by the flat and IVF indexes: parallel rows, of vectors or codes, with an
 id-to-row map and swap-with-last removal.
 */
module Rows {
  import opened Common

  datatype Table<T> = Table(vectors: seq<seq<T>>, ids: seq<nat>, idToRow: map<nat, nat>, count: nat)

  /** The first count rows and the map are inverse to each other. */
  ghost predicate TableOk<T>(t: Table<T>, dim: nat) {
    && t.count <= |t.ids| == |t.vectors|
    && (forall r: nat :: r < t.count ==> t.ids[r] in t.idToRow && t.idToRow[t.ids[r]] == r && |t.vectors[r]| == dim)
    && forall id :: id in t.idToRow ==> t.idToRow[id] < t.count && t.ids[t.idToRow[id]] == id
  }

  ghost function Contents<T>(t: Table<T>, dim: nat): (c: map<nat, seq<T>>)
    requires TableOk(t, dim)
    ensures c.Keys == t.idToRow.Keys
  {
    map id | id in t.idToRow :: t.vectors[t.idToRow[id]]
  }

  /** Writes the next free row. */
  function WithRow<T>(t: Table<T>, id: nat, v: seq<T>): Table<T>
    requires t.count < |t.ids| == |t.vectors|
  {
    Table(t.vectors[t.count := v], t.ids[t.count := id], t.idToRow[id := t.count], t.count + 1)
  }

  lemma {:induction false} WithRowOk<T>(t: Table<T>, dim: nat, id: nat, v: seq<T>)
    requires TableOk(t, dim) && t.count < |t.ids| && id !in t.idToRow && |v| == dim
    ensures TableOk(WithRow(t, id, v), dim)
    ensures Contents(WithRow(t, id, v), dim) == Contents(t, dim)[id := v]
  {
  }

  /** Overwrites the row of id with the last row and drops the last row. */
  function WithoutRow<T>(t: Table<T>, id: nat): Table<T>
    requires id in t.idToRow && t.idToRow[id] < t.count <= |t.ids| == |t.vectors|
  {
    var row, last := t.idToRow[id], t.count - 1;
    if row == last then
      t.(idToRow := t.idToRow - {id}, count := last)
    else
      var lastID := t.ids[last];
      Table(t.vectors[row := t.vectors[last]], t.ids[row := lastID], t.idToRow[lastID := row] - {id}, last)
  }

  lemma {:induction false} RowOf<T>(t: Table<T>, dim: nat, id: nat)
    requires TableOk(t, dim) && id in t.idToRow
    ensures t.idToRow[id] < t.count <= |t.ids| == |t.vectors|
  {
  }

  lemma {:induction false} WithoutRowOk<T>(t: Table<T>, dim: nat, id: nat)
    requires TableOk(t, dim) && id in t.idToRow
    ensures TableOk(WithoutRow(t, id), dim)
    ensures Contents(WithoutRow(t, id), dim) == Contents(t, dim) - {id}
  {
    var u := WithoutRow(t, id);
    var row, last := t.idToRow[id], t.count - 1;
    assert t.ids[row] == id;
    if row != last {
      assert t.ids[last] != id;
    }
  }

  /** More capacity changes nothing that is stored. */
  lemma {:induction false} GrownOk<T>(t: Table<T>, u: Table<T>, dim: nat)
    requires TableOk(t, dim) && u.idToRow == t.idToRow && u.count == t.count
    requires |u.ids| == |u.vectors| >= t.count
    requires u.ids[..t.count] == t.ids[..t.count] && u.vectors[..t.count] == t.vectors[..t.count]
    ensures TableOk(u, dim) && Contents(u, dim) == Contents(t, dim)
  {
    forall r: nat | r < t.count ensures u.ids[r] == t.ids[r] && u.vectors[r] == t.vectors[r] {
      assert u.ids[..t.count][r] == t.ids[..t.count][r];
      assert u.vectors[..t.count][r] == t.vectors[..t.count][r];
    }
  }

  // ---------------------------------------------------------------- whole tables

  /** ids and vecs list the contents m, each id once. */
  ghost predicate SnapshotOf<T>(ids: seq<nat>, vecs: seq<seq<T>>, m: map<nat, seq<T>>, dim: nat) {
    && |ids| == |vecs| && NoRepeats(ids)
    && (forall i :: 0 <= i < |ids| ==> ids[i] in m && m[ids[i]] == vecs[i] && |vecs[i]| == dim)
    && forall id :: id in m ==> id in ids
  }

  lemma {:induction false} SnapshotSizes<T>(ids: seq<nat>, vecs: seq<seq<T>>, m: map<nat, seq<T>>, dim: nat)
    requires SnapshotOf(ids, vecs, m, dim)
    ensures |ids| == |vecs|
  {
  }

  lemma {:induction false} SnapshotEmpty<T>(ids: seq<nat>, vecs: seq<seq<T>>, m: map<nat, seq<T>>, dim: nat)
    requires SnapshotOf(ids, vecs, m, dim)
    ensures |ids| == 0 ==> m == map[]
  {
  }

  /** The row of each id. */
  method IndexRows<T>(ids: seq<nat>, ghost vecs: seq<seq<T>>, ghost m: map<nat, seq<T>>, ghost dim: nat)
    returns (rowOf: map<nat, nat>)
    requires SnapshotOf(ids, vecs, m, dim)
    ensures rowOf.Keys == m.Keys
    ensures forall i :: 0 <= i < |ids| ==> ids[i] in rowOf && rowOf[ids[i]] == i
    ensures forall id :: id in rowOf ==> rowOf[id] < |ids| && ids[rowOf[id]] == id
  {
    rowOf := map[];
    for i := 0 to |ids|
      invariant forall j :: 0 <= j < i ==> ids[j] in rowOf && rowOf[ids[j]] == j
      invariant forall id :: id in rowOf ==> rowOf[id] < i && ids[rowOf[id]] == id
    {
      rowOf := rowOf[ids[i] := i];
    }
    forall x ensures x in rowOf <==> x in m {
      if x in m { var j :| 0 <= j < |ids| && ids[j] == x; }
    }
  }

  /** Copies the rebuilt rows over the old ones, reallocating when they do not fit. */
  method InstallRows<T>(rows: Table<T>, ids: seq<nat>, vecs: seq<seq<T>>, ghost m: map<nat, seq<T>>, ghost dim: nat)
    returns (t: Table<T>)
    requires TableOk(rows, dim) && SnapshotOf(ids, vecs, m, dim)
    ensures TableOk(t, dim) && Contents(t, dim) == m && t.idToRow.Keys == m.Keys
  {
    var n := |ids|;
    var rowIds, rowVecs := rows.ids, rows.vectors;
    if n > |rowIds| {
      rowVecs, rowIds := seq(2 * n, _ => []), seq(2 * n, _ => 0);
    }
    var rowOf := IndexRows(ids, vecs, m, dim);
    t := Table(vecs + rowVecs[n..], ids + rowIds[n..], rowOf, n);
    InstalledOk(t, ids, vecs, m, dim);
  }

  lemma {:induction false} InstalledOk<T>(t: Table<T>, ids: seq<nat>, vecs: seq<seq<T>>, m: map<nat, seq<T>>, dim: nat)
    requires SnapshotOf(ids, vecs, m, dim) && t.count == |ids| <= |t.ids| == |t.vectors|
    requires t.ids[..t.count] == ids && t.vectors[..t.count] == vecs
    requires t.idToRow.Keys == m.Keys
    requires forall i :: 0 <= i < |ids| ==> ids[i] in t.idToRow && t.idToRow[ids[i]] == i
    requires forall id :: id in t.idToRow ==> t.idToRow[id] < |ids| && ids[t.idToRow[id]] == id
    ensures TableOk(t, dim) && Contents(t, dim) == m
  {
    forall r: nat | r < t.count ensures t.ids[r] == ids[r] && t.vectors[r] == vecs[r] {
      assert t.ids[..t.count][r] == ids[r] && t.vectors[..t.count][r] == vecs[r];
    }
  }
}
