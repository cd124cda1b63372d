/** The brute-force flat index. */
module Flat {
  import opened Common
  import opened Ranking
  import opened Selection
  import opened Rows

  const INITIAL_CAPACITY: nat := 1024
  const CHUNK: nat := 10000

  /** Distance of every stored vector to the query. */
  ghost function Distances(distFn: (Vec, Vec) -> real, query: Vec, contents: map<nat, Vec>): (m: map<nat, real>)
    ensures m.Keys == contents.Keys
  {
    map id | id in contents :: distFn(query, contents[id])
  }

  class FlatIndex {
    const dim: nat
    const distFn: (Vec, Vec) -> real
    var table: Table<real>

    ghost predicate Valid()
      reads this
    {
      TableOk(table, dim)
    }

    ghost function Stored(): map<nat, Vec>
      requires Valid()
      reads this
    {
      Contents(table, dim)
    }

    constructor (dim: nat, distFn: (Vec, Vec) -> real)
      ensures Valid() && Stored() == map[]
      ensures this.dim == dim && this.distFn == distFn
    {
      this.dim, this.distFn := dim, distFn;
      table := Table(seq(INITIAL_CAPACITY, _ => []), seq(INITIAL_CAPACITY, _ => 0), map[], 0);
    }

    method Insert(id: nat, vector: Vec) returns (ok: bool)
      requires Valid()
      modifies this
      ensures Valid()
      ensures ok <==> |vector| == dim && id !in old(Stored())
      ensures Stored() == if ok then old(Stored())[id := vector] else old(Stored())
    {
      ok := |vector| == dim && id !in table.idToRow;
      if ok {
        if table.count >= |table.ids| {
          Grow();
        }
        WithRowOk(table, dim, id, vector);
        table := WithRow(table, id, vector);
      }
    }

    /** Doubles the capacity. */
    method Grow()
      requires Valid()
      modifies this
      ensures Valid() && Stored() == old(Stored()) && table.idToRow == old(table.idToRow)
      ensures table.count == old(table.count)
      ensures |table.ids| == if old(|table.ids|) == 0 then INITIAL_CAPACITY else 2 * old(|table.ids|)
    {
      var newCap := if |table.ids| == 0 then INITIAL_CAPACITY else 2 * |table.ids|;
      var u := Table(table.vectors[..table.count] + seq(newCap - table.count, _ => []),
                     table.ids[..table.count] + seq(newCap - table.count, _ => 0),
                     table.idToRow, table.count);
      GrownOk(table, u, dim);
      table := u;
    }

    method Delete(id: nat) returns (found: bool)
      requires Valid()
      modifies this
      ensures Valid()
      ensures found <==> id in old(Stored())
      ensures Stored() == old(Stored()) - {id}
    {
      found := id in table.idToRow;
      if found {
        WithoutRowOk(table, dim, id);
        table := WithoutRow(table, id);
      }
    }

    /** Exact search over every stored vector, in chunks; none for a query of the wrong dimension. */
    method Search(query: Vec, k: int) returns (ok: bool, results: seq<Hit>)
      requires Valid()
      ensures ok <==> |query| == dim
      ensures !ok ==> results == []
      ensures ok ==> IsTopK(results, Distances(distFn, query, Stored()), k)
    {
      results := [];
      ok := |query| == dim;
      if !ok {
        return;
      }
      if k <= 0 {
        assert Ids([]) == {};
        return;
      }
      var n := table.count;
      var distances: seq<real> := [];
      var start := 0;
      while start < n
        invariant 0 <= start && |distances| == Min(start, n)
        invariant forall r :: 0 <= r < |distances| ==> distances[r] == distFn(query, table.vectors[r])
      {
        var end := Min(start + CHUNK, n);
        for r := start to end
          invariant |distances| == r
          invariant forall j :: 0 <= j < r ==> distances[j] == distFn(query, table.vectors[j])
        {
          distances := distances + [distFn(query, table.vectors[r])];
        }
        start := start + CHUNK;
      }
      ghost var rest;
      results, rest := TopK(distances, table.ids[..n], k);
      ScanIsTopK(query, distances, results, rest, k);
    }

    lemma {:induction false} ScanIsTopK(query: Vec, distances: seq<real>, results: seq<Hit>, rest: multiset<Hit>,
                                        k: int)
      requires Valid() && |distances| == table.count
      requires forall r :: 0 <= r < |distances| ==> distances[r] == distFn(query, table.vectors[r])
      requires Ascending(results) && Selects(results, rest, multiset(Zip(distances, table.ids[..table.count])), k)
      ensures IsTopK(results, Distances(distFn, query, Stored()), k)
    {
      var z := Zip(distances, table.ids[..table.count]);
      var m := Distances(distFn, query, Stored());
      forall i, j | 0 <= i < j < |z| ensures z[i].id != z[j].id {
        assert table.idToRow[table.ids[i]] == i && table.idToRow[table.ids[j]] == j;
      }
      forall id | id in m ensures exists i :: 0 <= i < |z| && z[i].id == id {
        assert z[table.idToRow[id]].id == id;
      }
      DistinctCounts(z, m);
      SelectionIsTopK(results, rest, multiset(z), m, k);
    }
  }
}
