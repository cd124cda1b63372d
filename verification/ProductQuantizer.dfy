/** Product quantization: encoding, decoding and table-lookup distances, in exact arithmetic. */
module ProductQuantizer {
  import opened Common
  import opened Euclid

  const CODES: nat := 256

  lemma {:induction false} NextBlock(m: nat, sub: nat)
    ensures (m + 1) * sub == m * sub + sub
  {
  }

  lemma {:induction false} BlocksFit(m: nat, n: nat, sub: nat)
    requires m < n
    ensures m * sub + sub <= n * sub
    decreases n
  {
    NextBlock(n - 1, sub);
    if m < n - 1 {
      BlocksFit(m, n - 1, sub);
    }
  }

  /** The m-th block of a vector. */
  function Block(v: Vec, m: nat, sub: nat): (b: Vec)
    requires m * sub + sub <= |v|
    ensures |b| == sub
  {
    v[m * sub..m * sub + sub]
  }

  lemma {:induction false} PartialSplit(x: Vec, y: Vec, p: nat, n: nat)
    requires p + n <= |x| && p + n <= |y|
    ensures Partial(x, y, p + n) == Partial(x, y, p) + Partial(x[p..p + n], y[p..p + n], n)
  {
    if n > 0 {
      PartialSplit(x, y, p, n - 1);
      PartialPrefix(x[p..p + n], y[p..p + n], x[p..p + n - 1], y[p..p + n - 1], n - 1);
    }
  }

  lemma {:induction false} PartialPrefix(x: Vec, y: Vec, x': Vec, y': Vec, n: nat)
    requires n <= |x| && n <= |y| && n <= |x'| && n <= |y'|
    requires forall i :: 0 <= i < n ==> x[i] == x'[i] && y[i] == y'[i]
    ensures Partial(x, y, n) == Partial(x', y', n)
  {
    if n > 0 {
      PartialPrefix(x, y, x', y', n - 1);
    }
  }

  /** L2 over the first m blocks, block by block. */
  ghost function ByBlocks(x: Vec, y: Vec, m: nat, sub: nat): real
    requires m * sub <= |x| && m * sub <= |y|
  {
    if m == 0 then 0.0
    else
      NextBlock(m - 1, sub);
      ByBlocks(x, y, m - 1, sub) + L2(Block(x, m - 1, sub), Block(y, m - 1, sub))
  }

  lemma {:induction false} BlocksAddUp(x: Vec, y: Vec, m: nat, sub: nat)
    requires m * sub <= |x| && m * sub <= |y|
    ensures ByBlocks(x, y, m, sub) == Partial(x, y, m * sub)
  {
    if m > 0 {
      NextBlock(m - 1, sub);
      BlocksAddUp(x, y, m - 1, sub);
      PartialSplit(x, y, (m - 1) * sub, sub);
    }
  }

  /** A trained quantizer: CODES centroids of width sub for each of m blocks. */
  datatype Quantizer = Quantizer(dim: nat, m: nat, sub: nat, codebooks: seq<seq<Vec>>, trained: bool)

  ghost predicate Ok(q: Quantizer) {
    && q.dim == q.m * q.sub
    && (q.trained ==> |q.codebooks| == q.m)
    && (q.trained ==> forall b :: 0 <= b < q.m ==> |q.codebooks[b]| == CODES)
    && (q.trained ==> forall b, c :: 0 <= b < q.m && 0 <= c < CODES ==> |q.codebooks[b][c]| == q.sub)
  }

  ghost predicate CodesOk(q: Quantizer, codes: seq<nat>) {
    |codes| == q.m && forall b :: 0 <= b < q.m ==> codes[b] < CODES
  }

  /** y is made of the selected centroids, block after block. */
  ghost predicate Decodes(q: Quantizer, codes: seq<nat>, y: Vec, n: nat)
    requires Ok(q) && q.trained && CodesOk(q, codes) && n <= q.m
  {
    && |y| == n * q.sub
    && forall b: nat :: b < n ==> b * q.sub + q.sub <= |y| && Block(y, b, q.sub) == q.codebooks[b][codes[b]]
  }

  lemma {:induction false} BlockOfPrefix(y: Vec, z: Vec, b: nat, sub: nat)
    requires b * sub + sub <= |y|
    ensures Block(y + z, b, sub) == Block(y, b, sub)
  {
  }

  lemma {:induction false} DecodesNext(q: Quantizer, codes: seq<nat>, y: Vec, n: nat)
    requires Ok(q) && q.trained && CodesOk(q, codes) && n < q.m && Decodes(q, codes, y, n)
    ensures Decodes(q, codes, y + q.codebooks[n][codes[n]], n + 1)
  {
    var c := q.codebooks[n][codes[n]];
    var z := y + c;
    NextBlock(n, q.sub);
    forall b: nat | b < n + 1 ensures b * q.sub + q.sub <= |z| && Block(z, b, q.sub) == q.codebooks[b][codes[b]] {
      if b < n {
        BlockOfPrefix(y, c, b, q.sub);
      } else {
        assert Block(z, n, q.sub) == c;
      }
    }
  }

  /** The selected centroids of the first n blocks, one after the other. */
  function DecodedTo(q: Quantizer, codes: seq<nat>, n: nat): Vec
    requires Ok(q) && q.trained && CodesOk(q, codes) && n <= q.m
  {
    if n == 0 then [] else DecodedTo(q, codes, n - 1) + q.codebooks[n - 1][codes[n - 1]]
  }

  function Decoded(q: Quantizer, codes: seq<nat>): Vec
    requires Ok(q) && q.trained && CodesOk(q, codes)
  {
    DecodedTo(q, codes, q.m)
  }

  lemma {:induction false} DecodedDecodes(q: Quantizer, codes: seq<nat>, n: nat)
    requires Ok(q) && q.trained && CodesOk(q, codes) && n <= q.m
    ensures Decodes(q, codes, DecodedTo(q, codes, n), n)
  {
    if n > 0 {
      DecodedDecodes(q, codes, n - 1);
      hide Decodes;
      DecodesNext(q, codes, DecodedTo(q, codes, n - 1), n - 1);
    }
  }

  lemma {:induction false} DecodedLength(q: Quantizer, codes: seq<nat>)
    requires Ok(q) && q.trained && CodesOk(q, codes)
    ensures |Decoded(q, codes)| == q.dim
  {
    DecodedDecodes(q, codes, q.m);
  }

  /** Reconstructs the vector of the codes; none for an untrained quantizer or a wrong code count. */
  method Decode(q: Quantizer, codes: seq<nat>) returns (r: Option<Vec>)
    requires Ok(q) && forall b :: 0 <= b < |codes| ==> codes[b] < CODES
    ensures r.Some? <==> q.trained && |codes| == q.m
    ensures r.Some? ==> r.value == Decoded(q, codes) && Decodes(q, codes, r.value, q.m)
  {
    if !q.trained || |codes| != q.m {
      return None;
    }
    var y: Vec := [];
    for b := 0 to q.m
      invariant y == DecodedTo(q, codes, b)
    {
      y := y + q.codebooks[b][codes[b]];
    }
    DecodedDecodes(q, codes, q.m);
    r := Some(y);
  }

  /** The distance table of a query: one row per block. */
  ghost predicate IsTable(q: Quantizer, query: Vec, table: seq<seq<real>>)
    requires Ok(q) && q.trained && |query| == q.dim
  {
    && |table| == q.m
    && forall b: nat :: b < q.m ==>
         && b * q.sub + q.sub <= |query| && |table[b]| == CODES
         && forall c :: 0 <= c < CODES ==> table[b][c] == L2(Block(query, b, q.sub), q.codebooks[b][c])
  }

  method BuildDistanceTable(q: Quantizer, query: Vec) returns (table: seq<seq<real>>)
    requires Ok(q) && q.trained && |query| == q.dim
    ensures IsTable(q, query, table)
  {
    table := [];
    for b := 0 to q.m
      invariant |table| == b
      invariant forall j: nat :: j < b ==>
                  && j * q.sub + q.sub <= |query| && |table[j]| == CODES
                  && forall c :: 0 <= c < CODES ==> table[j][c] == L2(Block(query, j, q.sub), q.codebooks[j][c])
    {
      BlocksFit(b, q.m, q.sub);
      var row := TableRow(Block(query, b, q.sub), q.codebooks[b], q.sub);
      table := table + [row];
    }
  }

  /** The distances of one block to all centroids of its codebook. */
  method TableRow(block: Vec, book: seq<Vec>, sub: nat) returns (row: seq<real>)
    requires |block| == sub && |book| == CODES && forall c :: 0 <= c < CODES ==> |book[c]| == sub
    ensures |row| == CODES && forall c :: 0 <= c < CODES ==> row[c] == L2(block, book[c])
  {
    row := [];
    for c := 0 to CODES
      invariant |row| == c && forall j :: 0 <= j < c ==> row[j] == L2(block, book[j])
    {
      row := row + [L2(block, book[c])];
    }
  }

  /** The looked-up distances of the first n blocks. */
  ghost function Lookup(table: seq<seq<real>>, codes: seq<nat>, n: nat): real
    requires n <= |table| && n <= |codes| && forall b :: 0 <= b < n ==> codes[b] < |table[b]|
  {
    if n == 0 then 0.0 else Lookup(table, codes, n - 1) + table[n - 1][codes[n - 1]]
  }

  method DistanceADC(q: Quantizer, table: seq<seq<real>>, codes: seq<nat>) returns (sum: real)
    requires CodesOk(q, codes) && |table| == q.m && forall b :: 0 <= b < q.m ==> |table[b]| == CODES
    ensures sum == Lookup(table, codes, q.m)
  {
    sum := 0.0;
    for b := 0 to q.m
      invariant sum == Lookup(table, codes, b)
    {
      sum := sum + table[b][codes[b]];
    }
  }

  lemma {:induction false} LookupIsByBlocks(q: Quantizer, query: Vec, table: seq<seq<real>>, codes: seq<nat>, y: Vec,
                                            n: nat)
    requires Ok(q) && q.trained && |query| == q.dim && IsTable(q, query, table)
    requires CodesOk(q, codes) && Decodes(q, codes, y, q.m) && n <= q.m
    ensures n * q.sub <= q.dim && Lookup(table, codes, n) == ByBlocks(query, y, n, q.sub)
  {
    if n > 0 {
      LookupIsByBlocks(q, query, table, codes, y, n - 1);
      BlocksFit(n - 1, q.m, q.sub);
      NextBlock(n - 1, q.sub);
      assert Block(y, n - 1, q.sub) == q.codebooks[n - 1][codes[n - 1]];
    }
  }

  /** Table lookup computes the exact distance to the decoded vector. */
  lemma {:induction false} AdcIsExact(q: Quantizer, query: Vec, table: seq<seq<real>>, codes: seq<nat>, y: Vec)
    requires Ok(q) && q.trained && |query| == q.dim && IsTable(q, query, table)
    requires CodesOk(q, codes) && Decodes(q, codes, y, q.m)
    ensures |y| == q.dim && Lookup(table, codes, q.m) == L2(query, y)
  {
    LookupIsByBlocks(q, query, table, codes, y, q.m);
    BlocksAddUp(query, y, q.m, q.sub);
  }

  /** The first of the entries nearest to the block. */
  ghost predicate FirstNearest(block: Vec, book: seq<Vec>, best: nat)
    requires best < |book| && forall c :: 0 <= c < |book| ==> |book[c]| == |block|
  {
    && (forall c :: 0 <= c < |book| ==> L2(block, book[best]) <= L2(block, book[c]))
    && forall c :: 0 <= c < best ==> L2(block, book[best]) < L2(block, book[c])
  }

  /** Codes that pick a nearest centroid in every block. */
  ghost predicate NearestCodes(q: Quantizer, v: Vec, codes: seq<nat>)
    requires Ok(q) && q.trained && |v| == q.dim
  {
    CodesOk(q, codes) && forall b: nat :: b < q.m ==>
      b * q.sub + q.sub <= |v| && FirstNearest(Block(v, b, q.sub), q.codebooks[b], codes[b])
  }

  /** The nearest centroid of one codebook. */
  method NearestCode(block: Vec, book: seq<Vec>, sub: nat) returns (best: nat)
    requires |block| == sub && |book| == CODES && forall c :: 0 <= c < CODES ==> |book[c]| == sub
    ensures best < CODES && FirstNearest(block, book, best)
  {
    best := 0;
    var bestDist := L2(block, book[0]);
    for c := 1 to CODES
      invariant best < CODES && bestDist == L2(block, book[best])
      invariant forall j :: 0 <= j < c ==> bestDist <= L2(block, book[j])
      invariant forall j :: 0 <= j < best ==> bestDist < L2(block, book[j])
    {
      var d := L2(block, book[c]);
      if d < bestDist {
        best, bestDist := c, d;
      }
    }
  }

  method Encode(q: Quantizer, v: Vec) returns (r: Option<seq<nat>>)
    requires Ok(q)
    ensures r.Some? <==> q.trained && |v| == q.dim
    ensures r.Some? ==> NearestCodes(q, v, r.value)
  {
    if !q.trained || |v| != q.dim {
      return None;
    }
    var codes: seq<nat> := [];
    for b := 0 to q.m
      invariant |codes| == b
      invariant forall j: nat :: j < b ==>
                  && codes[j] < CODES && j * q.sub + q.sub <= |v|
                  && FirstNearest(Block(v, j, q.sub), q.codebooks[j], codes[j])
    {
      BlocksFit(b, q.m, q.sub);
      var best := NearestCode(Block(v, b, q.sub), q.codebooks[b], q.sub);
      codes := codes + [best];
    }
    r := Some(codes);
  }

  lemma {:induction false} NearestByBlocks(q: Quantizer, v: Vec, codes: seq<nat>, y: Vec, codes': seq<nat>, y': Vec,
                                           n: nat)
    requires Ok(q) && q.trained && |v| == q.dim && NearestCodes(q, v, codes) && CodesOk(q, codes')
    requires Decodes(q, codes, y, q.m) && Decodes(q, codes', y', q.m) && n <= q.m
    ensures n * q.sub <= q.dim && ByBlocks(v, y, n, q.sub) <= ByBlocks(v, y', n, q.sub)
  {
    hide L2, Block;
    if n > 0 {
      NearestByBlocks(q, v, codes, y, codes', y', n - 1);
      BlocksFit(n - 1, q.m, q.sub);
      NextBlock(n - 1, q.sub);
      assert Block(y, n - 1, q.sub) == q.codebooks[n - 1][codes[n - 1]];
      assert Block(y', n - 1, q.sub) == q.codebooks[n - 1][codes'[n - 1]];
    }
  }

  /** No other codes, of all 256^m, reconstruct closer to the encoded vector. */
  lemma {:induction false} EncodeIsOptimal(q: Quantizer, v: Vec, codes: seq<nat>, y: Vec, codes': seq<nat>, y': Vec)
    requires Ok(q) && q.trained && |v| == q.dim && NearestCodes(q, v, codes) && CodesOk(q, codes')
    requires Decodes(q, codes, y, q.m) && Decodes(q, codes', y', q.m)
    ensures |y| == |y'| == q.dim && L2(v, y) <= L2(v, y')
  {
    NearestByBlocks(q, v, codes, y, codes', y', q.m);
    BlocksAddUp(v, y, q.m, q.sub);
    BlocksAddUp(v, y', q.m, q.sub);
  }

  function Minus(x: Vec, y: Vec): (r: Vec)
    requires |x| == |y|
    ensures |r| == |x|
  {
    seq(|x|, i requires 0 <= i < |x| => x[i] - y[i])
  }

  lemma {:induction false} ShiftPartial(query: Vec, centroid: Vec, residual: Vec, n: nat)
    requires |query| == |centroid| == |residual| && n <= |query|
    ensures Partial(Minus(query, centroid), residual, n) == Partial(query, Plus(centroid, residual), n)
  {
    if n > 0 {
      ShiftPartial(query, centroid, residual, n - 1);
      assert Minus(query, centroid)[n - 1] - residual[n - 1] == query[n - 1] - Plus(centroid, residual)[n - 1];
    }
  }

  /**
   The distance an IVF-PQ search computes for a code, from the table of the query's
   residual to the cluster centroid, is the exact distance to the exported vector centroid + decoded residual.
   */
  lemma {:induction false} SearchDistanceIsExportDistance(q: Quantizer, query: Vec, centroid: Vec,
                                                          table: seq<seq<real>>, codes: seq<nat>, residual: Vec)
    requires Ok(q) && q.trained && |query| == |centroid| == q.dim && IsTable(q, Minus(query, centroid), table)
    requires CodesOk(q, codes) && Decodes(q, codes, residual, q.m)
    ensures |residual| == q.dim && Lookup(table, codes, q.m) == L2(query, Plus(centroid, residual))
  {
    AdcIsExact(q, Minus(query, centroid), table, codes, residual);
    ShiftPartial(query, centroid, residual, q.dim);
  }
}
