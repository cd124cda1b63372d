/** Lloyd's iteration with parallel assignment and empty-cluster repair, in exact arithmetic. */
module KMeans {
  import opened Common
  import opened Euclid

  ghost predicate DataOk(vs: seq<Vec>, dim: nat) {
    forall i :: 0 <= i < |vs| ==> |vs[i]| == dim
  }

  /** vectors, centroids and assignments fit together. */
  ghost predicate Fits(vs: seq<Vec>, cs: seq<Vec>, a: seq<nat>, dim: nat) {
    && DataOk(vs, dim) && DataOk(cs, dim) && |a| == |vs|
    && forall i :: 0 <= i < |a| ==> a[i] < |cs|
  }

  /** The distance of vector i to its centroid. */
  ghost function Error(vs: seq<Vec>, cs: seq<Vec>, a: seq<nat>, dim: nat, i: nat): real
    requires Fits(vs, cs, a, dim) && i < |vs|
  {
    L2(vs[i], cs[a[i]])
  }

  /** The distortion of the first n vectors. */
  ghost function DistortionUpTo(vs: seq<Vec>, cs: seq<Vec>, a: seq<nat>, dim: nat, n: nat): real
    requires Fits(vs, cs, a, dim) && n <= |vs|
  {
    if n == 0 then 0.0 else DistortionUpTo(vs, cs, a, dim, n - 1) + Error(vs, cs, a, dim, n - 1)
  }

  ghost function Distortion(vs: seq<Vec>, cs: seq<Vec>, a: seq<nat>, dim: nat): real
    requires Fits(vs, cs, a, dim)
  {
    DistortionUpTo(vs, cs, a, dim, |vs|)
  }

  lemma {:induction false} PointwiseBetter(vs: seq<Vec>, cs: seq<Vec>, a: seq<nat>, cs': seq<Vec>, a': seq<nat>,
                                           dim: nat, n: nat)
    requires Fits(vs, cs, a, dim) && Fits(vs, cs', a', dim) && n <= |vs|
    requires forall i: nat :: i < |vs| ==> Error(vs, cs', a', dim, i) <= Error(vs, cs, a, dim, i)
    ensures DistortionUpTo(vs, cs', a', dim, n) <= DistortionUpTo(vs, cs, a, dim, n)
  {
    if n > 0 {
      PointwiseBetter(vs, cs, a, cs', a', dim, n - 1);
    }
  }

  // ---------------------------------------------------------------- one cluster

  ghost function Count(a: seq<nat>, k: nat, n: nat): nat
    requires n <= |a|
  {
    if n == 0 then 0 else Count(a, k, n - 1) + if a[n - 1] == k then 1 else 0
  }

  function Zeros(dim: nat): (z: Vec)
    ensures |z| == dim
  {
    seq(dim, _ => 0.0)
  }

  ghost function Sum(vs: seq<Vec>, a: seq<nat>, k: nat, dim: nat, n: nat): (s: Vec)
    requires DataOk(vs, dim) && |a| == |vs| && n <= |vs|
    ensures |s| == dim
  {
    if n == 0 then Zeros(dim)
    else
      var before := Sum(vs, a, k, dim, n - 1);
      if a[n - 1] == k then Plus(before, vs[n - 1]) else before
  }

  /** The cost of the first n members of cluster k with centre c. */
  ghost function Cost(vs: seq<Vec>, a: seq<nat>, k: nat, c: Vec, dim: nat, n: nat): real
    requires DataOk(vs, dim) && |a| == |vs| && n <= |vs| && |c| == dim
  {
    if n == 0 then 0.0
    else Cost(vs, a, k, c, dim, n - 1) + if a[n - 1] == k then L2(vs[n - 1], c) else 0.0
  }

  function Times(u: Vec, m: nat): (r: Vec)
    ensures |r| == |u|
  {
    Scale(u, m as real)
  }

  lemma {:induction false} TimesNext(u: Vec, m: nat)
    ensures Times(u, m + 1) == Plus(Times(u, m), u)
  {
    forall i | 0 <= i < |u| ensures Times(u, m + 1)[i] == Plus(Times(u, m), u)[i] {
      NextMultiple(m, u[i]);
    }
  }

  lemma {:induction false} NextMultiple(m: nat, d: real)
    ensures d * (m + 1) as real == d * m as real + d
  {
  }

  /** d added m times. */
  ghost function Repeated(m: nat, d: real): real {
    if m == 0 then 0.0 else Repeated(m - 1, d) + d
  }

  lemma {:induction false} RepeatedNotNegative(m: nat, d: real)
    requires d >= 0.0
    ensures Repeated(m, d) >= 0.0
  {
    if m > 0 {
      RepeatedNotNegative(m - 1, d);
    }
  }

  /** Any centre c costs what u costs, plus a cross term, plus |u - c|^2 per member. */
  lemma {:induction false} CostVia(vs: seq<Vec>, a: seq<nat>, k: nat, c: Vec, u: Vec, dim: nat, n: nat)
    requires DataOk(vs, dim) && |a| == |vs| && n <= |vs| && |c| == |u| == dim
    ensures Cost(vs, a, k, c, dim, n) ==
              Cost(vs, a, k, u, dim, n)
              + 2.0 * Cross(Sum(vs, a, k, dim, n), Times(u, Count(a, k, n)), u, c, dim)
              + Repeated(Count(a, k, n), L2(u, c))
  {
    if n == 0 {
      assert Times(u, 0) == Zeros(dim);
      CrossSame(Zeros(dim), u, c, dim);
    } else {
      hide Cross, Partial, Plus, Scale, Times, Zeros;
      CostVia(vs, a, k, c, u, dim, n - 1);
      if a[n - 1] == k {
        var s, m := Sum(vs, a, k, dim, n - 1), Count(a, k, n - 1);
        Expand(vs[n - 1], u, c, dim);
        TimesNext(u, m);
        CrossPlus(s, vs[n - 1], Times(u, m), u, u, c, dim);
      }
    }
  }

  lemma {:induction false} InverseCancels(x: real, m: nat)
    requires m > 0
    ensures x * (1.0 / m as real) * m as real == x
  {
  }

  /** The mean of a cluster costs no more than any other centre. */
  lemma {:induction false} MeanIsBest(vs: seq<Vec>, a: seq<nat>, k: nat, c: Vec, dim: nat)
    requires DataOk(vs, dim) && |a| == |vs| && |c| == dim && Count(a, k, |vs|) > 0
    ensures var u := Scale(Sum(vs, a, k, dim, |vs|), 1.0 / Count(a, k, |vs|) as real);
            Cost(vs, a, k, u, dim, |vs|) <= Cost(vs, a, k, c, dim, |vs|)
  {
    var s, m := Sum(vs, a, k, dim, |vs|), Count(a, k, |vs|);
    var u := Scale(s, 1.0 / m as real);
    assert Times(u, m) == s by {
      forall i | 0 <= i < dim ensures Times(u, m)[i] == s[i] {
        InverseCancels(s[i], m);
      }
    }
    CostVia(vs, a, k, c, u, dim, |vs|);
    CrossSame(s, u, c, dim);
    PartialNotNegative(u, c, dim);
    RepeatedNotNegative(m, L2(u, c));
  }

  lemma {:induction false} EmptyCostsNothing(vs: seq<Vec>, a: seq<nat>, k: nat, c: Vec, dim: nat, n: nat)
    requires DataOk(vs, dim) && |a| == |vs| && |c| == dim && n <= |vs| && Count(a, k, n) == 0
    ensures Cost(vs, a, k, c, dim, n) == 0.0
  {
    if n > 0 {
      EmptyCostsNothing(vs, a, k, c, dim, n - 1);
    }
  }

  // ---------------------------------------------------------------- all clusters

  /** The costs of the first j clusters. */
  ghost function Total(vs: seq<Vec>, cs: seq<Vec>, a: seq<nat>, dim: nat, n: nat, j: nat): real
    requires Fits(vs, cs, a, dim) && n <= |vs| && j <= |cs|
  {
    if j == 0 then 0.0 else Total(vs, cs, a, dim, n, j - 1) + Cost(vs, a, j - 1, cs[j - 1], dim, n)
  }

  lemma {:induction false} TotalOfNone(vs: seq<Vec>, cs: seq<Vec>, a: seq<nat>, dim: nat, j: nat)
    requires Fits(vs, cs, a, dim) && j <= |cs|
    ensures Total(vs, cs, a, dim, 0, j) == 0.0
  {
    if j > 0 {
      TotalOfNone(vs, cs, a, dim, j - 1);
    }
  }

  lemma {:induction false} TotalNext(vs: seq<Vec>, cs: seq<Vec>, a: seq<nat>, dim: nat, n: nat, j: nat)
    requires Fits(vs, cs, a, dim) && 0 < n <= |vs| && j <= |cs|
    ensures Total(vs, cs, a, dim, n, j) ==
              Total(vs, cs, a, dim, n - 1, j) + if a[n - 1] < j then Error(vs, cs, a, dim, n - 1) else 0.0
  {
    if j > 0 {
      TotalNext(vs, cs, a, dim, n, j - 1);
    }
  }

  /** Summing by cluster gives the distortion. */
  lemma {:induction false} DistortionByCluster(vs: seq<Vec>, cs: seq<Vec>, a: seq<nat>, dim: nat, n: nat)
    requires Fits(vs, cs, a, dim) && n <= |vs|
    ensures DistortionUpTo(vs, cs, a, dim, n) == Total(vs, cs, a, dim, n, |cs|)
  {
    if n == 0 {
      TotalOfNone(vs, cs, a, dim, |cs|);
    } else {
      DistortionByCluster(vs, cs, a, dim, n - 1);
      TotalNext(vs, cs, a, dim, n, |cs|);
    }
  }

  /** cs' holds the mean of every non-empty cluster. */
  ghost predicate Means(vs: seq<Vec>, a: seq<nat>, cs': seq<Vec>, dim: nat)
    requires DataOk(vs, dim) && |a| == |vs|
  {
    && DataOk(cs', dim)
    && forall k :: 0 <= k < |cs'| && Count(a, k, |vs|) > 0 ==>
         cs'[k] == Scale(Sum(vs, a, k, dim, |vs|), 1.0 / Count(a, k, |vs|) as real)
  }

  lemma {:induction false} MeansTotal(vs: seq<Vec>, cs: seq<Vec>, cs': seq<Vec>, a: seq<nat>, dim: nat, j: nat)
    requires Fits(vs, cs, a, dim) && |cs'| == |cs| && Means(vs, a, cs', dim) && j <= |cs|
    ensures Fits(vs, cs', a, dim)
    ensures Total(vs, cs', a, dim, |vs|, j) <= Total(vs, cs, a, dim, |vs|, j)
  {
    if j > 0 {
      MeansTotal(vs, cs, cs', a, dim, j - 1);
      if Count(a, j - 1, |vs|) > 0 {
        MeanIsBest(vs, a, j - 1, cs[j - 1], dim);
      } else {
        EmptyCostsNothing(vs, a, j - 1, cs[j - 1], dim, |vs|);
        EmptyCostsNothing(vs, a, j - 1, cs'[j - 1], dim, |vs|);
      }
    }
  }

  /** Moving every centroid to its cluster's mean never raises the distortion. */
  lemma {:induction false} MeansImprove(vs: seq<Vec>, cs: seq<Vec>, cs': seq<Vec>, a: seq<nat>, dim: nat)
    requires Fits(vs, cs, a, dim) && |cs'| == |cs| && Means(vs, a, cs', dim)
    ensures Fits(vs, cs', a, dim) && Distortion(vs, cs', a, dim) <= Distortion(vs, cs, a, dim)
  {
    MeansTotal(vs, cs, cs', a, dim, |cs|);
    DistortionByCluster(vs, cs, a, dim, |vs|);
    DistortionByCluster(vs, cs', a, dim, |vs|);
  }

  /** Giving an unused cluster to one vector, centred there, never raises the distortion. */
  lemma {:induction false} RepairImproves(vs: seq<Vec>, cs: seq<Vec>, a: seq<nat>, dim: nat, c: nat, f: nat)
    requires Fits(vs, cs, a, dim) && c < |cs| && f < |vs| && c !in a
    ensures Fits(vs, cs[c := vs[f]], a[f := c], dim)
    ensures Distortion(vs, cs[c := vs[f]], a[f := c], dim) <= Distortion(vs, cs, a, dim)
  {
    var cs', a' := cs[c := vs[f]], a[f := c];
    forall i: nat | i < |vs| ensures Error(vs, cs', a', dim, i) <= Error(vs, cs, a, dim, i) {
      if i == f {
        PartialSelf(vs[f], dim);
        PartialNotNegative(vs[i], cs[a[i]], dim);
      } else {
        assert a[i] in a;
      }
    }
    PointwiseBetter(vs, cs, a, cs', a', dim, |vs|);
  }

  // ---------------------------------------------------------------- the algorithm

  /** The centroid of the vector is a nearest one, the first among equals. */
  ghost predicate Nearest(vs: seq<Vec>, cs: seq<Vec>, i: nat, k: nat, dim: nat)
    requires DataOk(vs, dim) && DataOk(cs, dim) && i < |vs|
  {
    && k < |cs| && (forall c :: 0 <= c < |cs| ==> L2(vs[i], cs[k]) <= L2(vs[i], cs[c]))
    && forall c :: 0 <= c < k ==> L2(vs[i], cs[k]) < L2(vs[i], cs[c])
  }

  /** Where chunk w starts and ends for n items in chunks of the given size. */
  function ChunkStart(w: nat, size: nat, n: nat): nat {
    if w * size > n then n else w * size
  }

  lemma {:induction false} ChunkOrder(w: nat, size: nat, n: nat)
    ensures ChunkStart(w, size, n) <= ChunkStart(w + 1, size, n) <= n
  {
    assert (w + 1) * size == w * size + size;
  }

  /** ceil(n / workers). */
  function ChunkSize(n: nat, workers: nat): nat
    requires workers > 0
  {
    (n + workers - 1) / workers
  }

  /** With size = ceil(n / workers), the chunks of all workers reach the end. */
  lemma {:induction false} ChunksReachEnd(workers: nat, n: nat)
    requires workers > 0
    ensures ChunkStart(workers, ChunkSize(n, workers), n) == n
  {
    var size := ChunkSize(n, workers);
    var rest := (n + workers - 1) % workers;
    assert workers * size + rest == n + workers - 1;
  }

  lemma {:induction false} ChunkOrderFar(v: nat, w: nat, size: nat, n: nat)
    requires v <= w
    ensures ChunkStart(v, size, n) <= ChunkStart(w, size, n)
    decreases w
  {
    if v < w {
      ChunkOrderFar(v, w - 1, size, n);
      ChunkOrder(w - 1, size, n);
    }
  }

  /** Index i belongs to chunk w. */
  ghost predicate InChunk(i: nat, w: nat, size: nat, n: nat) {
    ChunkStart(w, size, n) <= i < ChunkStart(w + 1, size, n)
  }

  lemma {:induction false} OneChunk(i: nat, v: nat, w: nat, size: nat, n: nat)
    requires InChunk(i, v, size, n) && InChunk(i, w, size, n)
    ensures v == w
  {
    hide ChunkStart;
    if v < w {
      ChunkOrderFar(v + 1, w, size, n);
    } else if w < v {
      ChunkOrderFar(w + 1, v, size, n);
    }
  }

  lemma {:induction false} SomeChunk(i: nat, size: nat, n: nat, workers: nat) returns (w: nat)
    requires i < n && i < ChunkStart(workers, size, n)
    ensures w < workers && InChunk(i, w, size, n)
    decreases workers
  {
    if ChunkStart(workers - 1, size, n) <= i {
      w := workers - 1;
    } else {
      w := SomeChunk(i, size, n, workers - 1);
    }
  }

  /** The chunks visit every index exactly once. */
  lemma {:induction false} EachIndexOnce(i: nat, n: nat, workers: nat) returns (w: nat)
    requires i < n && workers > 0
    ensures w < workers && InChunk(i, w, ChunkSize(n, workers), n)
    ensures forall v: nat :: InChunk(i, v, ChunkSize(n, workers), n) ==> v == w
  {
    var size := ChunkSize(n, workers);
    ChunksReachEnd(workers, n);
    w := SomeChunk(i, size, n, workers);
    forall v: nat | InChunk(i, v, size, n) ensures v == w {
      OneChunk(i, v, w, size, n);
    }
  }

  /** Worker w's chunk is fully assigned. */
  ghost predicate ChunkDone(vs: seq<Vec>, cs: seq<Vec>, a: seq<nat>, dim: nat, w: nat, size: nat)
    requires DataOk(vs, dim) && DataOk(cs, dim) && |a| == |vs|
  {
    forall i: nat :: i < |vs| && InChunk(i, w, size, |vs|) ==> Nearest(vs, cs, i, a[i], dim)
  }

  /** The indexes at which two assignments differ. */
  ghost function Diff(a: seq<nat>, b: seq<nat>): set<nat>
    requires |a| == |b|
  {
    set i: nat | i < |a| && a[i] != b[i]
  }

  lemma {:induction false} DiffNone(a: seq<nat>)
    ensures Diff(a, a) == {}
  {
  }

  lemma {:induction false} DiffOne(a: seq<nat>, b: seq<nat>, i: nat, x: nat)
    requires |a| == |b| && i < |a| && a[i] == b[i] && x != b[i]
    ensures |Diff(a, b[i := x])| == |Diff(a, b)| + 1
  {
    assert Diff(a, b[i := x]) == Diff(a, b) + {i};
  }

  /** Changes at different places add up. */
  lemma {:induction false} DiffAdds(a: seq<nat>, b: seq<nat>, c: seq<nat>)
    requires |a| == |b| == |c| && forall i :: 0 <= i < |a| ==> a[i] == b[i] || b[i] == c[i]
    ensures |Diff(a, c)| == |Diff(a, b)| + |Diff(b, c)|
  {
    assert Diff(a, c) == Diff(a, b) + Diff(b, c);
    assert Diff(a, b) !! Diff(b, c);
  }

  /** Every worker once, in some order. */
  ghost predicate IsOrder(order: seq<nat>, workers: nat) {
    NoRepeats(order) && forall w: nat :: w in order <==> w < workers
  }

  /** Only chunks of the first t workers were changed. */
  ghost predicate ChangedWithin(a: seq<nat>, b: seq<nat>, order: seq<nat>, t: nat, size: nat)
    requires |a| == |b| && t <= |order|
  {
    forall i: nat :: i < |a| && a[i] != b[i] ==> exists u :: 0 <= u < t && InChunk(i, order[u], size, |a|)
  }

  // ---------------------------------------------------------------- what a round does

  datatype Clustering = Clustering(cs: seq<Vec>, a: seq<nat>)

  /** During a repair: centroids, assignments, and the vectors already handed over. */
  datatype Repair = Repair(cs: seq<Vec>, a: seq<nat>, taken: set<nat>)

  /** far is the first of the vectors not skipped that are farthest from their centroids. */
  ghost predicate Farthest(vs: seq<Vec>, cs: seq<Vec>, a: seq<nat>, dim: nat, skip: set<nat>, far: nat)
    requires Fits(vs, cs, a, dim)
  {
    && far < |vs| && far !in skip
    && forall i: nat :: i < |vs| && i !in skip ==>
         && Error(vs, cs, a, dim, i) <= Error(vs, cs, a, dim, far)
         && (i < far ==> Error(vs, cs, a, dim, i) < Error(vs, cs, a, dim, far))
  }

  /** Cluster c takes the farthest vector left if it is empty and any is left. */
  ghost predicate RepairStep(vs: seq<Vec>, r: Repair, c: nat, empty: bool, r': Repair, dim: nat)
    requires c < |r.cs|
  {
    Fits(vs, r.cs, r.a, dim) &&
    if empty && exists i: nat :: i < |vs| && i !in r.taken then
      exists far: nat :: Farthest(vs, r.cs, r.a, dim, r.taken, far)
                         && r' == Repair(r.cs[c := vs[far]], r.a[far := c], r.taken + {far})
    else r' == r
  }

  ghost predicate Repairs(vs: seq<Vec>, counts: seq<nat>, dim: nat, history: seq<Repair>) {
    && 0 < |history| <= |counts| + 1 && (forall c :: 0 <= c < |history| ==> |history[c].cs| == |counts|)
    && forall c: nat :: c < |history| - 1 ==> RepairStep(vs, history[c], c, counts[c] == 0, history[c + 1], dim)
  }

  lemma {:induction false} TookFarthest(vs: seq<Vec>, r: Repair, c: nat, far: nat, dim: nat)
    requires c < |r.cs| && Fits(vs, r.cs, r.a, dim) && Farthest(vs, r.cs, r.a, dim, r.taken, far)
    ensures RepairStep(vs, r, c, true, Repair(r.cs[c := vs[far]], r.a[far := c], r.taken + {far}), dim)
  {
  }

  lemma {:induction false} TookNothing(vs: seq<Vec>, r: Repair, c: nat, dim: nat)
    requires c < |r.cs| && Fits(vs, r.cs, r.a, dim) && forall i: nat :: i < |vs| ==> i in r.taken
    ensures RepairStep(vs, r, c, true, r, dim)
  {
  }

  lemma {:induction false} NotEmpty(vs: seq<Vec>, r: Repair, c: nat, dim: nat)
    requires c < |r.cs| && Fits(vs, r.cs, r.a, dim)
    ensures RepairStep(vs, r, c, false, r, dim)
  {
  }

  /** The mean of the members of a cluster; an empty one has its centroid at the origin. */
  ghost function MeanOf(vs: seq<Vec>, a: seq<nat>, c: nat, dim: nat): Vec
    requires DataOk(vs, dim) && |a| == |vs|
  {
    var m := Count(a, c, |vs|);
    if m == 0 then seq(dim, _ => 0.0)
    else
      var s := Sum(vs, a, c, dim, |vs|);
      seq(dim, d requires 0 <= d < dim => s[d] / m as real)
  }

  /** The centroids became the means of their members, and the empty clusters were repaired in order. */
  ghost predicate UpdatedBy(vs: seq<Vec>, a: seq<nat>, after: Clustering, k: nat, dim: nat, counts: seq<nat>,
                            history: seq<Repair>)
  {
    && DataOk(vs, dim) && |a| == |vs| && |counts| == k && |history| == k + 1 && Repairs(vs, counts, dim, history)
    && history[0].a == a && history[0].taken == {}
    && (forall c :: 0 <= c < k ==> counts[c] == Count(a, c, |vs|) && history[0].cs[c] == MeanOf(vs, a, c, dim))
    && after == Clustering(history[k].cs, history[k].a)
  }

  ghost predicate Updates(vs: seq<Vec>, a: seq<nat>, after: Clustering, k: nat, dim: nat) {
    exists counts: seq<nat>, history: seq<Repair> :: UpdatedBy(vs, a, after, k, dim, counts, history)
  }

  lemma {:induction false} MeansThenRepairs(vs: seq<Vec>, a: seq<nat>, sums: seq<Vec>, counts: seq<nat>,
                                            means: seq<Vec>,
                                            history: seq<Repair>, after: Clustering, k: nat, dim: nat)
    requires DataOk(vs, dim) && |a| == |vs| && |sums| == |counts| == |means| == k && |history| == k + 1
    requires forall c :: 0 <= c < k ==> sums[c] == Sum(vs, a, c, dim, |vs|) && counts[c] == Count(a, c, |vs|)
    requires forall c :: 0 <= c < k ==>
               means[c] == if counts[c] > 0 then Scale(sums[c], 1.0 / counts[c] as real) else sums[c]
    requires Repairs(vs, counts, dim, history) && history[0] == Repair(means, a, {})
    requires after == Clustering(history[k].cs, history[k].a)
    ensures Updates(vs, a, after, k, dim)
  {
    hide Repairs, Sum, Count, Scale, MeanOf;
    forall c | 0 <= c < k ensures means[c] == MeanOf(vs, a, c, dim) {
      MeanIs(vs, a, c, dim, sums[c], counts[c], means[c]);
    }
    assert UpdatedBy(vs, a, after, k, dim, counts, history);
  }

  lemma {:induction false} MeanIs(vs: seq<Vec>, a: seq<nat>, c: nat, dim: nat, sum: Vec, count: nat, mean: Vec)
    requires DataOk(vs, dim) && |a| == |vs| && sum == Sum(vs, a, c, dim, |vs|) && count == Count(a, c, |vs|)
    requires mean == if count > 0 then Scale(sum, 1.0 / count as real) else sum
    ensures mean == MeanOf(vs, a, c, dim)
  {
    if count == 0 {
      SumOfNone(vs, a, c, dim, |vs|);
    } else {
      forall d | 0 <= d < dim ensures mean[d] == sum[d] / count as real {
        Reciprocal(sum[d], count);
      }
    }
  }

  lemma {:induction false} Reciprocal(x: real, m: nat)
    requires m > 0
    ensures x * (1.0 / m as real) == x / m as real
  {
  }

  lemma {:induction false} SumOfNone(vs: seq<Vec>, a: seq<nat>, c: nat, dim: nat, n: nat)
    requires DataOk(vs, dim) && |a| == |vs| && n <= |vs| && Count(a, c, n) == 0
    ensures Sum(vs, a, c, dim, n) == Zeros(dim)
  {
    if n > 0 {
      SumOfNone(vs, a, c, dim, n - 1);
    }
  }

  /** A cluster with members ends at their mean. */
  lemma {:induction false} MembersGetMean(vs: seq<Vec>, a: seq<nat>, after: Clustering, k: nat, dim: nat, c: nat)
    requires Updates(vs, a, after, k, dim) && c < k && Count(a, c, |vs|) > 0
    ensures c < |after.cs| && after.cs[c] == MeanOf(vs, a, c, dim)
  {
    var counts: seq<nat>, history: seq<Repair> :| UpdatedBy(vs, a, after, k, dim, counts, history);
    FullStays(vs, counts, dim, history, c, k);
  }

  lemma {:induction false} FullStays(vs: seq<Vec>, counts: seq<nat>, dim: nat, history: seq<Repair>, c: nat, n: nat)
    requires Repairs(vs, counts, dim, history) && c < |counts| && counts[c] > 0 && n < |history|
    ensures history[n].cs[c] == history[0].cs[c]
  {
    if n > 0 {
      FullStays(vs, counts, dim, history, c, n - 1);
      assert RepairStep(vs, history[n - 1], n - 1, counts[n - 1] == 0, history[n - 1 + 1], dim);
    }
  }

  /** Every vector went to its nearest centroid, the first one among equals; moved counts those that changed. */
  ghost predicate Assigns(vs: seq<Vec>, before: Clustering, a: seq<nat>, moved: nat, dim: nat) {
    && DataOk(vs, dim) && DataOk(before.cs, dim) && |a| == |before.a| == |vs|
    && (forall i: nat :: i < |vs| ==> Nearest(vs, before.cs, i, a[i], dim)) && moved == |Diff(before.a, a)|
  }

  lemma {:induction false} AssignedIs(vs: seq<Vec>, before: Clustering, a: seq<nat>, moved: nat, dim: nat)
    requires DataOk(vs, dim) && DataOk(before.cs, dim) && |a| == |before.a| == |vs|
    requires (forall i: nat :: i < |vs| ==> Nearest(vs, before.cs, i, a[i], dim)) && moved == |Diff(before.a, a)|
    ensures Assigns(vs, before, a, moved, dim)
  {
  }

  /** The test after assignment t: fewer than one vector in a thousand moved, or none twice in a row. */
  ghost predicate Stops(n: nat, changes: seq<nat>, t: nat)
    requires t < |changes|
  {
    t > 0 && (changes[t] * 1000 < n || (changes[t] == 0 && changes[t - 1] == 0))
  }

  ghost predicate Round(vs: seq<Vec>, before: Clustering, after: Clustering, moved: nat, k: nat, dim: nat) {
    exists a :: Assigns(vs, before, a, moved, dim) && Updates(vs, a, after, k, dim)
  }

  /** Each clustering comes from the one before by a full round that did not stop. */
  ghost predicate Iterates(vs: seq<Vec>, runs: seq<Clustering>, changes: seq<nat>, k: nat, dim: nat) {
    && 0 < |runs| <= |changes| + 1
    && forall t :: 0 <= t < |runs| - 1 ==>
         Round(vs, runs[t], runs[t + 1], changes[t], k, dim) && !Stops(|vs|, changes, t)
  }

  lemma {:induction false} OneRound(vs: seq<Vec>, runs: seq<Clustering>, changes: seq<nat>, k: nat, dim: nat,
                                    a: seq<nat>, moved: nat, after: Clustering)
    requires Iterates(vs, runs, changes, k, dim) && |changes| == |runs| - 1
    requires Assigns(vs, runs[|changes|], a, moved, dim) && Updates(vs, a, after, k, dim)
    requires !Stops(|vs|, changes + [moved], |changes|)
    ensures Iterates(vs, runs + [after], changes + [moved], k, dim)
  {
    assert Round(vs, runs[|changes|], after, moved, k, dim);
    hide Round;
    var r, m := runs + [after], changes + [moved];
    forall t | 0 <= t < |r| - 1 ensures Round(vs, r[t], r[t + 1], m[t], k, dim) && !Stops(|vs|, m, t) {
      if t < |changes| {
        assert !Stops(|vs|, changes, t);
      }
    }
  }

  /** The outcome: all rounds were run, or the test stopped after the assignment that gave the final clusters. */
  ghost predicate Ends(vs: seq<Vec>, runs: seq<Clustering>, changes: seq<nat>, maxIter: nat, last: Clustering, dim: nat)
    requires |runs| > 0
  {
    var t := |runs| - 1;
    || (t == maxIter && |changes| == t && last == runs[t])
    || (t < maxIter && |changes| == t + 1 && Stops(|vs|, changes, t)
        && last.cs == runs[t].cs && Assigns(vs, runs[t], last.a, changes[t], dim))
  }

  lemma {:induction false} EndsHere(vs: seq<Vec>, runs: seq<Clustering>, changes: seq<nat>, k: nat, dim: nat,
                                    maxIter: nat, moved: nat, last: Clustering)
    requires Iterates(vs, runs, changes, k, dim) && |changes| == |runs| - 1 < maxIter
    requires last.cs == runs[|changes|].cs && Assigns(vs, runs[|changes|], last.a, moved, dim)
    requires |changes| > 0 && (moved * 1000 < |vs| || (moved == 0 && changes[|changes| - 1] == 0))
    ensures Iterates(vs, runs, changes + [moved], k, dim) && Ends(vs, runs, changes + [moved], maxIter, last, dim)
  {
    hide Round, Assigns;
    var m := changes + [moved];
    forall t | 0 <= t < |runs| - 1 ensures Round(vs, runs[t], runs[t + 1], m[t], k, dim) && !Stops(|vs|, m, t) {
      assert !Stops(|vs|, changes, t);
    }
  }

  lemma {:induction false} NoRoundYet(vs: seq<Vec>, start: Clustering, k: nat, dim: nat)
    ensures Iterates(vs, [start], [], k, dim)
  {
  }

  lemma {:induction false} AllRounds(vs: seq<Vec>, runs: seq<Clustering>, changes: seq<nat>, maxIter: nat,
                                     last: Clustering, dim: nat)
    requires |runs| == maxIter + 1 && |changes| == maxIter && last == runs[maxIter]
    ensures Ends(vs, runs, changes, maxIter, last, dim)
  {
  }

  class KMeans {
    const k: nat
    const dim: nat
    const maxIter: nat
    var centroids: seq<Vec>

    ghost predicate Valid()
      reads this
    {
      k > 0 && |centroids| == k && DataOk(centroids, dim)
    }

    /** Starts from the centroids chosen by the seeding. */
    constructor (k: nat, dim: nat, maxIter: nat, seeds: seq<Vec>)
      requires k > 0 && |seeds| == k && DataOk(seeds, dim)
      ensures Valid() && centroids == seeds && this.dim == dim && this.k == k && this.maxIter == maxIter
    {
      this.k, this.dim, this.maxIter, centroids := k, dim, maxIter, seeds;
    }

    method NearestCentroid(v: Vec) returns (best: nat)
      requires Valid() && |v| == dim
      ensures best < k && forall c :: 0 <= c < k ==> L2(v, centroids[best]) <= L2(v, centroids[c])
      ensures forall c :: 0 <= c < best ==> L2(v, centroids[best]) < L2(v, centroids[c])
    {
      best := 0;
      var bestDist := L2(v, centroids[0]);
      for c := 1 to k
        invariant best < k && bestDist == L2(v, centroids[best])
        invariant forall j :: 0 <= j < c ==> bestDist <= L2(v, centroids[j])
        invariant best < c && forall j :: 0 <= j < best ==> bestDist < L2(v, centroids[j])
      {
        var d := L2(v, centroids[c]);
        if d < bestDist {
          best, bestDist := c, d;
        }
      }
    }

    /** One worker's chunk. */
    method AssignChunk(vs: seq<Vec>, assignments: array<nat>, start: nat, end: nat) returns (changes: nat)
      requires Valid() && DataOk(vs, dim) && assignments.Length == |vs| && start <= end <= |vs|
      modifies assignments
      ensures forall i: nat :: start <= i < end ==> Nearest(vs, centroids, i, assignments[i], dim)
      ensures forall i: nat :: i < |vs| && !(start <= i < end) ==> assignments[i] == old(assignments[i])
      ensures changes == |Diff(old(assignments[..]), assignments[..])|
    {
      changes := 0;
      DiffNone(assignments[..]);
      for i := start to end
        invariant forall j: nat :: start <= j < i ==> Nearest(vs, centroids, j, assignments[j], dim)
        invariant forall j: nat :: j < |vs| && !(start <= j < i) ==> assignments[j] == old(assignments[j])
        invariant changes == |Diff(old(assignments[..]), assignments[..])|
      {
        hide Diff, L2;
        ghost var before := assignments[..];
        var nearest := NearestCentroid(vs[i]);
        if nearest != assignments[i] {
          DiffOne(old(assignments[..]), before, i, nearest);
          assignments[i] := nearest;
          assert assignments[..] == before[i := nearest];
          changes := changes + 1;
        }
      }
    }

    /** Every worker in the given order handles its chunk. */
    method AssignWorkers(vs: seq<Vec>, assignments: array<nat>, size: nat, order: seq<nat>) returns (changes: nat)
      requires Valid() && DataOk(vs, dim) && assignments.Length == |vs| && NoRepeats(order)
      modifies assignments
      ensures forall u :: 0 <= u < |order| ==> ChunkDone(vs, centroids, assignments[..], dim, order[u], size)
      ensures changes == |Diff(old(assignments[..]), assignments[..])|
    {
      hide Nearest, ChunkStart, Diff;
      changes := 0;
      DiffNone(assignments[..]);
      for t := 0 to |order|
        invariant forall u :: 0 <= u < t ==> ChunkDone(vs, centroids, assignments[..], dim, order[u], size)
        invariant ChangedWithin(old(assignments[..]), assignments[..], order, t, size)
        invariant changes == |Diff(old(assignments[..]), assignments[..])|
      {
        ChunkOrder(order[t], size, |vs|);
        ghost var before := assignments[..];
        var local := AssignChunk(vs, assignments, ChunkStart(order[t], size, |vs|),
                                 ChunkStart(order[t] + 1, size, |vs|));
        NewChunk(old(assignments[..]), before, assignments[..], order, t, size);
        DiffAdds(old(assignments[..]), before, assignments[..]);
        changes := changes + local;
      }
    }

    /** A worker's chunk is not touched by the workers before it. */
    static lemma {:induction false} NewChunk(a: seq<nat>, b: seq<nat>, c: seq<nat>, order: seq<nat>, t: nat, size: nat)
      requires |a| == |b| == |c| && t < |order| && NoRepeats(order) && ChangedWithin(a, b, order, t, size)
      requires forall i: nat :: i < |a| && !InChunk(i, order[t], size, |a|) ==> c[i] == b[i]
      ensures forall i :: 0 <= i < |a| ==> a[i] == b[i] || b[i] == c[i]
      ensures ChangedWithin(a, c, order, t + 1, size)
    {
      hide InChunk;
      forall i: nat | i < |a| ensures a[i] == b[i] || b[i] == c[i] {
        if a[i] != b[i] && InChunk(i, order[t], size, |a|) {
          var u :| 0 <= u < t && InChunk(i, order[u], size, |a|);
          OneChunk(i, order[u], order[t], size, |a|);
        }
      }
      forall i: nat | i < |a| && a[i] != c[i] ensures exists u :: 0 <= u < t + 1 && InChunk(i, order[u], size, |a|) {
        if a[i] != b[i] {
          var u :| 0 <= u < t && InChunk(i, order[u], size, |a|);
        } else {
          assert InChunk(i, order[t], size, |a|);
        }
      }
    }

    /**
     The assignment step, with the workers finishing in any order: every vector gets a
     nearest centroid, and changes counts the vectors that moved.
     */
    method AssignParallel(vs: seq<Vec>, assignments: array<nat>, cpus: nat, order: seq<nat>) returns (changes: nat)
      requires Valid() && DataOk(vs, dim) && assignments.Length == |vs| > 0 && cpus > 0
      requires IsOrder(order, if cpus > |vs| then |vs| else cpus)
      modifies assignments
      ensures forall i: nat :: i < |vs| ==> Nearest(vs, centroids, i, assignments[i], dim)
      ensures changes == |Diff(old(assignments[..]), assignments[..])|
    {
      hide Nearest, ChunkStart, Diff;
      var n := |vs|;
      var workers := if cpus > n then n else cpus;
      var size := ChunkSize(n, workers);
      changes := AssignWorkers(vs, assignments, size, order);
      forall i: nat | i < n ensures Nearest(vs, centroids, i, assignments[i], dim) {
        var w := EachIndexOnce(i, n, workers);
        assert w in order;
        var u :| 0 <= u < |order| && order[u] == w;
        assert ChunkDone(vs, centroids, assignments[..], dim, order[u], size);
        assert assignments[..][i] == assignments[i];
      }
    }

    /** Sums and sizes of the clusters. */
    method Accumulate(vs: seq<Vec>, a: seq<nat>) returns (sums: seq<Vec>, counts: seq<nat>)
      requires Valid() && Fits(vs, centroids, a, dim)
      ensures |sums| == |counts| == k
      ensures forall c :: 0 <= c < k ==> sums[c] == Sum(vs, a, c, dim, |vs|) && counts[c] == Count(a, c, |vs|)
    {
      sums := seq(k, _ => Zeros(dim));
      counts := seq(k, _ => 0);
      for i := 0 to |vs|
        invariant |sums| == |counts| == k
        invariant forall c :: 0 <= c < k ==> sums[c] == Sum(vs, a, c, dim, i) && counts[c] == Count(a, c, i)
      {
        var c := a[i];
        counts := counts[c := counts[c] + 1];
        sums := sums[c := Plus(sums[c], vs[i])];
      }
    }

    /** Divides every non-empty cluster's sum by its size. */
    method Average(sums: seq<Vec>, counts: seq<nat>) returns (means: seq<Vec>)
      requires |sums| == |counts| && DataOk(sums, dim)
      ensures |means| == |sums| && DataOk(means, dim)
      ensures forall c :: 0 <= c < |sums| ==>
                means[c] == if counts[c] > 0 then Scale(sums[c], 1.0 / counts[c] as real) else sums[c]
    {
      means := [];
      for c := 0 to |sums|
        invariant |means| == c && DataOk(means, dim)
        invariant forall j :: 0 <= j < c ==>
                    means[j] == if counts[j] > 0 then Scale(sums[j], 1.0 / counts[j] as real) else sums[j]
      {
        means := means + [if counts[c] > 0 then Scale(sums[c], 1.0 / counts[c] as real) else sums[c]];
      }
    }

    /** The vector farthest from its centroid among those not skipped; -1 when all are. */
    method FindFarthestVector(vs: seq<Vec>, a: seq<nat>, cs: seq<Vec>, skip: set<nat>) returns (far: int)
      requires Fits(vs, cs, a, dim)
      ensures -1 <= far < |vs|
      ensures far >= 0 ==> Farthest(vs, cs, a, dim, skip, far)
      ensures far == -1 ==> forall i: nat :: i < |vs| ==> i in skip
    {
      var maxDist := -1.0;
      far := -1;
      for i := 0 to |vs|
        invariant -1 <= far < i
        invariant far == -1 ==> maxDist == -1.0 && forall j: nat :: j < i ==> j in skip
        invariant far >= 0 ==> far as nat !in skip && maxDist == L2(vs[far], cs[a[far]])
                               && forall j: nat :: j < i && j !in skip ==>
                                    L2(vs[j], cs[a[j]]) <= maxDist && (j < far ==> L2(vs[j], cs[a[j]]) < maxDist)
      {
        if i !in skip {
          var d := L2(vs[i], cs[a[i]]);
          PartialNotNegative(vs[i], cs[a[i]], dim);
          if d > maxDist {
            maxDist, far := d, i;
          }
        }
      }
    }

    /**
     Hands each empty cluster the vector farthest from its centroid, each vector once; the
     distortion does not rise. history holds the state before and after each cluster.
     */
    method RepairEmpty(vs: seq<Vec>, assignments: array<nat>, counts: seq<nat>, means: seq<Vec>)
      returns (cs: seq<Vec>, ghost history: seq<Repair>)
      requires Valid() && |means| == |counts| == k && assignments.Length == |vs|
      requires Fits(vs, means, assignments[..], dim)
      requires forall c :: 0 <= c < k && counts[c] == 0 ==> c !in assignments[..]
      modifies assignments
      ensures |cs| == k && Fits(vs, cs, assignments[..], dim)
      ensures Distortion(vs, cs, assignments[..], dim) <= Distortion(vs, means, old(assignments[..]), dim)
      ensures Repairs(vs, counts, dim, history) && |history| == k + 1
      ensures history[0] == Repair(means, old(assignments[..]), {})
      ensures history[k].cs == cs && history[k].a == assignments[..]
    {
      cs := means;
      var reassigned: set<nat> := {};
      history := [Repair(means, assignments[..], {})];
      for c := 0 to k
        invariant |cs| == k && Fits(vs, cs, assignments[..], dim)
        invariant forall j :: c <= j < k && counts[j] == 0 ==> j !in assignments[..]
        invariant Distortion(vs, cs, assignments[..], dim) <= Distortion(vs, means, old(assignments[..]), dim)
        invariant |history| == c + 1 && Repairs(vs, counts, dim, history)
        invariant history[0] == Repair(means, old(assignments[..]), {})
        invariant history[c] == Repair(cs, assignments[..], reassigned)
      {
        hide Distortion, DistortionUpTo, RepairStep;
        ghost var before, a := history[c], assignments[..];
        if counts[c] == 0 {
          var far := FindFarthestVector(vs, assignments[..], cs, reassigned);
          if far >= 0 {
            RepairImproves(vs, cs, a, dim, c, far);
            cs := cs[c := vs[far]];
            reassigned := reassigned + {far as nat};
            assignments[far] := c;
            assert assignments[..] == a[far := c as nat];
            forall j | c < j < k && counts[j] == 0 ensures j !in assignments[..] {
              StillUnused(a, far, c, j);
            }
            TookFarthest(vs, before, c, far, dim);
          } else {
            TookNothing(vs, before, c, dim);
          }
        } else {
          NotEmpty(vs, before, c, dim);
        }
        history := history + [Repair(cs, assignments[..], reassigned)];
      }
    }

    static lemma {:induction false} StillUnused(a: seq<nat>, f: nat, c: nat, j: nat)
      requires f < |a| && j !in a && j != c
      ensures j !in a[f := c]
    {
    }

    /** The update step: means, then repair of the empty clusters. It never raises the distortion. */
    method UpdateCentroids(vs: seq<Vec>, assignments: array<nat>)
      requires Valid() && assignments.Length == |vs| && Fits(vs, centroids, assignments[..], dim)
      modifies this, assignments
      ensures Valid() && Fits(vs, centroids, assignments[..], dim)
      ensures Distortion(vs, centroids, assignments[..], dim) <= old(Distortion(vs, centroids, assignments[..], dim))
      ensures Updates(vs, old(assignments[..]), Clustering(centroids, assignments[..]), k, dim)
    {
      hide Distortion, DistortionUpTo, Repairs;
      ghost var a := assignments[..];
      var sums, counts := Accumulate(vs, assignments[..]);
      var means := Average(sums, counts);
      MeansImprove(vs, centroids, means, a, dim);
      forall c | 0 <= c < k && counts[c] == 0 ensures c !in a {
        CountZero(a, c, |a|);
      }
      ghost var history;
      var cs;
      cs, history := RepairEmpty(vs, assignments, counts, means);
      centroids := cs;
      MeansThenRepairs(vs, a, sums, counts, means, history, Clustering(centroids, assignments[..]), k, dim);
    }

    /**
     Lloyd's iteration from the seeded centroids. runs holds the clustering before the first
     round and after each full one, changes the number of vectors each assignment moved, and
     trace the distortion after every assignment and every update; it never rises. Fewer
     vectors than clusters are represented exactly.
     */
    method Fit(vs: seq<Vec>, cpus: nat, orders: nat -> seq<nat>)
      returns (assignments: array<nat>, ghost trace: seq<real>, ghost runs: seq<Clustering>, ghost changes: seq<nat>)
      requires Valid() && DataOk(vs, dim) && cpus > 0
      requires forall t: nat :: IsOrder(orders(t), if cpus > |vs| then |vs| else cpus)
      modifies this
      ensures fresh(assignments) && assignments.Length == |vs| && Fits(vs, centroids, assignments[..], dim)
      ensures |vs| <= k ==>
                && centroids == vs && (forall i :: 0 <= i < |vs| ==> assignments[i] == i)
                && Distortion(vs, centroids, assignments[..], dim) == 0.0
      ensures |vs| > k ==> Valid() && NonIncreasing(trace) && |trace| > 0
                           && trace[0] == old(Distortion(vs, centroids, Firsts(|vs|), dim))
                           && trace[|trace| - 1] == Distortion(vs, centroids, assignments[..], dim)
      ensures |vs| > k ==> Iterates(vs, runs, changes, k, dim) && runs[0] == Clustering(old(centroids), Firsts(|vs|))
      ensures |vs| > k ==> Ends(vs, runs, changes, maxIter, Clustering(centroids, assignments[..]), dim)
    {
      var n := |vs|;
      trace, runs, changes := [], [], [];
      if n <= k {
        centroids := vs;
        assignments := new nat[n](i => i);
        OwnCentroids(vs, assignments[..], dim, n);
        return;
      }
      hide Distortion, DistortionUpTo, Updates, Nearest, Diff, Assigns, Round, Iterates, Ends;
      ghost var first := Distortion(vs, centroids, Firsts(n), dim);
      assignments := new nat[n](i => 0);
      assert assignments[..] == Firsts(n);
      trace := [Distortion(vs, centroids, assignments[..], dim)];
      runs := [Clustering(centroids, assignments[..])];
      NoRoundYet(vs, runs[0], k, dim);
      var prevChanges := n;
      for iter := 0 to maxIter
        invariant Valid() && fresh(assignments) && assignments.Length == n && Fits(vs, centroids, assignments[..], dim)
        invariant Falls(trace, old(Distortion(vs, centroids, Firsts(n), dim)),
                        Distortion(vs, centroids, assignments[..], dim))
        invariant |runs| == iter + 1 && |changes| == iter && Iterates(vs, runs, changes, k, dim)
        invariant runs[0] == Clustering(old(centroids), Firsts(n))
        invariant runs[iter] == Clustering(centroids, assignments[..])
        invariant prevChanges == if iter == 0 then n else changes[iter - 1]
      {
        ghost var a := assignments[..];
        var moved := AssignParallel(vs, assignments, cpus, orders(iter));
        AssignImproves(vs, centroids, a, assignments[..], dim);
        trace := Lower(trace, first, Distortion(vs, centroids, assignments[..], dim));
        AssignedIs(vs, Clustering(centroids, a), assignments[..], moved, dim);
        if (moved * 1000 < n && iter > 0) || (moved == 0 && prevChanges == 0) {
          EndsHere(vs, runs, changes, k, dim, maxIter, moved, Clustering(centroids, assignments[..]));
          changes := changes + [moved];
          return;
        }
        prevChanges := moved;
        ghost var settled := assignments[..];
        UpdateCentroids(vs, assignments);
        trace := Lower(trace, first, Distortion(vs, centroids, assignments[..], dim));
        OneRound(vs, runs, changes, k, dim, settled, moved, Clustering(centroids, assignments[..]));
        runs, changes := runs + [Clustering(centroids, assignments[..])], changes + [moved];
      }
      AllRounds(vs, runs, changes, maxIter, Clustering(centroids, assignments[..]), dim);
    }
  }

  ghost predicate NonIncreasing(t: seq<real>) {
    forall i, j :: 0 <= i < j < |t| ==> t[j] <= t[i]
  }

  /** A sequence of falling values from first to last. */
  ghost predicate Falls(t: seq<real>, first: real, last: real) {
    NonIncreasing(t) && |t| > 0 && t[0] == first && t[|t| - 1] == last
  }

  ghost function Lower(t: seq<real>, first: real, x: real): (r: seq<real>)
    requires |t| > 0 && Falls(t, first, t[|t| - 1]) && x <= t[|t| - 1]
    ensures Falls(r, first, x)
  {
    t + [x]
  }

  ghost function Firsts(n: nat): seq<nat> {
    seq(n, _ => 0)
  }

  /** Re-assigning every vector to a nearest centroid never raises the distortion. */
  lemma {:induction false} AssignImproves(vs: seq<Vec>, cs: seq<Vec>, a: seq<nat>, a': seq<nat>, dim: nat)
    requires Fits(vs, cs, a, dim) && |a'| == |vs|
    requires forall i: nat :: i < |vs| ==> Nearest(vs, cs, i, a'[i], dim)
    ensures Fits(vs, cs, a', dim) && Distortion(vs, cs, a', dim) <= Distortion(vs, cs, a, dim)
  {
    forall i: nat | i < |vs| ensures a'[i] < |cs| {
      assert Nearest(vs, cs, i, a'[i], dim);
    }
    forall i: nat | i < |vs| ensures Error(vs, cs, a', dim, i) <= Error(vs, cs, a, dim, i) {
      assert Nearest(vs, cs, i, a'[i], dim);
    }
    PointwiseBetter(vs, cs, a, cs, a', dim, |vs|);
  }

  lemma {:induction false} OwnCentroids(vs: seq<Vec>, a: seq<nat>, dim: nat, n: nat)
    requires DataOk(vs, dim) && |a| == |vs| && n <= |vs| && forall i :: 0 <= i < |a| ==> a[i] == i
    ensures Fits(vs, vs, a, dim) && DistortionUpTo(vs, vs, a, dim, n) == 0.0
  {
    if n > 0 {
      OwnCentroids(vs, a, dim, n - 1);
      PartialSelf(vs[n - 1], dim);
    }
  }

  lemma {:induction false} CountZero(a: seq<nat>, c: nat, n: nat)
    requires n <= |a| && Count(a, c, n) == 0
    ensures c !in a[..n]
  {
    if n > 0 {
      CountZero(a, c, n - 1);
      assert a[..n] == a[..n - 1] + [a[n - 1]];
    }
  }
}
