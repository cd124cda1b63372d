/** SQ8 scalar quantization, in exact arithmetic. */
module ScalarQuantizer {
  import opened Common
  import opened Euclid
  import ProductQuantizer

  const TOP: nat := 255

  // ---------------------------------------------------------------- one dimension

  function Clamp(v: real): (c: real)
    ensures 0.0 <= c <= 255.0
  {
    if v < 0.0 then 0.0 else if v > 255.0 then 255.0 else v
  }

  /** Rounding to nearest of a value that is not negative, halves upwards. */
  function Round(v: real): (n: nat)
    requires 0.0 <= v <= 255.0
    ensures n <= TOP && v - 0.5 < n as real <= v + 0.5
  {
    (v + 0.5).Floor
  }

  function Quantize(x: real, min: real, scale: real): (c: nat)
    ensures c <= TOP
  {
    if scale == 0.0 then 0 else Round(Clamp((x - min) / scale))
  }

  function Restore(c: nat, min: real, scale: real): real {
    min + c as real * scale
  }

  ghost function Gap(x: real, y: real): (g: real)
    ensures g >= 0.0
  {
    if x < y then y - x else x - y
  }

  /** A product the solver is not to multiply out. */
  ghost function Times(a: real, b: real): real {
    a * b
  }

  ghost function Units(x: real, min: real, scale: real): real
    requires scale > 0.0
  {
    (x - min) / scale
  }

  lemma {:induction false} ScaleGap(a: real, b: real, scale: real)
    requires scale > 0.0
    ensures Gap(a * scale, b * scale) == Gap(a, b) * scale
  {
    assert a * scale - b * scale == (a - b) * scale;
    assert a < b ==> a * scale < b * scale;
    assert a > b ==> a * scale > b * scale;
  }

  /** In units of the scale, the distance to a restored code is the distance to the code. */
  lemma {:induction false} InUnits(x: real, min: real, scale: real, c: nat)
    requires scale > 0.0
    ensures Gap(Restore(c, min, scale), x) == Times(Gap(c as real, Units(x, min, scale)), scale)
  {
    var v := Units(x, min, scale);
    assert v * scale == x - min;
    ScaleGap(c as real, v, scale);
  }

  lemma {:induction false} NearestInteger(v: real, c: nat)
    requires c <= TOP
    ensures Gap(Round(Clamp(v)) as real, v) <= Gap(c as real, v)
  {
    var n := Round(Clamp(v));
    if 0.0 <= v <= 255.0 && n != c {
      assert Gap(n as real, v) <= 0.5;
      assert n <= c - 1 || n >= c + 1;
    }
  }

  lemma {:induction false} Monotone(a: real, b: real, scale: real)
    requires a <= b && scale > 0.0
    ensures Times(a, scale) <= Times(b, scale)
  {
  }

  /** No code restores closer to x than the one chosen for it. */
  lemma {:induction false} NearestCode(x: real, min: real, scale: real, c: nat)
    requires scale >= 0.0 && c <= TOP
    ensures Gap(Restore(Quantize(x, min, scale), min, scale), x) <= Gap(Restore(c, min, scale), x)
  {
    if scale > 0.0 {
      var q := Quantize(x, min, scale);
      var v := Units(x, min, scale);
      assert q == Round(Clamp(v));
      hide *;
      InUnits(x, min, scale, q);
      InUnits(x, min, scale, c);
      NearestInteger(v, c);
      Monotone(Gap(q as real, v), Gap(c as real, v), scale);
    }
  }

  /** A value within the trained range is restored to within half a scale step. */
  lemma {:induction false} HalfStep(x: real, min: real, scale: real)
    requires scale >= 0.0 && min <= x <= min + 255.0 * scale
    ensures Gap(Restore(Quantize(x, min, scale), min, scale), x) <= scale / 2.0
    ensures scale == 0.0 ==> Restore(Quantize(x, min, scale), min, scale) == x
  {
    if scale > 0.0 {
      var q := Quantize(x, min, scale);
      var v := Units(x, min, scale);
      InRange(x, min, scale);
      assert q == Round(v);
      assert Gap(q as real, v) <= 0.5;
      assert Times(0.5, scale) == scale / 2.0;
      hide *;
      InUnits(x, min, scale, q);
      Monotone(Gap(q as real, v), 0.5, scale);
    }
  }

  lemma {:induction false} SignKept(a: real, scale: real)
    requires scale > 0.0
    ensures a < 0.0 ==> a * scale < 0.0
    ensures a > 0.0 ==> a * scale > 0.0
  {
  }

  lemma {:induction false} InRange(x: real, min: real, scale: real)
    requires scale > 0.0 && min <= x <= min + 255.0 * scale
    ensures 0.0 <= (x - min) / scale <= 255.0
  {
    var v := (x - min) / scale;
    assert v * scale == x - min;
    SignKept(v, scale);
    SignKept(v - 255.0, scale);
    assert (v - 255.0) * scale == v * scale - 255.0 * scale;
  }

  /** Codes survive decoding and encoding. */
  lemma {:induction false} CodeRoundTrip(c: nat, min: real, scale: real)
    requires scale > 0.0 && c <= TOP
    ensures Quantize(Restore(c, min, scale), min, scale) == c
  {
    var v := (Restore(c, min, scale) - min) / scale;
    assert c as real * scale == Restore(c, min, scale) - min;
    assert v == c as real;
    assert Round(v) == c;
  }

  lemma {:induction false} CodeSurvives(c: nat, min: real, scale: real)
    requires scale >= 0.0 && c <= TOP
    ensures c == Quantize(Restore(c, min, scale), min, scale) <==> (scale == 0.0 ==> c == 0)
  {
    if scale > 0.0 {
      CodeRoundTrip(c, min, scale);
    }
  }

  // ---------------------------------------------------------------- training data

  /** Dimension d of the i-th row of a flat matrix. */
  function At(vectors: Vec, dim: nat, i: nat, d: nat): real {
    if i * dim + d < |vectors| then vectors[i * dim + d] else 0.0
  }

  /** lo and hi are the least and the greatest value of a dimension over the first n rows. */
  ghost predicate Extremes(vectors: Vec, dim: nat, n: nat, d: nat, lo: real, hi: real) {
    && (forall i: nat :: i < n ==> lo <= At(vectors, dim, i, d) <= hi)
    && (exists i: nat :: i < n && At(vectors, dim, i, d) == lo)
    && exists i: nat :: i < n && At(vectors, dim, i, d) == hi
  }

  lemma {:induction false} ExtremesGrow(vectors: Vec, dim: nat, n: nat, d: nat, lo: real, hi: real)
    requires Extremes(vectors, dim, n, d, lo, hi)
    ensures var v := At(vectors, dim, n, d);
            Extremes(vectors, dim, n + 1, d, if v < lo then v else lo, if v > hi then v else hi)
  {
    hide At;
    var v := At(vectors, dim, n, d);
    assert At(vectors, dim, n, d) == v;
  }

  lemma {:induction false} ExtremesOrdered(vectors: Vec, dim: nat, n: nat, d: nat, lo: real, hi: real)
    requires Extremes(vectors, dim, n, d, lo, hi)
    ensures lo <= hi
  {
  }

  /** One scan over the rows. */
  method FindExtremes(vectors: Vec, dim: nat, n: nat) returns (mins: Vec, maxs: Vec)
    requires n > 0 && |vectors| == n * dim
    ensures |mins| == |maxs| == dim
    ensures forall d :: 0 <= d < dim ==> Extremes(vectors, dim, n, d, mins[d], maxs[d])
  {
    hide At, Extremes;
    ProductQuantizer.BlocksFit(0, n, dim);
    mins, maxs := vectors[..dim], vectors[..dim];
    forall d | 0 <= d < dim ensures Extremes(vectors, dim, 1, d, mins[d], maxs[d]) {
      FirstRow(vectors, dim, d);
    }
    for i := 1 to n
      invariant |mins| == |maxs| == dim
      invariant forall d :: 0 <= d < dim ==> Extremes(vectors, dim, i, d, mins[d], maxs[d])
    {
      mins, maxs := Widen(vectors, dim, n, i, mins, maxs);
    }
  }

  lemma {:induction false} FirstRow(vectors: Vec, dim: nat, d: nat)
    requires d < dim <= |vectors|
    ensures Extremes(vectors, dim, 1, d, vectors[d], vectors[d])
  {
    assert At(vectors, dim, 0, d) == vectors[d];
  }

  method Widen(vectors: Vec, dim: nat, n: nat, i: nat, mins0: Vec, maxs0: Vec) returns (mins: Vec, maxs: Vec)
    requires i < n && |vectors| == n * dim && |mins0| == |maxs0| == dim
    requires forall d :: 0 <= d < dim ==> Extremes(vectors, dim, i, d, mins0[d], maxs0[d])
    ensures |mins| == |maxs| == dim
    ensures forall d :: 0 <= d < dim ==> Extremes(vectors, dim, i + 1, d, mins[d], maxs[d])
  {
    hide At, Extremes;
    mins, maxs := mins0, maxs0;
    for d := 0 to dim
      invariant |mins| == |maxs| == dim
      invariant forall e :: 0 <= e < d ==> Extremes(vectors, dim, i + 1, e, mins[e], maxs[e])
      invariant forall e :: d <= e < dim ==> Extremes(vectors, dim, i, e, mins[e], maxs[e])
    {
      ExtremesGrow(vectors, dim, i, d, mins[d], maxs[d]);
      var v := At(vectors, dim, i, d);
      if v < mins[d] {
        mins := mins[d := v];
      }
      if v > maxs[d] {
        maxs := maxs[d := v];
      }
    }
  }

  // ---------------------------------------------------------------- vectors

  type Codes = seq<nat>

  class ScalarQuantizer {
    const dim: nat
    var mins: Vec
    var scales: Vec
    var trained: bool

    ghost predicate Valid()
      reads this
    {
      |mins| == |scales| == dim && forall d :: 0 <= d < dim ==> scales[d] >= 0.0
    }

    constructor (dim: nat)
      ensures Valid() && this.dim == dim && !trained
    {
      this.dim := dim;
      mins, scales, trained := seq(dim, _ => 0.0), seq(dim, _ => 0.0), false;
    }

    /** The vector lies within the trained range of every dimension. */
    ghost predicate Covers(v: Vec)
      requires Valid()
      reads this
    {
      |v| == dim && forall d :: 0 <= d < dim ==> mins[d] <= v[d] <= mins[d] + 255.0 * scales[d]
    }

    ghost predicate IsCode(c: Codes)
      reads this
    {
      |c| == dim && forall d :: 0 <= d < dim ==> c[d] <= TOP
    }

    /** Learns the range of every dimension; each training row is then covered. */
    method Train(vectors: Vec, n: nat) returns (ok: bool)
      requires Valid()
      modifies this
      ensures Valid()
      ensures ok <==> n > 0 && |vectors| == n * dim
      ensures !ok ==> mins == old(mins) && scales == old(scales) && trained == old(trained)
      ensures ok ==> trained && forall d :: 0 <= d < dim ==>
                Extremes(vectors, dim, n, d, mins[d], mins[d] + 255.0 * scales[d])
      ensures ok ==> forall i: nat, d: nat :: i < n && d < dim ==>
                mins[d] <= At(vectors, dim, i, d) <= mins[d] + 255.0 * scales[d]
    {
      if n == 0 || |vectors| != n * dim { return false; }
      hide At;
      var lows, highs := FindExtremes(vectors, dim, n);
      var steps: Vec := [];
      for d := 0 to dim
        invariant |steps| == d
        invariant forall e :: 0 <= e < d ==> steps[e] >= 0.0 && lows[e] + 255.0 * steps[e] == highs[e]
      {
        ExtremesOrdered(vectors, dim, n, d, lows[d], highs[d]);
        var range := highs[d] - lows[d];
        steps := steps + [if range == 0.0 then 0.0 else range / 255.0];
      }
      mins, scales, trained := lows, steps, true;
      ok := true;
    }

    ghost predicate Encodes(v: Vec, c: Codes)
      requires Valid()
      reads this
    {
      |v| == |c| == dim && forall d :: 0 <= d < dim ==> c[d] == Quantize(v[d], mins[d], scales[d])
    }

    /** Codes of n rows in one flat list, each row as Encode would give it. */
    method EncodeBatch(vectors: Vec, n: nat) returns (r: Option<Codes>)
      requires Valid() && n * dim <= |vectors|
      ensures r.Some? <==> trained
      ensures r.Some? ==> |r.value| == n * dim
      ensures r.Some? ==> forall i: nat :: i < n ==> BatchRow(vectors, n, r.value, i)
    {
      if !trained { return None; }
      var codes: Codes := [];
      for i := 0 to n
        invariant |codes| == i * dim
        invariant forall j: nat :: j < i ==> BatchRow(vectors, n, codes, j)
      {
        hide ScalarQuantizer.BatchRow, Quantize;
        ProductQuantizer.BlocksFit(i, n, dim);
        ProductQuantizer.NextBlock(i, dim);
        var row := Encode(vectors[i * dim..i * dim + dim]);
        RowAdded(vectors, n, codes, i, row.value);
        codes := codes + row.value;
      }
      r := Some(codes);
    }

    ghost predicate BatchRow(vectors: Vec, n: nat, codes: Codes, i: nat)
      requires Valid()
      reads this
    {
      && i * dim + dim <= |vectors| && i * dim + dim <= |codes|
      && Encodes(vectors[i * dim..i * dim + dim], codes[i * dim..i * dim + dim])
    }

    lemma {:induction false} RowAdded(vectors: Vec, n: nat, codes: Codes, i: nat, row: Codes)
      requires Valid() && |codes| == i * dim && i * dim + dim <= |vectors|
      requires Encodes(vectors[i * dim..i * dim + dim], row)
      ensures BatchRow(vectors, n, codes + row, i)
      ensures forall j: nat :: j < i && BatchRow(vectors, n, codes, j) ==> BatchRow(vectors, n, codes + row, j)
    {
      hide ScalarQuantizer.Encodes;
      assert (codes + row)[i * dim..i * dim + dim] == row by { EncodesLength(vectors[i * dim..i * dim + dim], row); }
      forall j: nat | j < i && BatchRow(vectors, n, codes, j) ensures BatchRow(vectors, n, codes + row, j) {
        assert (codes + row)[j * dim..j * dim + dim] == codes[j * dim..j * dim + dim];
      }
    }

    lemma {:induction false} EncodesLength(v: Vec, c: Codes)
      requires Valid() && Encodes(v, c)
      ensures |c| == dim
    {
    }

    method Encode(v: Vec) returns (r: Option<Codes>)
      requires Valid()
      ensures r.Some? <==> trained && |v| == dim
      ensures r.Some? ==> IsCode(r.value) && Encodes(v, r.value)
    {
      if !trained || |v| != dim { return None; }
      hide Quantize;
      var code: Codes := [];
      for d := 0 to dim
        invariant |code| == d
        invariant forall e :: 0 <= e < d ==> code[e] == Quantize(v[e], mins[e], scales[e]) && code[e] <= TOP
      {
        code := code + [Quantize(v[d], mins[d], scales[d])];
      }
      r := Some(code);
    }

    method Decode(c: Codes) returns (r: Option<Vec>)
      requires Valid()
      ensures r.Some? <==> trained && |c| == dim
      ensures r.Some? ==> r.value == Decoded(c)
    {
      if !trained || |c| != dim { return None; }
      hide Restore;
      var v: Vec := [];
      for d := 0 to dim
        invariant v == Decoded(c)[..d]
      {
        v := v + [Restore(c[d], mins[d], scales[d])];
      }
      r := Some(v);
    }

    ghost function Decoded(c: Codes): (v: Vec)
      requires Valid() && |c| == dim
      reads this
      ensures |v| == dim
    {
      seq(dim, d requires 0 <= d < dim && Valid() && |c| == dim reads this => Restore(c[d], mins[d], scales[d]))
    }

    /** The distance without a decoded vector. */
    method DistanceL2SQ(query: Vec, code: Codes) returns (sum: real)
      requires Valid() && |query| == |code| == dim
      ensures sum == L2(query, Decoded(code))
    {
      hide Restore;
      sum := 0.0;
      for d := 0 to dim
        invariant sum == Partial(query, Decoded(code), d)
      {
        var diff := query[d] - Restore(code[d], mins[d], scales[d]);
        sum := sum + diff * diff;
      }
    }

    /** What a code of v means: no other code decodes closer in any dimension, hence none in L2. */
    lemma {:induction false} EncodedIsNearest(v: Vec, code: Codes, other: Codes)
      requires Valid() && IsCode(code) && IsCode(other) && Encodes(v, code)
      ensures L2(v, Decoded(code)) <= L2(v, Decoded(other))
    {
      forall d | 0 <= d < dim ensures Gap(Decoded(code)[d], v[d]) <= Gap(Decoded(other)[d], v[d]) {
        NearestCode(v[d], mins[d], scales[d], other[d]);
      }
      CloserIsCloser(v, Decoded(code), Decoded(other), dim);
    }

    /** Decoding and encoding gives back a code exactly when it is zero on every constant dimension. */
    lemma {:induction false} CodesSurvive(c: Codes)
      requires Valid() && IsCode(c)
      ensures Encodes(Decoded(c), c) <==> forall d :: 0 <= d < dim && scales[d] == 0.0 ==> c[d] == 0
    {
      hide Quantize, Restore;
      forall d | 0 <= d < dim
        ensures c[d] == Quantize(Decoded(c)[d], mins[d], scales[d]) <==> (scales[d] == 0.0 ==> c[d] == 0)
      {
        CodeSurvives(c[d], mins[d], scales[d]);
      }
    }

    /** Vectors within the trained range are restored to half a step per dimension, exactly where constant. */
    lemma {:induction false} EncodedIsClose(v: Vec, code: Codes, d: nat)
      requires Valid() && Covers(v) && Encodes(v, code) && d < dim
      ensures Gap(Decoded(code)[d], v[d]) <= scales[d] / 2.0
      ensures scales[d] == 0.0 ==> Decoded(code)[d] == v[d]
    {
      HalfStep(v[d], mins[d], scales[d]);
    }
  }

  lemma {:induction false} CloserIsCloser(v: Vec, a: Vec, b: Vec, n: nat)
    requires |v| == |a| == |b| && n <= |v|
    requires forall d :: 0 <= d < |v| ==> Gap(a[d], v[d]) <= Gap(b[d], v[d])
    ensures Partial(v, a, n) <= Partial(v, b, n)
  {
    if n > 0 {
      CloserIsCloser(v, a, b, n - 1);
      SquareOfGap(v[n - 1], a[n - 1], b[n - 1]);
    }
  }

  lemma {:induction false} SquareOfGap(v: real, a: real, b: real)
    requires Gap(a, v) <= Gap(b, v)
    ensures (v - a) * (v - a) <= (v - b) * (v - b)
  {
    GapSquared(a, v);
    GapSquared(b, v);
    SquaresGrow(Gap(a, v), Gap(b, v));
  }

  lemma {:induction false} GapSquared(a: real, v: real)
    ensures (v - a) * (v - a) == Gap(a, v) * Gap(a, v)
  {
  }

  lemma {:induction false} SquaresGrow(p: real, q: real)
    requires 0.0 <= p <= q
    ensures p * p <= q * q
  {
    assert p * p <= p * q <= q * q;
  }
}
