/** Exact squared Euclidean distance and its sums. */
module Euclid {
  import opened Common

  /** The squared difference of the first n coordinates. */
  function Partial(x: Vec, y: Vec, n: nat): real
    requires n <= |x| && n <= |y|
  {
    if n == 0 then 0.0
    else Partial(x, y, n - 1) + (x[n - 1] - y[n - 1]) * (x[n - 1] - y[n - 1])
  }

  function L2(x: Vec, y: Vec): real
    requires |x| == |y|
  {
    Partial(x, y, |x|)
  }

  /** A coordinate more adds its squared difference. */
  lemma {:induction false} L2Appended(x: Vec, y: Vec, a: real, b: real)
    requires |x| == |y|
    ensures L2([], []) == 0.0 && L2(x + [a], y + [b]) == L2(x, y) + (a - b) * (a - b)
  {
    PartialPrefix(x, y, a, b, |x|);
  }

  lemma {:induction false} PartialPrefix(x: Vec, y: Vec, a: real, b: real, n: nat)
    requires |x| == |y| && n <= |x|
    ensures Partial(x + [a], y + [b], n) == Partial(x, y, n)
  {
    if n > 0 {
      PartialPrefix(x, y, a, b, n - 1);
    }
  }

  lemma {:induction false} SquareNotNegative(a: real)
    ensures a * a >= 0.0
  {
  }

  lemma {:induction false} PartialNotNegative(x: Vec, y: Vec, n: nat)
    requires n <= |x| && n <= |y|
    ensures Partial(x, y, n) >= 0.0
  {
    if n > 0 {
      PartialNotNegative(x, y, n - 1);
      SquareNotNegative(x[n - 1] - y[n - 1]);
    }
  }

  lemma {:induction false} PartialSelf(x: Vec, n: nat)
    requires n <= |x|
    ensures Partial(x, x, n) == 0.0
  {
    if n > 0 {
      PartialSelf(x, n - 1);
    }
  }

  /** The sum over coordinates of (s - w)(u - c). */
  ghost function Cross(s: Vec, w: Vec, u: Vec, c: Vec, n: nat): real
    requires n <= |s| && n <= |w| && n <= |u| && n <= |c|
  {
    if n == 0 then 0.0
    else Cross(s, w, u, c, n - 1) + (s[n - 1] - w[n - 1]) * (u[n - 1] - c[n - 1])
  }

  lemma {:induction false} ExpandScalar(v: real, u: real, c: real)
    ensures (v - c) * (v - c) == (v - u) * (v - u) + 2.0 * ((v - u) * (u - c)) + (u - c) * (u - c)
  {
    var p, q := v - u, u - c;
    assert v - c == p + q;
    assert (p + q) * (p + q) == p * p + 2.0 * (p * q) + q * q;
  }

  /** Distance to c by way of u. */
  lemma {:induction false} Expand(v: Vec, u: Vec, c: Vec, n: nat)
    requires n <= |v| && n <= |u| && n <= |c|
    ensures Partial(v, c, n) == Partial(v, u, n) + 2.0 * Cross(v, u, u, c, n) + Partial(u, c, n)
  {
    if n > 0 {
      Expand(v, u, c, n - 1);
      ExpandScalar(v[n - 1], u[n - 1], c[n - 1]);
    }
  }

  function Plus(x: Vec, y: Vec): (r: Vec)
    requires |x| == |y|
    ensures |r| == |x| && forall i :: 0 <= i < |x| ==> r[i] - y[i] == x[i]
  {
    seq(|x|, i requires 0 <= i < |x| => x[i] + y[i])
  }

  function Scale(x: Vec, k: real): (r: Vec)
    ensures |r| == |x|
  {
    seq(|x|, i requires 0 <= i < |x| => x[i] * k)
  }

  lemma {:induction false} DistributeScalar(a: real, b: real, p: real, q: real, d: real)
    ensures (a + b - (p + q)) * d == (a - p) * d + (b - q) * d
  {
    assert a + b - (p + q) == (a - p) + (b - q);
  }

  lemma {:induction false} CrossPlus(s: Vec, v: Vec, w: Vec, z: Vec, u: Vec, c: Vec, n: nat)
    requires |s| == |v| == |w| == |z| == |u| == |c| && n <= |s|
    ensures Cross(Plus(s, v), Plus(w, z), u, c, n) == Cross(s, w, u, c, n) + Cross(v, z, u, c, n)
  {
    if n > 0 {
      CrossPlus(s, v, w, z, u, c, n - 1);
      DistributeScalar(s[n - 1], v[n - 1], w[n - 1], z[n - 1], u[n - 1] - c[n - 1]);
    }
  }

  lemma {:induction false} CrossSame(s: Vec, u: Vec, c: Vec, n: nat)
    requires n <= |s| && n <= |u| && n <= |c|
    ensures Cross(s, s, u, c, n) == 0.0
  {
    if n > 0 {
      CrossSame(s, u, c, n - 1);
    }
  }
}
