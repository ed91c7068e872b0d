/** Rows of exact reals: sums, dot products and elementwise arithmetic. */
module Vectors {

  type Vec = seq<real>

  function Add(a: Vec, b: Vec): (r: Vec)
    requires |a| == |b|
    ensures |r| == |a|
  {
    seq(|a|, i requires 0 <= i < |a| => a[i] + b[i])
  }

  function Sub(a: Vec, b: Vec): (r: Vec)
    requires |a| == |b|
    ensures |r| == |a|
  {
    seq(|a|, i requires 0 <= i < |a| => a[i] - b[i])
  }

  function Scale(c: real, a: Vec): (r: Vec)
    ensures |r| == |a|
  {
    seq(|a|, i requires 0 <= i < |a| => Times(a[i], c))
  }

  function Times(x: real, y: real): real {
    x * y
  }

  /** Elementwise quotient by a vector without zeros. */
  function Div(a: Vec, d: Vec): (r: Vec)
    requires |a| == |d| && NoZero(d)
    ensures |r| == |a|
  {
    seq(|a|, i requires 0 <= i < |a| => a[i] / d[i])
  }

  predicate NoZero(d: Vec) {
    forall i :: 0 <= i < |d| ==> d[i] != 0.0
  }

  function Dot(a: Vec, b: Vec): real
    requires |a| == |b|
  {
    if |a| == 0 then 0.0 else Dot(a[..|a| - 1], b[..|a| - 1]) + Times(a[|a| - 1], b[|a| - 1])
  }

  function Abs(x: real): real {
    if x < 0.0 then -x else x
  }

  /** The magnitudes of a row, added up. */
  function SumMagnitude(y: Vec): (m: real)
    ensures m >= 0.0
  {
    if |y| == 0 then 0.0 else SumMagnitude(y[..|y| - 1]) + Abs(y[|y| - 1])
  }

  lemma DotLast(a: Vec, b: Vec)
    requires |a| == |b| && |a| > 0
    ensures var n := |a| - 1; Dot(a, b) == Dot(a[..n], b[..n]) + Times(a[n], b[n])
  {
  }

  lemma {:induction false} DotConcat(a: Vec, b: Vec, c: Vec, d: Vec)
    requires |a| == |c| && |b| == |d|
    ensures Dot(a + b, c + d) == Dot(a, c) + Dot(b, d)
    decreases |b|
  {
    if |b| == 0 {
      assert a + b == a && c + d == c;
    } else {
      var n := |b| - 1;
      DotConcat(a, b[..n], c, d[..n]);
      assert (a + b)[..|a| + n] == a + b[..n] && (c + d)[..|a| + n] == c + d[..n];
    }
  }

  lemma {:induction false} DotAdd(a: Vec, b: Vec, c: Vec)
    requires |a| == |b| == |c|
    ensures Dot(Add(a, b), c) == Dot(a, c) + Dot(b, c)
  {
    if |a| > 0 {
      var n := |a| - 1;
      DotAdd(a[..n], b[..n], c[..n]);
      assert Add(a, b)[..n] == Add(a[..n], b[..n]);
    }
  }

  lemma {:induction false} DotSub(a: Vec, b: Vec, c: Vec)
    requires |a| == |b| == |c|
    ensures Dot(Sub(a, b), c) == Dot(a, c) - Dot(b, c)
  {
    if |a| > 0 {
      var n := |a| - 1;
      DotSub(a[..n], b[..n], c[..n]);
      assert Sub(a, b)[..n] == Sub(a[..n], b[..n]);
    }
  }

  lemma {:induction false} DotScale(k: real, a: Vec, c: Vec)
    requires |a| == |c|
    ensures Dot(Scale(k, a), c) == k * Dot(a, c)
  {
    if |a| > 0 {
      var n := |a| - 1;
      DotScale(k, a[..n], c[..n]);
      ScalePrefix(k, a, n);
      assert (a[n] * k) * c[n] == k * (a[n] * c[n]);
    }
  }

  lemma ScalePrefix(k: real, a: Vec, n: nat)
    requires n <= |a|
    ensures Scale(k, a)[..n] == Scale(k, a[..n])
  {
    hide Times;
  }

  lemma {:induction false} DotComm(a: Vec, b: Vec)
    requires |a| == |b|
    ensures Dot(a, b) == Dot(b, a)
  {
    if |a| > 0 {
      DotComm(a[..|a| - 1], b[..|a| - 1]);
    }
  }

  /** Dividing either factor of a dot product is the same. */
  lemma {:induction false} DotDiv(a: Vec, d: Vec, b: Vec)
    requires |a| == |b| == |d| && NoZero(d)
    ensures Dot(Div(a, d), b) == Dot(a, Div(b, d))
  {
    if |a| > 0 {
      var n := |a| - 1;
      DotDiv(a[..n], d[..n], b[..n]);
      assert Div(a, d)[..n] == Div(a[..n], d[..n]) && Div(b, d)[..n] == Div(b[..n], d[..n]);
      assert (a[n] / d[n]) * b[n] == a[n] * (b[n] / d[n]);
    }
  }
}
