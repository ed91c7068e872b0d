/** From the original weight to the integer output: what a row is exported as, and how
    far the site's output is from the original product. */
module QuantizedSite {
  import opened Options
  import opened Vectors
  import opened Hadamard
  import opened Rotation
  import opened Quantize
  import opened Integers
  import opened ActRow
  import opened Dequant

  // ---------- exporting a row ----------

  function Mul(a: Vec, d: Vec): (r: Vec)
    requires |a| == |d|
    ensures |r| == |a|
  {
    seq(|a|, i requires 0 <= i < |a| => Times(a[i], d[i]))
  }

  function MultiplyIf(c: bool, w: Vec, ascale: Option<Vec>): (r: Vec)
    requires ascale.Some? ==> |ascale.value| == |w|
    ensures |r| == |w|
  {
    if c && ascale.Some? then Mul(w, ascale.value) else w
  }

  function FoldIf(w: Vec, s: ActSpec): (r: Vec)
    requires s.ValidFor(|w|)
    ensures |r| == |w|
  {
    if s.rotBlock > 1 then FoldRow(w, s.rotBlock, s.inv) else w
  }

  /** A weight row as it is stored before quantizing: multiplied where the activation
      will be divided, and folded, in the activation's order. */
  function Exported(w: Vec, ascale: Option<Vec>, s: ActSpec): (r: Vec)
    requires ValidSite(|w|, ascale, s)
    ensures |r| == |w|
  {
    MultiplyIf(!s.foldBefore, FoldIf(MultiplyIf(s.foldBefore, w, ascale), s), ascale)
  }

  /** A stored row's codes and scale. */
  datatype Row = Row(codes: seq<int>, wscale: real)

  /** Symmetric per-row quantization: the scale is the largest magnitude over qmax,
      floored. */
  function QuantizeWeight(f: Vec, bits: int): (r: Row)
    ensures |r.codes| == |f| && r.wscale > 0.0
  {
    var scale := RowScale(AbsMax(f), 1.0, Qmax(bits));
    Row(Codes(f, scale, Qmax(bits)), scale)
  }

  predicate Normalised(s: ActSpec) {
    s.rotBlock > 1 ==> s.inv * s.inv * (s.rotBlock as real) == 1.0
  }

  lemma {:induction false} MulDiv(w: Vec, x: Vec, a: Vec)
    requires |w| == |x| == |a| && NoZero(a)
    ensures Dot(Mul(w, a), Div(x, a)) == Dot(w, x)
    decreases |w|
  {
    if |w| > 0 {
      var n := |w| - 1;
      MulDiv(w[..n], x[..n], a[..n]);
      MulDivPrefix(w, x, a, n);
      assert (w[n] * a[n]) * (x[n] / a[n]) == w[n] * x[n];
    }
  }

  lemma {:induction false} MulDivPrefix(w: Vec, x: Vec, a: Vec, n: nat)
    requires |w| == |x| == |a| && NoZero(a) && n <= |w|
    ensures Mul(w, a)[..n] == Mul(w[..n], a[..n]) && Div(x, a)[..n] == Div(x[..n], a[..n])
  {
    hide Times;
  }

  lemma {:induction false} DotMultiplyIf(c: bool, w: Vec, x: Vec, ascale: Option<Vec>)
    requires |w| == |x| && (ascale.Some? ==> |ascale.value| == |w| && NoZero(ascale.value))
    ensures Dot(MultiplyIf(c, w, ascale), DivideIf(c, x, ascale)) == Dot(w, x)
  {
    if c && ascale.Some? {
      MulDiv(w, x, ascale.value);
    }
  }

  lemma {:induction false} DotFoldIf(w: Vec, x: Vec, s: ActSpec)
    requires |w| == |x| && s.ValidFor(|x|) && Normalised(s)
    ensures Dot(FoldIf(w, s), RotateIf(x, s)) == Dot(w, x)
  {
    if s.rotBlock > 1 {
      FoldedProduct(w, x, s.rotBlock, s.inv);
    }
  }

  /** Before quantization nothing is lost: an exported row times a transformed
      activation is the original product. */
  lemma {:induction false} ExportedProduct(w: Vec, ascale: Option<Vec>, s: ActSpec, x: Vec)
    requires |w| == |x| && ValidSite(|x|, ascale, s) && Normalised(s)
    ensures Dot(Exported(w, ascale, s), Transform(x, ascale, s)) == Dot(w, x)
  {
    hide MultiplyIf, DivideIf, FoldIf, RotateIf, Dot, Normalised;
    var w1, x1 := MultiplyIf(s.foldBefore, w, ascale), DivideIf(s.foldBefore, x, ascale);
    DotMultiplyIf(s.foldBefore, w, x, ascale);
    DotFoldIf(w1, x1, s);
    DotMultiplyIf(!s.foldBefore, FoldIf(w1, s), RotateIf(x1, s), ascale);
  }

  lemma {:induction false} DivideMultiplied(c: bool, w: Vec, ascale: Option<Vec>)
    requires ascale.Some? ==> |ascale.value| == |w| && NoZero(ascale.value)
    ensures DivideIf(c, MultiplyIf(c, w, ascale), ascale) == w
  {
    if c && ascale.Some? {
      forall i | 0 <= i < |w| ensures Times(w[i], ascale.value[i]) / ascale.value[i] == w[i] {
      }
    }
  }

  lemma {:induction false} RotateFolded(w: Vec, s: ActSpec)
    requires s.ValidFor(|w|) && Normalised(s)
    ensures RotateIf(FoldIf(w, s), s) == w
  {
    if s.rotBlock > 1 {
      FoldIsRotate(w, s.rotBlock, s.inv);
      RotateTwice(w, s.rotBlock, s.inv);
    }
  }

  /** Reading an exported row back, in the order dequantizing does, recovers the
      original exactly. */
  lemma {:induction false} ExportUndone(w: Vec, ascale: Option<Vec>, s: ActSpec)
    requires ValidSite(|w|, ascale, s) && Normalised(s)
    ensures DivideIf(s.foldBefore, RotateIf(DivideIf(!s.foldBefore, Exported(w, ascale, s), ascale), s), ascale) == w
  {
    hide MultiplyIf, DivideIf, FoldIf, RotateIf, Normalised;
    DivideMultiplied(!s.foldBefore, FoldIf(MultiplyIf(s.foldBefore, w, ascale), s), ascale);
    RotateFolded(MultiplyIf(s.foldBefore, w, ascale), s);
    DivideMultiplied(s.foldBefore, w, ascale);
  }

  // ---------- the error ----------

  /** Entries off by at most `e` put a product off by at most `e` times the sum of the
      other factor's magnitudes. */
  lemma {:induction false} DotError(u: Vec, v: Vec, y: Vec, e: real)
    requires |u| == |v| == |y| && forall k :: 0 <= k < |u| ==> Abs(u[k] - v[k]) <= e
    ensures Abs(Dot(u, y) - Dot(v, y)) <= Times(e, SumMagnitude(y))
    decreases |u|
  {
    if |u| > 0 {
      var n := |u| - 1;
      DotError(u[..n], v[..n], y[..n], e);
      OneError(u[n], v[n], y[n], e);
      hide Times, Dot;
      DotLast(u, y);
      DotLast(v, y);
      TimesSum(e, SumMagnitude(y[..n]), Abs(y[n]));
    } else {
      assert Times(e, 0.0) == 0.0;
    }
  }

  lemma {:induction false} TimesSum(e: real, a: real, b: real)
    ensures Times(e, a + b) == Times(e, a) + Times(e, b)
  {
  }

  lemma {:induction false} OneError(u: real, v: real, y: real, e: real)
    requires Abs(u - v) <= e
    ensures Abs(Times(u, y) - Times(v, y)) <= Times(e, Abs(y))
  {
    assert u * y - v * y == (u - v) * y;
    AbsTimes(u - v, y);
    Larger(Abs(y), Abs(u - v), e);
  }

  /** Every stored weight is within half the row's scale of the exported one. */
  lemma {:induction false} WeightHalfStep(f: Vec, bits: int, k: nat)
    requires k < |f|
    ensures var r := QuantizeWeight(f, bits);
            Abs(RowWeights(r.codes, r.wscale)[k] - f[k]) <= r.wscale / 2.0
  {
    hide Code, Times, RowScale, AbsMax, Error;
    UnclippedHalfStep(f[k], AbsMax(f), 1.0, Qmax(bits));
    ErrorIsDistance(f[k], RowScale(AbsMax(f), 1.0, Qmax(bits)), Qmax(bits));
  }

  lemma {:induction false} WeightsNear(f: Vec, bits: int)
    ensures var r := QuantizeWeight(f, bits);
            forall k :: 0 <= k < |f| ==> Abs(RowWeights(r.codes, r.wscale)[k] - f[k]) <= r.wscale / 2.0
  {
    hide QuantizeWeight, RowWeights, Abs;
    var r := QuantizeWeight(f, bits);
    forall k | 0 <= k < |f| ensures Abs(RowWeights(r.codes, r.wscale)[k] - f[k]) <= r.wscale / 2.0 {
      WeightHalfStep(f, bits, k);
    }
  }

  lemma {:induction false} ErrorIsDistance(y: real, scale: real, qmax: int)
    requires scale > 0.0 && qmax >= 0
    ensures Abs(Times(Code(y, scale, qmax) as real, scale) - y) == Error(y, scale, qmax)
  {
    hide Code;
  }

  /** How far a site's output can be from the original product: the explicit activation
      bound in units of the row's scale, and half a weight step for every unit of
      activation magnitude. */
  function SiteBound(r: Row, y: Vec, s: ActSpec): real
    requires |r.codes| == |y|
  {
    Times(r.wscale, ClipBound(r.codes, y, ScaleOf(y, s), Qmax(s.abits))) + Times(r.wscale / 2.0, SumMagnitude(y))
  }

  /** For every weight row, activation, clip, fold order and width, the site's integer
      output is within that bound of the original product. */
  lemma {:induction false} SiteWithinBound(w: Vec, bits: int, bias: real, ascale: Option<Vec>, s: ActSpec, x: Vec)
    requires |w| == |x| && ValidRow(x, ascale, None, s) && Normalised(s)
    ensures var r := QuantizeWeight(Exported(w, ascale, s), bits);
            Abs(NativeOutput(r.codes, r.wscale, bias, ascale, s, x) - (Dot(w, x) + bias))
            <= SiteBound(r, Transform(x, ascale, s), s)
  {
    hide Exported, QuantizeWeight, Transform, NativeOutput, FloatOutput, Dot, ClipBound, SumMagnitude,
      ScaleOf, Times, Normalised;
    var r := QuantizeWeight(Exported(w, ascale, s), bits);
    NativeNear(r, bias, ascale, s, x);
    FloatNear(w, r, bits, bias, ascale, s, x);
  }

  /** Without clipping: within half an activation step for every unit of code magnitude,
      and half a weight step for every unit of activation magnitude. */
  lemma {:induction false} SiteNearOriginal(w: Vec, bits: int, bias: real, ascale: Option<Vec>, s: ActSpec, x: Vec)
    requires |w| == |x| && ValidRow(x, ascale, None, s) && Normalised(s) && s.clip >= 1.0
    ensures var r := QuantizeWeight(Exported(w, ascale, s), bits);
            var y := Transform(x, ascale, s);
            Abs(NativeOutput(r.codes, r.wscale, bias, ascale, s, x) - (Dot(w, x) + bias))
            <= Times(r.wscale, HalfStepBound(ScaleOf(y, s), SumAbs(r.codes))) + Times(r.wscale / 2.0, SumMagnitude(y))
  {
    hide Exported, QuantizeWeight, Transform, NativeOutput, Dot, SumAbs, HalfStepBound, SumMagnitude, ClipBound,
      ScaleOf, Times, Normalised;
    var r := QuantizeWeight(Exported(w, ascale, s), bits);
    SiteWithinBound(w, bits, bias, ascale, s, x);
    UnclippedBound(r.codes, Transform(x, ascale, s), s);
  }

  lemma {:induction false} NativeNear(r: Row, bias: real, ascale: Option<Vec>, s: ActSpec, x: Vec)
    requires |r.codes| == |x| && r.wscale > 0.0 && ValidRow(x, ascale, None, s)
    ensures var y := Transform(x, ascale, s);
            Abs(NativeOutput(r.codes, r.wscale, bias, ascale, s, x)
                - FloatOutput(r.codes, r.wscale, bias, ascale, s, x))
            <= Times(r.wscale, ClipBound(r.codes, y, ScaleOf(y, s), Qmax(s.abits)))
  {
    hide Transform, NativeOutput, FloatOutput, ClipBound, ScaleOf;
    NativeWithinClip(r.codes, r.wscale, bias, ascale, s, x);
  }

  lemma {:induction false} FloatIsDot(r: Row, bias: real, ascale: Option<Vec>, s: ActSpec, x: Vec)
    requires |r.codes| == |x| && ValidRow(x, ascale, None, s)
    ensures ValidSite(|x|, ascale, s)
    ensures FloatOutput(r.codes, r.wscale, bias, ascale, s, x)
            == Dot(DequantRow(r.codes, r.wscale, ascale, s), x) + bias
  {
    hide ValidSite, DequantRow, Dot;
  }

  /** The rebuilt row's output is within the weights' rounding of the original. */
  lemma {:induction false} FloatNear(w: Vec, r: Row, bits: int, bias: real, ascale: Option<Vec>, s: ActSpec, x: Vec)
    requires |w| == |x| && ValidRow(x, ascale, None, s) && Normalised(s)
    requires r == QuantizeWeight(Exported(w, ascale, s), bits)
    ensures Abs(FloatOutput(r.codes, r.wscale, bias, ascale, s, x) - (Dot(w, x) + bias))
            <= Times(r.wscale / 2.0, SumMagnitude(Transform(x, ascale, s)))
  {
    hide *;
    FloatIsDot(r, bias, ascale, s, x);
    var f := Exported(w, ascale, s);
    WeightsNear(f, bits);
    DequantPreserves(r.codes, r.wscale, ascale, s, x);
    ExportedProduct(w, ascale, s, x);
    DotError(RowWeights(r.codes, r.wscale), f, Transform(x, ascale, s), r.wscale / 2.0);
    SameShift(Dot(RowWeights(r.codes, r.wscale), Transform(x, ascale, s)), Dot(w, x), bias);
  }

  lemma {:induction false} SameShift(a: real, b: real, c: real)
    ensures Abs((a + c) - (b + c)) == Abs(a - b)
  {
  }
}
