/** A site read back as a float weight: what the rebuilt rows mean, and how far the
    integer path is from them. */
module Dequant {
  import opened Options
  import opened Vectors
  import opened Hadamard
  import opened Rotation
  import opened Quantize
  import opened Integers
  import opened ActRow
  import opened MixedRadix
  import opened RowMajor

  /** Codes times the row's scale. */
  function RowWeights(q: seq<int>, ws: real): (w: Vec)
    ensures |w| == |q|
  {
    seq(|q|, k requires 0 <= k < |q| => Times(q[k] as real, ws))
  }

  function Reals(q: seq<int>): (w: Vec)
    ensures |w| == |q|
  {
    seq(|q|, k requires 0 <= k < |q| => q[k] as real)
  }

  /** The float weight of a row: divided and rotated in the activation's order,
      reversed. */
  function DequantRow(q: seq<int>, ws: real, ascale: Option<Vec>, s: ActSpec): (w: Vec)
    requires ValidSite(|q|, ascale, s)
    ensures |w| == |q|
  {
    DivideIf(s.foldBefore, RotateIf(DivideIf(!s.foldBefore, RowWeights(q, ws), ascale), s), ascale)
  }

  lemma DotDivideIf(c: bool, a: Vec, b: Vec, ascale: Option<Vec>)
    requires |a| == |b| && (ascale.Some? ==> |ascale.value| == |a| && NoZero(ascale.value))
    ensures Dot(DivideIf(c, a, ascale), b) == Dot(a, DivideIf(c, b, ascale))
  {
    if c && ascale.Some? {
      DotDiv(a, ascale.value, b);
    }
  }

  lemma DotRotateIf(a: Vec, b: Vec, s: ActSpec)
    requires |a| == |b| && s.ValidFor(|a|)
    ensures Dot(RotateIf(a, s), b) == Dot(a, RotateIf(b, s))
  {
    if s.rotBlock > 1 {
      RotateSymmetric(a, b, s.rotBlock, s.inv);
    }
  }

  /** Dequantizing preserves meaning: the rebuilt row times the activation is the
      scaled codes times the transformed activation, for either fold order. */
  lemma DequantPreserves(q: seq<int>, ws: real, ascale: Option<Vec>, s: ActSpec, x: Vec)
    requires |x| == |q| && ValidSite(|q|, ascale, s)
    ensures Dot(DequantRow(q, ws, ascale, s), x) == Dot(RowWeights(q, ws), Transform(x, ascale, s))
  {
    hide DivideIf, RotateIf, Dot;
    var w := RowWeights(q, ws);
    var x1 := DivideIf(s.foldBefore, x, ascale);
    DotDivideIf(s.foldBefore, RotateIf(DivideIf(!s.foldBefore, w, ascale), s), x, ascale);
    DotRotateIf(DivideIf(!s.foldBefore, w, ascale), x1, s);
    DotDivideIf(!s.foldBefore, w, RotateIf(x1, s), ascale);
  }

  // ---------- native against dequantized ----------

  function AbsInt(x: int): nat {
    if x < 0 then -x else x
  }

  function SumAbs(w: seq<int>): nat {
    if |w| == 0 then 0 else SumAbs(w[..|w| - 1]) + AbsInt(w[|w| - 1])
  }

  /** The error of one product: the magnitude of the weight's code times the error of
      quantizing the activation. */
  function TermError(w: int, y: real, scale: real, qmax: int): real
    requires scale > 0.0 && qmax >= 0
  {
    AbsInt(w) as real * Error(y, scale, qmax)
  }

  /** The errors of all products of a row. */
  function WeightedError(w: seq<int>, y: Vec, scale: real, qmax: int): real
    requires |w| == |y| && scale > 0.0 && qmax >= 0
  {
    if |w| == 0 then 0.0
    else
      var n := |w| - 1;
      WeightedError(w[..n], y[..n], scale, qmax) + TermError(w[n], y[n], scale, qmax)
  }

  /** An integer product in units of the activation scale. */
  function Scaled(n: int, scale: real): real {
    n as real * scale
  }

  lemma OneProduct(w: int, y: real, scale: real, qmax: int)
    requires scale > 0.0 && qmax >= 0
    ensures Gap(Product(w, Code(y, scale, qmax)), scale, Times(w as real, y)) == TermError(w, y, scale, qmax)
  {
    hide Code;
    var c := Code(y, scale, qmax);
    ScaledProduct(w, c, scale);
    ProductError(w as real, y, c as real * scale);
  }

  lemma ScaledProduct(w: int, c: int, scale: real)
    ensures Scaled(Product(w, c), scale) == Times(w as real, c as real * scale)
  {
    assert (w * c) as real == w as real * c as real;
  }

  lemma ProductError(w: real, y: real, v: real)
    ensures Abs(Times(w, v) - Times(w, y)) == Abs(w) * Abs(y - v)
  {
    assert w * v - w * y == -(w * (y - v));
    AbsTimes(w, y - v);
  }

  lemma AbsTimes(a: real, b: real)
    ensures Abs(a * b) == Abs(a) * Abs(b) && Abs(-(a * b)) == Abs(a) * Abs(b)
  {
    if a >= 0.0 && b >= 0.0 {
      assert a * b >= 0.0;
    } else if a >= 0.0 {
      assert a * -b >= 0.0;
    } else if b >= 0.0 {
      assert -a * b >= 0.0;
    } else {
      assert -a * -b >= 0.0;
    }
  }

  lemma CodesPrefix(y: Vec, n: nat, scale: real, qmax: int)
    requires n <= |y| && scale > 0.0 && qmax >= 0
    ensures Codes(y, scale, qmax)[..n] == Codes(y[..n], scale, qmax)
  {
    hide Code;
  }

  lemma RowWeightsPrefix(w: seq<int>, n: nat, ws: real)
    requires n <= |w|
    ensures RowWeights(w, ws)[..n] == RowWeights(w[..n], ws)
  {
    hide Times;
  }

  lemma RealsPrefix(w: seq<int>, n: nat)
    requires n <= |w|
    ensures Reals(w)[..n] == Reals(w[..n])
  {
  }

  /** How far an integer sum, scaled, is from a real one. */
  function Gap(i: int, scale: real, d: real): real {
    Abs(Scaled(i, scale) - d)
  }

  /** Gaps of two parts of a sum add up. */
  lemma AddGaps(i: int, j: int, scale: real, d: real, e: real, a: real, b: real)
    requires Gap(i, scale, d) <= a && Gap(j, scale, e) <= b
    ensures Gap(i + j, scale, d + e) <= a + b
  {
    assert (i + j) as real == i as real + j as real;
    assert (i + j) as real * scale == i as real * scale + j as real * scale;
  }

  /** The exact products of the codes against the float products of what they stand
      for. */
  lemma {:induction false} CodesDotError(w: seq<int>, y: Vec, scale: real, qmax: int)
    requires |w| == |y| && scale > 0.0 && qmax >= 0
    ensures Gap(IntDot(w, Codes(y, scale, qmax)), scale, Dot(Reals(w), y))
            <= WeightedError(w, y, scale, qmax)
    decreases |w|
  {
    if |w| > 0 {
      var n := |w| - 1;
      CodesDotError(w[..n], y[..n], scale, qmax);
      CodesDotStep(w, y, scale, qmax);
    } else {
      assert Gap(0, scale, 0.0) == 0.0;
    }
  }

  lemma {:induction false} CodesDotStep(w: seq<int>, y: Vec, scale: real, qmax: int)
    requires |w| == |y| && |w| > 0 && scale > 0.0 && qmax >= 0
    requires var n := |w| - 1;
             Gap(IntDot(w[..n], Codes(y[..n], scale, qmax)), scale, Dot(Reals(w[..n]), y[..n]))
             <= WeightedError(w[..n], y[..n], scale, qmax)
    ensures Gap(IntDot(w, Codes(y, scale, qmax)), scale, Dot(Reals(w), y))
            <= WeightedError(w, y, scale, qmax)
  {
    hide Gap, Code, Times, Product, TermError, WeightedError, Dot, IntDot, Codes, Reals;
    var n := |w| - 1;
    LastCode(w, y, scale, qmax);
    LastProduct(w, y);
    LastError(w, y, scale, qmax);
    OneProduct(w[n], y[n], scale, qmax);
    AddGaps(IntDot(w[..n], Codes(y[..n], scale, qmax)), Product(w[n], Code(y[n], scale, qmax)), scale,
            Dot(Reals(w[..n]), y[..n]), Times(w[n] as real, y[n]),
            WeightedError(w[..n], y[..n], scale, qmax), TermError(w[n], y[n], scale, qmax));
  }

  lemma LastCode(w: seq<int>, y: Vec, scale: real, qmax: int)
    requires |w| == |y| && |w| > 0 && scale > 0.0 && qmax >= 0
    ensures var n := |w| - 1;
            IntDot(w, Codes(y, scale, qmax))
            == IntDot(w[..n], Codes(y[..n], scale, qmax)) + Product(w[n], Code(y[n], scale, qmax))
  {
    hide Code, Product, IntDot;
    var n, c := |w| - 1, Codes(y, scale, qmax);
    assert c[n] == Code(y[n], scale, qmax);
    IntDotLast(w, c);
    CodesPrefix(y, n, scale, qmax);
  }

  lemma LastProduct(w: seq<int>, y: Vec)
    requires |w| == |y| && |w| > 0
    ensures var n := |w| - 1;
            Dot(Reals(w), y) == Dot(Reals(w[..n]), y[..n]) + Times(w[n] as real, y[n])
  {
    hide Times, Dot;
    DotLast(Reals(w), y);
    RealsPrefix(w, |w| - 1);
  }

  lemma LastError(w: seq<int>, y: Vec, scale: real, qmax: int)
    requires |w| == |y| && |w| > 0 && scale > 0.0 && qmax >= 0
    ensures var n := |w| - 1;
      WeightedError(w, y, scale, qmax)
      == WeightedError(w[..n], y[..n], scale, qmax) + TermError(w[n], y[n], scale, qmax)
  {
  }

  lemma {:induction false} WeightsScale(w: seq<int>, ws: real, y: Vec)
    requires |w| == |y|
    ensures Dot(RowWeights(w, ws), y) == ws * Dot(Reals(w), y)
    decreases |w|
  {
    if |w| > 0 {
      var n := |w| - 1;
      WeightsScale(w[..n], ws, y[..n]);
      RowWeightsPrefix(w, n, ws);
      RealsPrefix(w, n);
      assert (w[n] as real * ws) * y[n] == ws * (w[n] as real * y[n]);
    }
  }

  /** What a row of weight codes outputs on a row that is ready to be quantized. */
  function CodesOutput(w: seq<int>, ws: real, bias: real, y: Vec, s: ActSpec): real
    requires |y| == |w|
  {
    var xs := ScaleOf(y, s);
    Rescaled(IntDot(w, Codes(y, xs, Qmax(s.abits))), xs, ws, bias)
  }

  /** What the integer path outputs for a row. */
  function NativeOutput(w: seq<int>, ws: real, bias: real, ascale: Option<Vec>, s: ActSpec, x: Vec): real
    requires |x| == |w| && ValidRow(x, ascale, None, s)
  {
    CodesOutput(w, ws, bias, Prepared(x, ascale, None, s), s)
  }

  /** What the float path outputs on the rebuilt row. */
  function FloatOutput(w: seq<int>, ws: real, bias: real, ascale: Option<Vec>, s: ActSpec, x: Vec): real
    requires |x| == |w| && ValidRow(x, ascale, None, s)
  {
    Dot(DequantRow(w, ws, ascale, s), x) + bias
  }

  /** For every row, activation and clip, the two paths differ by at most the weighted
      quantization errors of the transformed activation. */
  lemma NativeNearFloat(w: seq<int>, ws: real, bias: real, ascale: Option<Vec>, s: ActSpec, x: Vec)
    requires |x| == |w| && ValidRow(x, ascale, None, s)
    ensures var y := Transform(x, ascale, s);
            Abs(NativeOutput(w, ws, bias, ascale, s, x) - FloatOutput(w, ws, bias, ascale, s, x))
            <= Abs(ws) * WeightedError(w, y, ScaleOf(y, s), Qmax(s.abits))
  {
    hide Transform, ScaleOf, DequantRow, Dot, IntDot, RowWeights, WeightedError, Codes, Scaled, Rescaled;
    var y := Transform(x, ascale, s);
    var xs, qmax := ScaleOf(y, s), Qmax(s.abits);
    DequantPreserves(w, ws, ascale, s, x);
    WeightsScale(w, ws, y);
    CodesDotError(w, y, xs, qmax);
    RescaledIsScaled(IntDot(w, Codes(y, xs, qmax)), xs, ws, bias);
    OutputError(Scaled(IntDot(w, Codes(y, xs, qmax)), xs), Dot(Reals(w), y), ws, bias,
                WeightedError(w, y, xs, qmax));
  }

  lemma RescaledIsScaled(acc: int, xs: real, ws: real, bias: real)
    ensures Rescaled(acc, xs, ws, bias) == Scaled(acc, xs) * ws + bias
  {
  }

  lemma OutputError(a: real, b: real, ws: real, bias: real, e: real)
    requires Abs(a - b) <= e
    ensures Abs((a * ws + bias) - (ws * b + bias)) <= Abs(ws) * e
  {
    assert a * ws - ws * b == ws * (a - b);
    AbsTimes(ws, a - b);
    Larger(Abs(ws), Abs(a - b), e);
  }

  lemma Larger(c: real, a: real, b: real)
    requires c >= 0.0 && a <= b
    ensures c * a <= c * b
  {
    assert c * (b - a) >= 0.0;
  }

  /** The explicit bound: for every unit of code magnitude half an activation step, or the
      excess of a value the codes do not reach. */
  function ClipBound(w: seq<int>, y: Vec, scale: real, qmax: int): real
    requires |w| == |y| && scale > 0.0 && qmax >= 0
  {
    if |w| == 0 then 0.0
    else
      var n := |w| - 1;
      ClipBound(w[..n], y[..n], scale, qmax) + AbsInt(w[n]) as real * ClipError(y[n], scale, qmax)
  }

  lemma {:induction false} WithinClip(w: seq<int>, y: Vec, scale: real, qmax: int)
    requires |w| == |y| && scale > 0.0 && qmax >= 0
    ensures WeightedError(w, y, scale, qmax) <= ClipBound(w, y, scale, qmax)
    decreases |w|
  {
    hide Error, ClipError;
    if |w| > 0 {
      var n := |w| - 1;
      WithinClip(w[..n], y[..n], scale, qmax);
      ErrorWithinClip(y[n], scale, qmax);
      Larger(AbsInt(w[n]) as real, Error(y[n], scale, qmax), ClipError(y[n], scale, qmax));
    }
  }

  /** For every row, activation and clip, the two paths differ by at most the row's scale
      times the explicit bound. */
  lemma NativeWithinClip(w: seq<int>, ws: real, bias: real, ascale: Option<Vec>, s: ActSpec, x: Vec)
    requires |x| == |w| && ValidRow(x, ascale, None, s)
    ensures var y := Transform(x, ascale, s);
            Abs(NativeOutput(w, ws, bias, ascale, s, x) - FloatOutput(w, ws, bias, ascale, s, x))
            <= Abs(ws) * ClipBound(w, y, ScaleOf(y, s), Qmax(s.abits))
  {
    hide Transform, NativeOutput, FloatOutput, WeightedError, ClipBound, ScaleOf;
    var y := Transform(x, ascale, s);
    var xs, qmax := ScaleOf(y, s), Qmax(s.abits);
    WithinClip(w, y, xs, qmax);
    NativeNearFloat(w, ws, bias, ascale, s, x);
    Larger(Abs(ws), WeightedError(w, y, xs, qmax), ClipBound(w, y, xs, qmax));
  }

  /** Half an activation step for every unit of code magnitude. */
  function HalfStepBound(scale: real, m: nat): (r: real)
    ensures m == 0 ==> r == 0.0
  {
    scale / 2.0 * m as real
  }

  /** A row whose values the codes all reach. */
  lemma {:induction false} HalfSteps(w: seq<int>, y: Vec, scale: real, qmax: int)
    requires |w| == |y| && scale > 0.0 && qmax >= 0
    requires forall k :: 0 <= k < |y| ==> ClipError(y[k], scale, qmax) == scale / 2.0
    ensures ClipBound(w, y, scale, qmax) == HalfStepBound(scale, SumAbs(w))
    decreases |w|
  {
    hide ClipError, HalfStepBound;
    if |w| > 0 {
      var n := |w| - 1;
      HalfSteps(w[..n], y[..n], scale, qmax);
      AddHalfStep(SumAbs(w[..n]), AbsInt(w[n]), scale);
    }
  }

  lemma AddHalfStep(m: nat, a: nat, scale: real)
    ensures HalfStepBound(scale, m) + a as real * (scale / 2.0) == HalfStepBound(scale, m + a)
  {
    var h := scale / 2.0;
    assert (m + a) as real == m as real + a as real;
    assert h * (m + a) as real == h * m as real + a as real * h;
  }

  /** Without clipping, the two paths differ by at most half an activation step times
      the row's scale and the sum of its codes' magnitudes. */
  lemma NativeWithinHalfStep(w: seq<int>, ws: real, bias: real, ascale: Option<Vec>, s: ActSpec, x: Vec)
    requires |x| == |w| && ValidRow(x, ascale, None, s) && s.clip >= 1.0
    ensures var xs := ScaleOf(Transform(x, ascale, s), s);
            Abs(NativeOutput(w, ws, bias, ascale, s, x) - FloatOutput(w, ws, bias, ascale, s, x))
            <= Abs(ws) * HalfStepBound(xs, SumAbs(w))
  {
    hide NativeOutput, FloatOutput, Transform, ClipBound, SumAbs, HalfStepBound;
    NativeWithinClip(w, ws, bias, ascale, s, x);
    UnclippedBound(w, Transform(x, ascale, s), s);
  }

  lemma UnclippedBound(w: seq<int>, y: Vec, s: ActSpec)
    requires |w| == |y| && s.clip >= 1.0
    ensures ClipBound(w, y, ScaleOf(y, s), Qmax(s.abits)) == HalfStepBound(ScaleOf(y, s), SumAbs(w))
  {
    hide ClipBound, SumAbs, HalfStepBound, ClipError, AbsMax, RowScale;
    var amax := AbsMax(y);
    Ordered(1.0, s.clip, if amax > 0.0 then amax else 1.0);
    forall k | 0 <= k < |y| ensures ClipError(y[k], ScaleOf(y, s), Qmax(s.abits)) == ScaleOf(y, s) / 2.0 {
      ClippedBound(y[k], amax, s.clip, Qmax(s.abits));
    }
    HalfSteps(w, y, ScaleOf(y, s), Qmax(s.abits));
  }

  // ---------- the loops ----------

  /** A stored weight row's codes: bytes, or two nibbles to a byte. */
  function RowCodes(row: seq<int>, wbits: int): seq<int>
    requires wbits == 4 ==> forall i :: 0 <= i < |row| ==> IsByte(row[i])
  {
    if wbits == 4 then Unpack(row) else row
  }

  /** Rows of `K` codes with a scale each, and a site that takes them. */
  predicate ValidRows(rows: seq<seq<int>>, wscale: Vec, ascale: Option<Vec>, s: ActSpec, K: nat) {
    |rows| <= |wscale| && ValidSite(K, ascale, s) && Rows(rows, K)
  }

  /** The rows of a site rebuilt. */
  function RebuiltRows(rows: seq<seq<int>>, wscale: Vec, ascale: Option<Vec>, s: ActSpec, K: nat): (r: seq<Vec>)
    requires ValidRows(rows, wscale, ascale, s, K)
    ensures |r| == |rows| && Rows(r, K)
  {
    seq(|rows|, n requires 0 <= n < |rows| => DequantRow(rows[n], wscale[n], ascale, s))
  }

  method FillRow(q: seq<int>, ws: real, out: array<real>, lo: nat)
    requires lo + |q| <= out.Length
    modifies out
    ensures out[..] == Replace(old(out[..]), lo, RowWeights(q, ws))
  {
    hide Times;
    ghost var was := out[..];
    for k := 0 to |q|
      invariant forall m :: lo <= m < lo + k ==> out[m] == Times(q[m - lo] as real, ws)
      invariant forall m :: 0 <= m < lo || lo + k <= m < out.Length ==> out[m] == was[m]
    {
      out[lo + k] := Times(q[k] as real, ws);
    }
  }

  /** Rebuilds one row at `lo`. */
  method DequantInto(q: seq<int>, ws: real, ascale: Option<Vec>, s: ActSpec, out: array<real>, lo: nat)
    requires lo + |q| <= out.Length && ValidSite(|q|, ascale, s)
    modifies out
    ensures out[..] == Replace(old(out[..]), lo, DequantRow(q, ws, ascale, s))
  {
    hide Replace, RowWeights, Rotate, Div;
    ghost var was := out[..];
    FillRow(q, ws, out, lo);
    ghost var c := RowWeights(q, ws);
    if ascale.Some? && !s.foldBefore {
      ReplaceTwice(was, lo, c, Div(c, ascale.value));
      DivideRow(out, lo, ascale.value);
      c := Div(c, ascale.value);
    }
    if s.rotBlock > 1 {
      ReplaceTwice(was, lo, c, Rotate(c, s.rotBlock, s.inv));
      RotateRow(out, lo, |q|, s.rotBlock, s.inv);
      c := Rotate(c, s.rotBlock, s.inv);
    }
    if ascale.Some? && s.foldBefore {
      ReplaceTwice(was, lo, c, Div(c, ascale.value));
      DivideRow(out, lo, ascale.value);
      c := Div(c, ascale.value);
    }
  }

  /** Stored rows of `K` codes. */
  ghost predicate ValidStored(codes: seq<seq<int>>, wbits: int, K: nat) {
    && (wbits == 4 ==> K % 2 == 0)
    && forall n :: 0 <= n < |codes| ==> ValidStoredRow(codes[n], wbits, K)
  }

  ghost predicate ValidStoredRow(row: seq<int>, wbits: int, K: nat) {
    if wbits == 4 then 2 * |row| == K && forall i :: 0 <= i < |row| ==> IsByte(row[i]) else |row| == K
  }

  ghost function AllCodes(codes: seq<seq<int>>, wbits: int, K: nat): (rows: seq<seq<int>>)
    requires ValidStored(codes, wbits, K)
    ensures |rows| == |codes| && forall n :: 0 <= n < |rows| ==> |rows[n]| == K && rows[n] == RowCodes(codes[n], wbits)
  {
    seq(|codes|, n requires 0 <= n < |codes| => assert ValidStoredRow(codes[n], wbits, K); RowCodes(codes[n], wbits))
  }

  /** Reads every stored row back as a float weight, row-major in `out`. */
  method DequantRows(codes: seq<seq<int>>, wbits: int, wscale: Vec, ascale: Option<Vec>, s: ActSpec, K: nat,
                     out: array<real>)
    requires ValidStored(codes, wbits, K) && ValidSite(K, ascale, s)
    requires |wscale| == |codes| && out.Length == Area(|codes|, K)
    modifies out
    ensures out[..] == Stack(RebuiltRows(AllCodes(codes, wbits, K), wscale, ascale, s, K), K)
  {
    hide Replace, DequantRow, Filled, Stack, Area, ValidSite;
    ghost var rows, was := RebuiltRows(AllCodes(codes, wbits, K), wscale, ascale, s, K), out[..];
    FillEnds(rows, K, was);
    var base := 0;
    for n := 0 to |codes|
      invariant base == Area(n, K) && base <= |was|
      invariant out[..] == Filled(rows, n, K, was)
    {
      assert ValidStoredRow(codes[n], wbits, K);
      var q := DecodeRow(codes[n], wbits);
      RowFits(n, K, |codes|);
      FillMoves(rows, n, K, was);
      DequantInto(q, wscale[n], ascale, s, out, base);
      base := base + K;
    }
  }

  /** The output once `n` rows are in place. */
  ghost function Filled(rows: seq<Vec>, n: nat, K: nat, was: Vec): (r: Vec)
    requires Rows(rows, K) && n <= |rows| && Area(n, K) <= |was|
    ensures |r| == |was|
  {
    Stack(rows[..n], K) + was[Area(n, K)..]
  }

  lemma FillEnds(rows: seq<Vec>, K: nat, was: Vec)
    requires Rows(rows, K) && |was| == Area(|rows|, K)
    ensures Area(0, K) == 0 && Filled(rows, 0, K, was) == was && Filled(rows, |rows|, K, was) == Stack(rows, K)
  {
    assert rows[..0] == [] && rows[..|rows|] == rows;
  }

  lemma FillMoves(rows: seq<Vec>, n: nat, K: nat, was: Vec)
    requires Rows(rows, K) && n < |rows| && Area(n, K) + K <= |was|
    ensures Area(n + 1, K) == Area(n, K) + K
    ensures Replace(Filled(rows, n, K, was), Area(n, K), rows[n]) == Filled(rows, n + 1, K, was)
  {
    NextArea(n, K);
    hide Replace, Stack, Area;
    assert rows[..n + 1] == rows[..n] + [rows[n]];
    StackNext(rows[..n], rows[n], K);
    AppendNext(Stack(rows[..n], K), was, rows[n]);
  }

  lemma AppendNext(m: Vec, was: Vec, c: Vec)
    requires |m| + |c| <= |was|
    ensures Replace(m + was[|m|..], |m|, c) == m + c + was[|m| + |c|..]
  {
    hide Replace;
    var b := |m|;
    DropDrop(was, b, |c|);
    ReplaceNext([], m, was[b..], c);
    assert [] + m + was[b..] == m + was[b..] && [] + (m + c) + was[b + |c|..] == m + c + was[b + |c|..];
  }

  method DecodeRow(row: seq<int>, wbits: int) returns (q: seq<int>)
    requires wbits == 4 ==> forall i :: 0 <= i < |row| ==> IsByte(row[i])
    ensures q == RowCodes(row, wbits)
  {
    if wbits == 4 {
      var a := new int[2 * |row|];
      UnpackNibbles(row, a);
      q := a[..];
    } else {
      q := row;
    }
  }

  // ---------- narrowing the rotation block ----------

  /** The block is halved until it divides the row. */
  method RotBlockFor(K: nat, nominal: int) returns (bs: nat)
    ensures bs == NarrowedBlock(K, nominal)
  {
    var b := nominal;
    while b > 1 && K % b != 0
      invariant NarrowedBlock(K, b) == NarrowedBlock(K, nominal)
      decreases b
    {
      b := b / 2;
    }
    bs := if b < 2 then 1 else b;
  }

  function NarrowedBlock(K: nat, b: int): (bs: nat)
    ensures bs >= 1
    decreases b
  {
    if b > 1 && K % b != 0 then NarrowedBlock(K, b / 2) else if b < 2 then 1 else b
  }

  /** `bs` is the largest power of two, at most `nominal`, that divides `K`. */
  ghost predicate LargestPow2(K: nat, nominal: int, bs: nat) {
    && IsPow2(bs) && bs <= nominal && K % bs == 0
    && forall p: nat :: IsPow2(p) && p <= nominal && K % p == 0 ==> p <= bs
  }

  lemma {:induction false} Pow2Below(p: nat, n: nat)
    requires IsPow2(p) && IsPow2(n) && p < n
    ensures p <= n / 2
    decreases n
  {
    NextPow2(p, n);
  }

  lemma {:induction false} NarrowedFromPow2(K: nat, b: nat)
    requires IsPow2(b)
    ensures LargestPow2(K, b, NarrowedBlock(K, b))
    decreases b
  {
    if b > 1 && K % b != 0 {
      NarrowedFromPow2(K, b / 2);
      forall p: nat | IsPow2(p) && p <= b && K % p == 0 ensures p <= NarrowedBlock(K, b) {
        if p < b {
          Pow2Below(p, b);
        }
      }
    }
  }

  /** The narrowed block is the largest power of two dividing the row, for every row
      length, if and only if the nominal block is a power of two. */
  lemma NarrowedIsLargestExactly(nominal: int)
    ensures (forall K: nat :: K >= 1 ==> LargestPow2(K, nominal, NarrowedBlock(K, nominal)))
            <==> (nominal >= 1 && IsPow2(nominal))
  {
    if nominal >= 1 && IsPow2(nominal) {
      forall K: nat | K >= 1 ensures LargestPow2(K, nominal, NarrowedBlock(K, nominal)) {
        NarrowedFromPow2(K, nominal);
      }
    } else {
      var K: nat := if nominal >= 1 then nominal else 1;
      assert nominal > 1 ==> NarrowedBlock(K, nominal) == nominal;
      assert !LargestPow2(K, nominal, NarrowedBlock(K, nominal));
    }
  }
}
