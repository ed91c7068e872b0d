/** Symmetric integer quantization of one value: rounding, clamping, and exactly
    how far the code is from the value it stands for. */
module Quantize {
  import opened Vectors

  /** The nearest integer, halves to even. */
  function RoundHalfEven(x: real): int {
    var f := x.Floor;
    var d := x - f as real;
    if d < 0.5 then f else if d > 0.5 then f + 1 else if f % 2 == 0 then f else f + 1
  }

  lemma RoundIsNearest(x: real)
    ensures Abs(x - RoundHalfEven(x) as real) <= 0.5
  {
  }

  lemma NearestIsRound(x: real, n: int)
    requires Abs(x - n as real) < 0.5
    ensures RoundHalfEven(x) == n
  {
    assert n == x.Floor || n == x.Floor + 1;
  }

  lemma RoundTies(x: real, n: int)
    requires x == n as real + 0.5
    ensures RoundHalfEven(x) == if n % 2 == 0 then n else n + 1
  {
    assert x.Floor == n;
  }

  lemma RoundMonotone(x: real, y: real)
    requires x <= y
    ensures RoundHalfEven(x) <= RoundHalfEven(y)
  {
    assert x.Floor <= y.Floor;
  }

  lemma RoundOdd(x: real)
    ensures RoundHalfEven(-x) == -RoundHalfEven(x)
  {
    var f := x.Floor;
    if x == f as real {
      assert (-x).Floor == -f;
    } else {
      assert (-x).Floor == -f - 1;
    }
  }

  function Clamp(q: int, qmax: int): int
    requires qmax >= 0
  {
    if q < -qmax then -qmax else if q > qmax then qmax else q
  }

  /** The largest code of a width: INT4 or INT8. */
  function Qmax(bits: int): int {
    if bits == 4 then 7 else 127
  }

  /** The code of `y`: multiply by the reciprocal of the scale, round, clamp. */
  function Code(y: real, scale: real, qmax: int): (q: int)
    requires scale > 0.0 && qmax >= 0
    ensures -qmax <= q <= qmax
  {
    Clamp(RoundHalfEven(y * (1.0 / scale)), qmax)
  }

  /** How far the value a code stands for is from `y`. */
  function Error(y: real, scale: real, qmax: int): real
    requires scale > 0.0 && qmax >= 0
  {
    Abs(y - Code(y, scale, qmax) as real * scale)
  }

  /** `y` in units of the scale. */
  function Unit(y: real, scale: real): real
    requires scale > 0.0
  {
    y * (1.0 / scale)
  }

  lemma ErrorInUnits(y: real, scale: real, qmax: int)
    requires scale > 0.0 && qmax >= 0
    ensures Code(y, scale, qmax) == Clamp(RoundHalfEven(Unit(y, scale)), qmax)
    ensures Error(y, scale, qmax) == Abs(Unit(y, scale) - Code(y, scale, qmax) as real) * scale
  {
    var u, c := Unit(y, scale), Code(y, scale, qmax) as real;
    assert u * scale == y * (1.0 / scale * scale);
    assert y - c * scale == (u - c) * scale;
    MulSign(u - c, scale);
  }

  lemma UnitOrder(y: real, scale: real, b: real)
    requires scale > 0.0
    ensures Abs(Unit(y, scale)) <= b <==> Abs(y) <= b * scale
  {
    var u := Unit(y, scale);
    assert u * scale == y * (1.0 / scale * scale);
    MulSign(u, scale);
    Ordered(Abs(u), b, scale);
  }

  lemma MulSign(v: real, s: real)
    requires s > 0.0
    ensures Abs(v * s) == Abs(v) * s
  {
    if v < 0.0 {
      assert v * s < 0.0;
    }
  }

  lemma Ordered(a: real, b: real, s: real)
    requires s > 0.0
    ensures a <= b <==> a * s <= b * s
  {
    if a <= b {
      assert (b - a) * s >= 0.0;
    } else {
      assert (a - b) * s > 0.0;
    }
  }

  /** The clamped rounding of `u` is within half of it exactly up to qmax + 1/2. */
  lemma UnitError(u: real, qmax: int)
    requires qmax >= 0
    ensures Abs(u - Clamp(RoundHalfEven(u), qmax) as real) <= 0.5 <==> Abs(u) <= qmax as real + 0.5
  {
    RoundIsNearest(u);
  }

  /** A code is within half a step of its value if and only if the value is within
      half a step of the largest one a code can stand for. */
  lemma HalfStepExactly(y: real, scale: real, qmax: int)
    requires scale > 0.0 && qmax >= 0
    ensures Error(y, scale, qmax) <= scale / 2.0 <==> Abs(y) <= (qmax as real + 0.5) * scale
  {
    hide Error, Code, Clamp, RoundHalfEven, Abs, Unit;
    var u, c := Unit(y, scale), Code(y, scale, qmax) as real;
    ErrorInUnits(y, scale, qmax);
    UnitOrder(y, scale, qmax as real + 0.5);
    UnitError(u, qmax);
    Ordered(Abs(u - c), 0.5, scale);
  }

  /** A value saturates if and only if it is more than half a step above the largest
      code but one; `qmax` is odd, so a tie there rounds down. */
  lemma SaturatesExactly(y: real, scale: real, qmax: int)
    requires scale > 0.0 && qmax > 0 && qmax % 2 == 1
    ensures Code(y, scale, qmax) == qmax || Code(y, scale, qmax) == -qmax
            <==> Abs(y) > (qmax as real - 0.5) * scale
  {
    hide Error, Code, Clamp, RoundHalfEven, Abs, Unit;
    ErrorInUnits(y, scale, qmax);
    UnitOrder(y, scale, qmax as real - 0.5);
    UnitSaturates(Unit(y, scale), qmax);
  }

  lemma UnitSaturates(u: real, qmax: int)
    requires qmax > 0 && qmax % 2 == 1
    ensures Clamp(RoundHalfEven(u), qmax) == qmax || Clamp(RoundHalfEven(u), qmax) == -qmax
            <==> Abs(u) > qmax as real - 0.5
  {
    var v := Abs(u);
    RoundOdd(u);
    RoundIsNearest(v);
    RoundTies(qmax as real - 0.5, qmax - 1);
    if v <= qmax as real - 0.5 {
      RoundMonotone(v, qmax as real - 0.5);
    } else if v < qmax as real {
      NearestIsRound(v, qmax);
    } else {
      RoundMonotone(qmax as real, v);
      NearestIsRound(qmax as real, qmax);
    }
  }

  /** The most a code is off: half a step up to the largest value a code stands for, and
      the distance from that value beyond it. */
  function ClipError(y: real, scale: real, qmax: int): (e: real)
    requires scale > 0.0 && qmax >= 0
    ensures e > 0.0
  {
    var top := qmax as real * scale;
    if Abs(y) <= top then scale / 2.0 else Abs(y) - top
  }

  lemma UnitBeyond(u: real, qmax: int)
    requires qmax >= 0 && Abs(u) > qmax as real
    ensures Abs(u - Clamp(RoundHalfEven(u), qmax) as real) == Abs(u) - qmax as real
  {
    RoundIsNearest(u);
  }

  /** Beyond the largest value a code stands for, the error is the whole excess. */
  lemma ErrorBeyond(y: real, scale: real, qmax: int)
    requires scale > 0.0 && qmax >= 0 && Abs(y) > qmax as real * scale
    ensures Error(y, scale, qmax) == Abs(y) - qmax as real * scale
  {
    hide Error, Code, Clamp, RoundHalfEven, Abs, Unit;
    var u := Unit(y, scale);
    ErrorInUnits(y, scale, qmax);
    UnitOrder(y, scale, qmax as real);
    UnitBeyond(u, qmax);
    UnitTimes(y, scale);
    assert (Abs(u) - qmax as real) * scale == Abs(u) * scale - qmax as real * scale;
  }

  lemma UnitTimes(y: real, scale: real)
    requires scale > 0.0
    ensures Abs(Unit(y, scale)) * scale == Abs(y)
  {
    var u := Unit(y, scale);
    assert u * scale == y * (1.0 / scale * scale);
    MulSign(u, scale);
  }

  /** No code is off by more, and beyond the largest value every code is off by as much. */
  lemma ErrorWithinClip(y: real, scale: real, qmax: int)
    requires scale > 0.0 && qmax >= 0
    ensures Error(y, scale, qmax) <= ClipError(y, scale, qmax)
    ensures Abs(y) > qmax as real * scale ==> Error(y, scale, qmax) == ClipError(y, scale, qmax)
  {
    hide Error, Abs;
    if Abs(y) > qmax as real * scale {
      ErrorBeyond(y, scale, qmax);
    } else {
      HalfStepExactly(y, scale, qmax);
      assert qmax as real * scale <= (qmax as real + 0.5) * scale;
    }
  }

  // ---------- the scale of a row ----------

  const SCALE_FLOOR: real := 0.000000000001

  /** The per-row scale: the clipped largest magnitude over qmax, floored. */
  function RowScale(amax: real, clip: real, qmax: int): (s: real)
    requires qmax > 0
    ensures s > 0.0
  {
    var s := (clip * amax) / qmax as real;
    if s < SCALE_FLOOR then SCALE_FLOOR else s
  }

  /** The largest magnitude of the row that the codes are meant to reach. */
  function ClippedMax(amax: real, clip: real): real {
    clip * amax
  }

  /** The magnitude above which values take an extreme code. */
  function SaturationPoint(amax: real, clip: real, qmax: int): real
    requires qmax > 0
  {
    (qmax as real - 0.5) * RowScale(amax, clip, qmax)
  }

  lemma RowScaleCovers(amax: real, clip: real, qmax: int)
    requires qmax > 0
    ensures ClippedMax(amax, clip) <= qmax as real * RowScale(amax, clip, qmax)
  {
    var s := (clip * amax) / qmax as real;
    assert s * qmax as real == clip * amax;
    Ordered(s, RowScale(amax, clip, qmax), qmax as real);
  }

  /** Every value up to the clipped maximum is within half a step of its code. */
  lemma ClippedHalfStep(y: real, amax: real, clip: real, qmax: int)
    requires qmax > 0 && Abs(y) <= ClippedMax(amax, clip)
    ensures Error(y, RowScale(amax, clip, qmax), qmax) <= RowScale(amax, clip, qmax) / 2.0
  {
    var s := RowScale(amax, clip, qmax);
    RowScaleCovers(amax, clip, qmax);
    assert qmax as real * s <= (qmax as real + 0.5) * s;
    HalfStepExactly(y, s, qmax);
  }

  /** The bound for such a value is half a step. */
  lemma ClippedBound(y: real, amax: real, clip: real, qmax: int)
    requires qmax > 0 && Abs(y) <= ClippedMax(amax, clip)
    ensures ClipError(y, RowScale(amax, clip, qmax), qmax) == RowScale(amax, clip, qmax) / 2.0
  {
    hide RowScale;
    RowScaleCovers(amax, clip, qmax);
  }

  /** Without clipping that is every value of the row. */
  lemma UnclippedHalfStep(y: real, amax: real, clip: real, qmax: int)
    requires qmax > 0 && Abs(y) <= amax && clip >= 1.0
    ensures Error(y, RowScale(amax, clip, qmax), qmax) <= RowScale(amax, clip, qmax) / 2.0
  {
    Ordered(1.0, clip, if amax > 0.0 then amax else 1.0);
    ClippedHalfStep(y, amax, clip, qmax);
  }

  /** Values of a row above the clipped maximum all take an extreme code. */
  ghost predicate RestSaturates(amax: real, clip: real, qmax: int)
    requires qmax > 0
  {
    forall y :: ClippedMax(amax, clip) < Abs(y) <= amax ==> Extreme(y, amax, clip, qmax)
  }

  predicate Extreme(y: real, amax: real, clip: real, qmax: int)
    requires qmax > 0
  {
    var c := Code(y, RowScale(amax, clip, qmax), qmax);
    c == qmax || c == -qmax
  }

  lemma ExtremeExactly(y: real, amax: real, clip: real, qmax: int)
    requires qmax > 0 && qmax % 2 == 1
    ensures Extreme(y, amax, clip, qmax) <==> Abs(y) > SaturationPoint(amax, clip, qmax)
  {
    SaturatesExactly(y, RowScale(amax, clip, qmax), qmax);
  }

  /** They do if and only if nothing is clipped or the clipped maximum reaches the
      saturation point; the floor on the scale can put it out of reach. */
  lemma RestSaturatesExactly(amax: real, clip: real, qmax: int)
    requires qmax > 0 && qmax % 2 == 1 && ClippedMax(amax, clip) >= 0.0
    ensures RestSaturates(amax, clip, qmax) <==>
            amax <= ClippedMax(amax, clip) || SaturationPoint(amax, clip, qmax) <= ClippedMax(amax, clip)
  {
    hide ClippedMax, SaturationPoint, Extreme;
    var low, t := ClippedMax(amax, clip), SaturationPoint(amax, clip, qmax);
    forall y ensures Extreme(y, amax, clip, qmax) <==> Abs(y) > t {
      ExtremeExactly(y, amax, clip, qmax);
    }
    if low < amax && low < t {
      var y := if amax < t then amax else t;
      assert low < Abs(y) <= amax && !Extreme(y, amax, clip, qmax);
    }
  }

  /** A scale that was not floored puts it in reach. */
  lemma UnflooredSaturates(amax: real, clip: real, qmax: int)
    requires qmax > 0 && qmax % 2 == 1 && ClippedMax(amax, clip) >= 0.0
    requires (clip * amax) / qmax as real >= SCALE_FLOOR
    ensures RestSaturates(amax, clip, qmax)
  {
    var s := RowScale(amax, clip, qmax);
    assert s * qmax as real == ClippedMax(amax, clip);
    assert (qmax as real - 0.5) * s <= qmax as real * s;
    RestSaturatesExactly(amax, clip, qmax);
  }

  /** On a row this small the floor keeps a value above the clipped maximum from
      saturating. */
  lemma FlooredRowDoesNotSaturate()
    ensures !RestSaturates(0.0000000000001, 0.5, 7)
  {
    RestSaturatesExactly(0.0000000000001, 0.5, 7);
  }
}
