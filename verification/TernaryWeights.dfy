/** Ternary weights: how a float matrix becomes codes and a scale, and how they are
    recovered from the products. */
module TernaryWeights {
  import opened Vectors
  import opened Quantize
  import opened ActRow

  /** The least scale. */
  const FLOOR: real := 0.00001

  function AtLeastFloor(s: real): (r: real)
    ensures r >= FLOOR && r >= s && (r == s || r == FLOOR)
  {
    if s < FLOOR then FLOOR else s
  }

  /** A matrix's scale: the mean magnitude. */
  function MeanScale(W: Vec): (r: real)
    requires |W| > 0
    ensures r >= FLOOR
  {
    AtLeastFloor(SumMagnitude(W) / |W| as real)
  }

  /** A matrix's codes: the nearest multiples of its scale. */
  function ToTernary(W: Vec): (t: seq<int>)
    requires |W| > 0
    ensures |t| == |W|
  {
    Codes(W, MeanScale(W), 1)
  }

  /** No code of the width is nearer than the one chosen. */
  lemma NearestCode(y: real, scale: real, qmax: int, c: int)
    requires scale > 0.0 && qmax >= 0 && -qmax <= c <= qmax
    ensures Error(y, scale, qmax) <= Abs(y - c as real * scale)
  {
    hide Error, Unit, Code, Abs, Clamp, RoundHalfEven, Times;
    CodeDistance(y, scale, qmax);
    DistanceInUnits(y, scale, c);
    NearestInUnits(Unit(y, scale), qmax, c);
    var u, q := Unit(y, scale), Code(y, scale, qmax);
    ScaleBoth(Abs(u - q as real), Abs(u - c as real), scale);
  }

  lemma CodeDistance(y: real, scale: real, qmax: int)
    requires scale > 0.0 && qmax >= 0
    ensures Code(y, scale, qmax) == Clamp(RoundHalfEven(Unit(y, scale)), qmax)
    ensures Error(y, scale, qmax) == Times(Abs(Unit(y, scale) - Code(y, scale, qmax) as real), scale)
  {
    ErrorInUnits(y, scale, qmax);
    hide Error, Unit, Code;
  }

  lemma NearestInUnits(u: real, qmax: int, c: int)
    requires qmax >= 0 && -qmax <= c <= qmax
    ensures Abs(u - Clamp(RoundHalfEven(u), qmax) as real) <= Abs(u - c as real)
  {
    RoundIsNearest(u);
    hide RoundHalfEven;
    var r := RoundHalfEven(u);
    if -qmax <= r <= qmax && c != r {
      assert c <= r - 1 || c >= r + 1;
    }
  }

  lemma DistanceInUnits(y: real, scale: real, c: int)
    requires scale > 0.0
    ensures Abs(y - c as real * scale) == Times(Abs(Unit(y, scale) - c as real), scale)
  {
    var u := Unit(y, scale);
    assert u * scale == y * (1.0 / scale * scale);
    assert y - c as real * scale == (u - c as real) * scale;
    MulSign(u - c as real, scale);
  }

  lemma ScaleBoth(a: real, b: real, s: real)
    requires a <= b && s > 0.0
    ensures Times(a, s) <= Times(b, s)
  {
    assert (b - a) * s >= 0.0;
  }

  /** Every code is ternary and no ternary multiple of the scale is nearer to its
      weight. */
  lemma TernaryNearest(W: Vec, i: nat, c: int)
    requires i < |W| && -1 <= c <= 1
    ensures var s := MeanScale(W); var t := ToTernary(W);
            -1 <= t[i] <= 1 && Abs(W[i] - t[i] as real * s) <= Abs(W[i] - c as real * s)
  {
    NearestCode(W[i], MeanScale(W), 1, c);
    hide Code;
  }

  // ---------- recovery ----------

  /** The products a file stores. */
  function Products(t: seq<int>, s: real): (W: Vec)
    ensures |W| == |t|
  {
    seq(|t|, i requires 0 <= i < |t| => Times(t[i] as real, s))
  }

  function RecoveredScale(W: Vec): (r: real)
    ensures r >= FLOOR
  {
    AtLeastFloor(AbsMax(W))
  }

  function Recovered(W: Vec): (t: seq<int>)
    ensures |t| == |W|
  {
    Codes(W, RecoveredScale(W), 1)
  }

  predicate AllZero(t: seq<int>) {
    forall i :: 0 <= i < |t| ==> t[i] == 0
  }

  predicate TernaryCodes(t: seq<int>) {
    forall i :: 0 <= i < |t| ==> -1 <= t[i] <= 1
  }

  lemma ScaleOfProducts(t: seq<int>, s: real)
    requires TernaryCodes(t) && s > 0.0
    ensures AbsMax(Products(t, s)) == if AllZero(t) then 0.0 else s
  {
    var W := Products(t, s);
    hide AbsMax;
    AbsMaxAttained(W);
    forall i | 0 <= i < |t| ensures Abs(W[i]) == if t[i] == 0 then 0.0 else s {
      assert t[i] == -1 || t[i] == 0 || t[i] == 1;
    }
    if !AllZero(t) {
      var i :| 0 <= i < |t| && t[i] != 0;
      assert Abs(W[i]) == s;
    }
  }

  /** The codes are recovered exactly if they are all zero or the scale is over half the
      floor; the stored products are reproduced exactly if they are all zero or the
      scale is not below the floor. */
  lemma RecoverExactly(t: seq<int>, s: real)
    requires TernaryCodes(t) && s > 0.0
    ensures Recovered(Products(t, s)) == t <==> AllZero(t) || s > FLOOR / 2.0
    ensures Products(Recovered(Products(t, s)), RecoveredScale(Products(t, s))) == Products(t, s)
            <==> AllZero(t) || s >= FLOOR
  {
    ScaleOfProducts(t, s);
    RecoveredCodes(t, s);
    var W := Products(t, s);
    assert !AllZero(t) ==> RecoveredScale(W) == AtLeastFloor(s);
    hide AbsMax, Code, Recovered, RecoveredScale, Times;
    var r, q := RecoveredScale(W), Recovered(W);
    if AllZero(t) {
      assert q == t;
      assert Products(q, r) == W;
    } else {
      var i :| 0 <= i < |t| && t[i] != 0;
      NotZero(t[i], s);
      ZeroTimes(r);
      Differ(t[i], s, r);
      assert W[i] == Times(t[i] as real, s) && Products(q, r)[i] == Times(q[i] as real, r);
      if s > FLOOR / 2.0 {
        assert q == t;
      }
      if s >= FLOOR {
        assert Products(q, r) == W;
      }
    }
  }

  lemma RecoveredCodes(t: seq<int>, s: real)
    requires TernaryCodes(t) && s > 0.0
    ensures forall i :: 0 <= i < |t| ==> Recovered(Products(t, s))[i] == if s > FLOOR / 2.0 then t[i] else 0
  {
    ScaleOfProducts(t, s);
    hide AbsMax, Code, Times;
    var W := Products(t, s);
    var r := RecoveredScale(W);
    forall i | 0 <= i < |t| ensures Recovered(W)[i] == if s > FLOOR / 2.0 then t[i] else 0 {
      CodeOfMultiple(t[i], s, r);
    }
  }

  lemma NotZero(t: int, s: real)
    requires t == 1 || t == -1
    requires s > 0.0
    ensures Times(t as real, s) != 0.0
  {
  }

  lemma ZeroTimes(s: real)
    ensures Times(0.0, s) == 0.0
  {
  }

  lemma Differ(t: int, s: real, r: real)
    requires t == 1 || t == -1
    ensures Times(t as real, s) == Times(t as real, r) <==> s == r
  {
  }

  /** A multiple of `s` quantized with scale `r`, the floor or `s`. */
  lemma CodeOfMultiple(t: int, s: real, r: real)
    requires -1 <= t <= 1 && s > 0.0 && (t != 0 ==> r == AtLeastFloor(s)) && r >= FLOOR
    ensures Code(Times(t as real, s), r, 1) == if s > FLOOR / 2.0 then t else 0
  {
    var u := s * (1.0 / r);
    assert u * r == s * (1.0 / r * r);
    assert 1.0 / r > 0.0 && u > 0.0;
    UnitIsRatio(s, r, u);
    assert t as real * s * (1.0 / r) == t as real * u;
    assert t as real * u == if t == 0 then 0.0 else if t == 1 then u else -u;
  }

  lemma UnitIsRatio(s: real, r: real, u: real)
    requires r >= FLOOR && u * r == s
    ensures r == s ==> u == 1.0
    ensures r == FLOOR && s <= FLOOR ==> u <= 1.0 && (u > 0.5 <==> s > FLOOR / 2.0)
  {
    assert (u - 1.0) * r == s - r;
  }

  method RecoverTernary(W: seq<real>) returns (t: seq<int>, scale: real)
    ensures t == Recovered(W) && scale == RecoveredScale(W)
  {
    hide Code;
    var amax := 0.0;
    for i := 0 to |W|
      invariant amax == AbsMax(W[..i])
    {
      assert W[..i + 1][..i] == W[..i];
      if Abs(W[i]) > amax {
        amax := Abs(W[i]);
      }
    }
    assert W[..|W|] == W;
    scale := if amax < FLOOR then FLOOR else amax;
    t := [];
    for i := 0 to |W|
      invariant |t| == i && forall k :: 0 <= k < i ==> t[k] == Code(W[k], scale, 1)
    {
      t := t + [Code(W[i], scale, 1)];
    }
  }
}
