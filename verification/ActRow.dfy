/** One activation row: normalise, divide, rotate, find the scale, and quantize. */
module ActRow {
  import opened Options
  import opened Vectors
  import opened Hadamard
  import opened Rotation
  import opened Quantize
  import opened Integers
  import opened LaneSum

  /** The static parameters of a site's activation; `inv` is one over the square root
      of the rotation block. */
  datatype ActSpec = ActSpec(abits: int, rotBlock: nat, inv: real, foldBefore: bool, clip: real, wide4: bool)
  {
    /** Codes are stored two to a byte. */
    predicate Packed() {
      abits == 4 && !wide4
    }

    predicate ValidFor(K: nat) {
      && (rotBlock > 1 ==> IsPow2(rotBlock) && Multiple(K, rotBlock))
      && (Packed() ==> K % 2 == 0)
    }
  }

  /** The fused norm: gain, optional shift, epsilon, and the square root the
      machine computes. */
  datatype Norm = Norm(gamma: Vec, shift: Option<Vec>, eps: real, root: real -> real)
  {
    function Rms(x: Vec): real
      requires |x| > 0
    {
      root(Dot(x, x) / |x| as real + eps)
    }

    predicate ValidFor(x: Vec) {
      |x| > 0 && |gamma| == |x| && (shift.Some? ==> |shift.value| == |x|) && Rms(x) != 0.0
    }

    function Apply(x: Vec): (r: Vec)
      requires ValidFor(x)
      ensures |r| == |x|
    {
      var g := Gain(x, 1.0 / Rms(x), gamma);
      if shift.Some? then Add(g, shift.value) else g
    }
  }

  function Gained(x: real, r: real, g: real): real {
    (x * r) * g
  }

  function Gain(x: Vec, r: real, gamma: Vec): (y: Vec)
    requires |gamma| == |x|
    ensures |y| == |x|
  {
    seq(|x|, k requires 0 <= k < |x| => Gained(x[k], r, gamma[k]))
  }

  /** A site's parameters fit rows of `K` entries. */
  predicate ValidSite(K: nat, ascale: Option<Vec>, s: ActSpec) {
    s.ValidFor(K) && (ascale.Some? ==> |ascale.value| == K && NoZero(ascale.value))
  }

  predicate ValidRow(x: Vec, ascale: Option<Vec>, norm: Option<Norm>, s: ActSpec) {
    && ValidSite(|x|, ascale, s)
    && (norm.Some? ==> norm.value.ValidFor(x))
  }

  function DivideIf(c: bool, x: Vec, ascale: Option<Vec>): (r: Vec)
    requires ascale.Some? ==> |ascale.value| == |x| && NoZero(ascale.value)
    ensures |r| == |x|
  {
    if c && ascale.Some? then Div(x, ascale.value) else x
  }

  function RotateIf(x: Vec, s: ActSpec): (r: Vec)
    requires s.ValidFor(|x|)
    ensures |r| == |x|
  {
    if s.rotBlock > 1 then Rotate(x, s.rotBlock, s.inv) else x
  }

  /** The fold and the rotation, in the order the site uses. */
  function Transform(x: Vec, ascale: Option<Vec>, s: ActSpec): (r: Vec)
    requires ValidSite(|x|, ascale, s)
    ensures |r| == |x|
  {
    DivideIf(!s.foldBefore, RotateIf(DivideIf(s.foldBefore, x, ascale), s), ascale)
  }

  /** The row after the norm that is fused in, if one is. */
  function Normed(x: Vec, norm: Option<Norm>): (r: Vec)
    requires norm.Some? ==> norm.value.ValidFor(x)
    ensures |r| == |x|
  {
    if norm.Some? then norm.value.Apply(x) else x
  }

  /** What the row is quantized from. */
  function Prepared(x: Vec, ascale: Option<Vec>, norm: Option<Norm>, s: ActSpec): (r: Vec)
    requires ValidRow(x, ascale, norm, s)
    ensures |r| == |x|
  {
    Transform(Normed(x, norm), ascale, s)
  }

  function AbsMax(y: Vec): (m: real)
    ensures m >= 0.0
    ensures forall k :: 0 <= k < |y| ==> Abs(y[k]) <= m
  {
    if |y| == 0 then 0.0
    else
      var m := AbsMax(y[..|y| - 1]);
      var a := Abs(y[|y| - 1]);
      assert forall k :: 0 <= k < |y| - 1 ==> y[k] == y[..|y| - 1][k];
      if a > m then a else m
  }

  /** The largest magnitude is one of the row's. */
  lemma {:induction false} AbsMaxAttained(y: Vec)
    ensures AbsMax(y) == 0.0 || exists k :: 0 <= k < |y| && Abs(y[k]) == AbsMax(y)
  {
    if |y| > 0 {
      var n := |y| - 1;
      AbsMaxAttained(y[..n]);
      if AbsMax(y[..n]) != 0.0 && Abs(y[n]) <= AbsMax(y[..n]) {
        var k :| 0 <= k < n && Abs(y[..n][k]) == AbsMax(y[..n]);
        assert Abs(y[k]) == AbsMax(y);
      }
    }
  }

  function ScaleOf(y: Vec, s: ActSpec): (r: real)
    ensures r > 0.0
  {
    RowScale(AbsMax(y), s.clip, Qmax(s.abits))
  }

  function Codes(y: Vec, scale: real, qmax: int): (c: seq<int>)
    requires scale > 0.0 && qmax >= 0
    ensures |c| == |y| && forall k :: 0 <= k < |c| ==> -qmax <= c[k] <= qmax
  {
    seq(|y|, k requires 0 <= k < |y| => Code(y[k], scale, qmax))
  }

  /** The bytes a row of codes is stored as. */
  function Stored(c: seq<int>, s: ActSpec): (b: seq<int>)
    requires s.Packed() ==> |c| % 2 == 0
  {
    if s.Packed() then Pack(c) else c
  }

  /** What a reader of the row finds. */
  function Unstored(b: seq<int>, s: ActSpec): seq<int>
    requires s.Packed() ==> forall i :: 0 <= i < |b| ==> IsByte(b[i])
  {
    if s.Packed() then Unpack(b) else b
  }

  /** Reading back a stored row gives its codes. */
  lemma StoredReadsBack(y: Vec, s: ActSpec)
    requires s.ValidFor(|y|)
    ensures var b := Stored(Codes(y, ScaleOf(y, s), Qmax(s.abits)), s);
            && (s.Packed() ==> forall i :: 0 <= i < |b| ==> IsByte(b[i]))
            && Unstored(b, s) == Codes(y, ScaleOf(y, s), Qmax(s.abits))
  {
    if s.Packed() {
      UnpackPack(Codes(y, ScaleOf(y, s), 7));
    }
  }

  // ---------- the loops ----------

  method CopyRow(x: Vec, tmp: array<real>)
    requires tmp.Length == |x|
    modifies tmp
    ensures tmp[..] == x
  {
    for k := 0 to |x|
      invariant forall m :: 0 <= m < k ==> tmp[m] == x[m]
    {
      tmp[k] := x[k];
    }
  }

  method NormRow(x: Vec, norm: Norm, tmp: array<real>, partial: array<real>)
    requires norm.ValidFor(x) && tmp.Length == |x| && partial.Length == LANES && tmp != partial
    modifies tmp, partial
    ensures tmp[..] == norm.Apply(x)
  {
    hide Gained;
    var sumsq := SumOfSquares(x, partial);
    var rstd := 1.0 / norm.root(sumsq / |x| as real + norm.eps);
    for k := 0 to |x|
      invariant forall m :: 0 <= m < k ==> tmp[m] == Gained(x[m], rstd, norm.gamma[m])
    {
      tmp[k] := Gained(x[k], rstd, norm.gamma[k]);
    }
    assert tmp[..] == Gain(x, rstd, norm.gamma);
    if norm.shift.Some? {
      AddRow(tmp, norm.shift.value);
    }
  }

  method AddRow(tmp: array<real>, d: Vec)
    requires tmp.Length == |d|
    modifies tmp
    ensures tmp[..] == Add(old(tmp[..]), d)
  {
    for k := 0 to tmp.Length
      invariant forall m :: 0 <= m < k ==> tmp[m] == old(tmp[m]) + d[m]
      invariant forall m :: k <= m < tmp.Length ==> tmp[m] == old(tmp[m])
    {
      tmp[k] := tmp[k] + d[k];
    }
  }

  /** Divides the row at `lo` by `d`. */
  method DivideRow(y: array<real>, lo: nat, d: Vec)
    requires lo + |d| <= y.Length && NoZero(d)
    modifies y
    ensures y[..] == Replace(old(y[..]), lo, Div(old(y[..])[lo..lo + |d|], d))
  {
    ghost var was := y[..];
    for k := 0 to |d|
      invariant forall m :: lo <= m < lo + k ==> y[m] == was[m] / d[m - lo]
      invariant forall m :: 0 <= m < lo || lo + k <= m < y.Length ==> y[m] == was[m]
    {
      y[lo + k] := y[lo + k] / d[k];
    }
  }

  method FindAbsMax(tmp: array<real>) returns (amax: real)
    ensures amax == AbsMax(tmp[..])
  {
    amax := 0.0;
    assert tmp[..0] == [];
    for k := 0 to tmp.Length
      invariant amax == AbsMax(tmp[..k])
    {
      assert tmp[..k + 1][..k] == tmp[..k];
      if Abs(tmp[k]) > amax {
        amax := Abs(tmp[k]);
      }
    }
    assert tmp[..tmp.Length] == tmp[..];
  }

  method StoreWide(tmp: array<real>, scale: real, qmax: int, codes: array<int>)
    requires scale > 0.0 && qmax >= 0 && codes.Length == tmp.Length
    modifies codes
    ensures codes[..] == Codes(tmp[..], scale, qmax)
  {
    for k := 0 to tmp.Length
      invariant forall m :: 0 <= m < k ==> codes[m] == Code(tmp[m], scale, qmax)
    {
      codes[k] := Code(tmp[k], scale, qmax);
    }
  }

  method StorePacked(tmp: array<real>, scale: real, qmax: int, codes: array<int>)
    requires scale > 0.0 && qmax >= 0 && tmp.Length == 2 * codes.Length
    modifies codes
    ensures codes[..] == Pack(Codes(tmp[..], scale, qmax))
  {
    for i := 0 to codes.Length
      invariant forall m :: 0 <= m < i ==>
        codes[m] == PackPair(Code(tmp[2 * m], scale, qmax), Code(tmp[2 * m + 1], scale, qmax))
    {
      codes[i] := PackPair(Code(tmp[2 * i], scale, qmax), Code(tmp[2 * i + 1], scale, qmax));
    }
  }

  /** Quantizes the row `x` into `codes`, with `tmp` and `partial` as scratch. */
  method QuantizeRow(x: Vec, ascale: Option<Vec>, norm: Option<Norm>, s: ActSpec,
                     tmp: array<real>, partial: array<real>, codes: array<int>)
    returns (scale: real)
    requires ValidRow(x, ascale, norm, s)
    requires tmp.Length == |x| && partial.Length == LANES && tmp != partial
    requires codes.Length == if s.Packed() then |x| / 2 else |x|
    modifies tmp, partial, codes
    ensures scale == ScaleOf(Prepared(x, ascale, norm, s), s)
    ensures codes[..] == Stored(Codes(Prepared(x, ascale, norm, s), scale, Qmax(s.abits)), s)
  {
    hide Rotate, AbsMax, Code, Replace, Div;
    if norm.Some? {
      NormRow(x, norm.value, tmp, partial);
    } else {
      CopyRow(x, tmp);
    }
    if ascale.Some? && s.foldBefore {
      ReplaceAll(tmp[..], Div(tmp[..], ascale.value));
      DivideRow(tmp, 0, ascale.value);
    }
    if s.rotBlock > 1 {
      ReplaceAll(tmp[..], Rotate(tmp[..], s.rotBlock, s.inv));
      RotateRow(tmp, 0, |x|, s.rotBlock, s.inv);
    }
    if ascale.Some? && !s.foldBefore {
      ReplaceAll(tmp[..], Div(tmp[..], ascale.value));
      DivideRow(tmp, 0, ascale.value);
    }
    var amax := FindAbsMax(tmp);
    scale := RowScale(amax, s.clip, Qmax(s.abits));
    if s.Packed() {
      StorePacked(tmp, scale, Qmax(s.abits), codes);
    } else {
      StoreWide(tmp, scale, Qmax(s.abits), codes);
    }
  }
}
