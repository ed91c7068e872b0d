/** Sites fused into one: rows, scales and biases end to end behind one transform. */
module FusedSite {
  import opened Options
  import opened Vectors
  import opened Quantize
  import opened Integers
  import opened ActRow
  import opened Dequant
  import opened RowMajor
  import opened OutLayout
  import opened Gemm
  import opened Rotation
  import opened Hadamard

  /** A site as the file has it: whether its weight is integer codes, its rows of codes,
      and the vectors beside them. */
  datatype FileSite = FileSite(codes: bool, K: nat, rows: seq<seq<int>>, wscale: Option<Vec>, bias: Option<Vec>,
                               ascale: Option<Vec>)

  datatype Linear = Linear(K: nat, rows: seq<seq<int>>, wscale: Vec, bias: Option<Vec>, ascale: Option<Vec>)

  /** What declaring a group comes to: left to the float path, refused, rebuilt as float
      weights, or one integer site. */
  datatype Declared = NotSites | Refused | Rebuilt | Fused(site: Linear, spec: ActSpec)

  /** The scheme a module's sites share; `inv` is what the machine takes for one over the
      square root of a block. */
  datatype Scheme = Scheme(wbits: int, abits: int, rotBlock: int, foldBefore: bool, clip: real, wide4: bool,
                           inv: nat -> real)

  // ---------- which groups fuse ----------

  predicate AllInteger(sites: seq<FileSite>) {
    forall i :: 0 <= i < |sites| ==> sites[i].codes
  }

  /** Rows of one length, and the vectors that are wanted. */
  predicate Matching(sites: seq<FileSite>, hasBias: bool)
    requires |sites| > 0
  {
    forall i :: 0 <= i < |sites| ==> Matches(sites[i], sites[0], hasBias)
  }

  /** A tensor of one row counts as one-dimensional. */
  predicate TwoDims(rows: nat) {
    rows > 1
  }

  /** A weight of one row matches no two-dimensional one, and a fused weight of such rows
      is refused for its dimensions. */
  predicate Matches(s: FileSite, first: FileSite, hasBias: bool) {
    TwoDims(|s.rows|) && s.K == first.K && s.wscale.Some? && (hasBias ==> s.bias.Some?)
  }

  /** One activation vector, or none; an empty one cannot be compared. */
  predicate Agreeing(sites: seq<FileSite>)
    requires |sites| > 0
  {
    forall i :: 1 <= i < |sites| ==> SameVector(sites[i].ascale, sites[0].ascale)
  }

  predicate SameVector(a: Option<Vec>, b: Option<Vec>) {
    a == b && (b.Some? ==> |b.value| > 0)
  }

  predicate Fusable(sites: seq<FileSite>, hasBias: bool)
    requires |sites| > 0
  {
    AllInteger(sites) && Matching(sites, hasBias) && Agreeing(sites)
  }

  function ConcatRows(sites: seq<FileSite>): seq<seq<int>> {
    if |sites| == 0 then [] else sites[0].rows + ConcatRows(sites[1..])
  }

  function Entries(v: Option<Vec>): Vec {
    if v.Some? then v.value else []
  }

  function ConcatScales(sites: seq<FileSite>): Vec {
    if |sites| == 0 then [] else Entries(sites[0].wscale) + ConcatScales(sites[1..])
  }

  function ConcatBias(sites: seq<FileSite>): Vec {
    if |sites| == 0 then [] else Entries(sites[0].bias) + ConcatBias(sites[1..])
  }

  /** The fused site. */
  function Fuse(sites: seq<FileSite>, hasBias: bool): Linear
    requires |sites| > 0
  {
    Linear(sites[0].K, ConcatRows(sites), ConcatScales(sites),
           if hasBias then Some(ConcatBias(sites)) else None, sites[0].ascale)
  }

  // ---------- what fusing preserves ----------

  /** A site declared on its own. */
  function Alone(s: FileSite, hasBias: bool): Linear {
    Linear(s.K, s.rows, Entries(s.wscale), if hasBias then Some(Entries(s.bias)) else None, s.ascale)
  }

  predicate ValidLinear(l: Linear, s: ActSpec) {
    && Rows(l.rows, l.K) && |l.wscale| == |l.rows| && (l.bias.Some? ==> |l.bias.value| == |l.rows|)
    && ValidSite(l.K, l.ascale, s)
  }

  function BiasOf(l: Linear, n: nat): real
    requires l.bias.Some? ==> n < |l.bias.value|
  {
    if l.bias.Some? then l.bias.value[n] else 0.0
  }

  /** One output: codes times codes, scaled, plus the bias. */
  function RowOutput(l: Linear, s: ActSpec, y: Vec, n: nat): real
    requires ValidLinear(l, s) && |y| == l.K && n < |l.rows|
  {
    CodesOutput(l.rows[n], l.wscale[n], BiasOf(l, n), y, s)
  }

  function RowOutputs(l: Linear, s: ActSpec, y: Vec): (r: Vec)
    requires ValidLinear(l, s) && |y| == l.K
    ensures |r| == |l.rows|
  {
    seq(|l.rows|, n requires 0 <= n < |l.rows| => RowOutput(l, s, y, n))
  }

  /** A site's outputs for an activation row. */
  function Outputs(l: Linear, norm: Option<Norm>, s: ActSpec, x: Vec): (r: Vec)
    requires ValidLinear(l, s) && |x| == l.K && ValidRow(x, l.ascale, norm, s)
    ensures |r| == |l.rows|
  {
    RowOutputs(l, s, Prepared(x, l.ascale, norm, s))
  }

  /** Each site's outputs, end to end. */
  function SeparateOutputs(sites: seq<FileSite>, hasBias: bool, norm: Option<Norm>, s: ActSpec, x: Vec): Vec
    requires forall i :: 0 <= i < |sites| ==>
               ValidLinear(Alone(sites[i], hasBias), s) && |x| == sites[i].K && ValidRow(x, sites[i].ascale, norm, s)
  {
    if |sites| == 0 then []
    else Outputs(Alone(sites[0], hasBias), norm, s, x) + SeparateOutputs(sites[1..], hasBias, norm, s, x)
  }

  /** Two sites behind one transformed row. */
  lemma JoinedOutputs(a: Linear, b: Linear, c: Linear, s: ActSpec, y: Vec)
    requires ValidLinear(a, s) && ValidLinear(b, s) && |y| == a.K && a.K == b.K == c.K
    requires a.bias.Some? <==> b.bias.Some?
    requires c.rows == a.rows + b.rows && c.wscale == a.wscale + b.wscale && c.ascale == a.ascale
    requires c.bias == if a.bias.Some? then Some(a.bias.value + b.bias.value) else None
    ensures ValidLinear(c, s) && RowOutputs(c, s, y) == RowOutputs(a, s, y) + RowOutputs(b, s, y)
  {
    hide CodesOutput, ValidSite;
    forall n | 0 <= n < |c.rows|
      ensures RowOutput(c, s, y, n) == (RowOutputs(a, s, y) + RowOutputs(b, s, y))[n]
    {
      assert c.rows[n] == if n < |a.rows| then a.rows[n] else b.rows[n - |a.rows|];
    }
  }

  /** The sites of a group, each valid on its own, behind one row. */
  lemma {:induction false} FusedRowOutputs(sites: seq<FileSite>, hasBias: bool, norm: Option<Norm>, s: ActSpec, x: Vec)
    requires |sites| > 0 && forall i :: 0 <= i < |sites| ==>
               && ValidLinear(Alone(sites[i], hasBias), s) && |x| == sites[i].K
               && ValidRow(x, sites[i].ascale, norm, s) && sites[i].ascale == sites[0].ascale
    ensures ValidLinear(Fuse(sites, hasBias), s)
    ensures Outputs(Fuse(sites, hasBias), norm, s, x) == SeparateOutputs(sites, hasBias, norm, s, x)
    decreases |sites|
  {
    hide Prepared, RowOutputs;
    var a := Alone(sites[0], hasBias);
    if |sites| == 1 {
      OneSite(sites, hasBias);
      assert sites[1..] == [];
    } else {
      var rest := sites[1..];
      FusedRowOutputs(rest, hasBias, norm, s, x);
      FuseStep(sites, hasBias);
      hide Fuse;
      JoinedOutputs(a, Fuse(rest, hasBias), Fuse(sites, hasBias), s, Prepared(x, a.ascale, norm, s));
    }
  }

  lemma OneSite(sites: seq<FileSite>, hasBias: bool)
    requires |sites| == 1
    ensures Fuse(sites, hasBias) == Alone(sites[0], hasBias)
  {
    assert sites[1..] == [];
    assert ConcatRows(sites) == sites[0].rows;
    assert ConcatScales(sites) == Entries(sites[0].wscale) && ConcatBias(sites) == Entries(sites[0].bias);
  }

  lemma FuseStep(sites: seq<FileSite>, hasBias: bool)
    requires |sites| > 1
    ensures var a, b, c := Alone(sites[0], hasBias), Fuse(sites[1..], hasBias), Fuse(sites, hasBias);
            && c.rows == a.rows + b.rows && c.wscale == a.wscale + b.wscale && c.K == a.K && c.ascale == a.ascale
            && b.K == sites[1].K && b.ascale == sites[1].ascale
            && c.bias == (if a.bias.Some? then Some(a.bias.value + b.bias.value) else None)
            && (a.bias.Some? <==> b.bias.Some?)
  {
  }

  /** Fusing preserves meaning: for every activation row, a group that fuses outputs
      what its sites output separately, end to end. */
  lemma FusingPreserves(sites: seq<FileSite>, hasBias: bool, norm: Option<Norm>, s: ActSpec, x: Vec)
    requires |sites| > 0 && Fusable(sites, hasBias)
    requires forall i :: 0 <= i < |sites| ==>
               ValidLinear(Alone(sites[i], hasBias), s) && |x| == sites[i].K && ValidRow(x, sites[i].ascale, norm, s)
    ensures ValidLinear(Fuse(sites, hasBias), s)
    ensures Outputs(Fuse(sites, hasBias), norm, s, x) == SeparateOutputs(sites, hasBias, norm, s, x)
  {
    hide ValidLinear, ValidRow, Fuse, SeparateOutputs, Outputs, Alone;
    FusedRowOutputs(sites, hasBias, norm, s, x);
  }

  /** A site's outputs are the integer path's, the ones bounded against the float path. */
  lemma OutputsNative(l: Linear, norm: Option<Norm>, s: ActSpec, x: Vec, n: nat)
    requires ValidLinear(l, s) && |x| == l.K && ValidRow(x, l.ascale, norm, s) && n < |l.rows|
    ensures ValidRow(Normed(x, norm), l.ascale, None, s)
    ensures Outputs(l, norm, s, x)[n]
            == NativeOutput(l.rows[n], l.wscale[n], BiasOf(l, n), l.ascale, s, Normed(x, norm))
  {
    hide CodesOutput, Transform, Norm.Apply;
  }

  /** They are what the GEMM computes for the site on rows the activation pass
      quantized. */
  lemma OutputsOfGemm(l: Linear, norm: Option<Norm>, s: ActSpec, x: Vec, g: Site, t: nat, n: nat)
    requires ValidLinear(l, s) && |x| == l.K && ValidRow(x, l.ascale, norm, s) && n < |l.rows|
    requires g.Valid() && g.K == l.K && t < g.T && n < g.N
    requires g.Weights(n) == l.rows[n] && g.ws[n] == l.wscale[n] && g.Bias(n) == BiasOf(l, n)
    requires var y := Prepared(x, l.ascale, norm, s);
             g.xs[t] == ScaleOf(y, s) && g.Acts(t) == Codes(y, ScaleOf(y, s), Qmax(s.abits))
    ensures g.Linear(t, n) == Outputs(l, norm, s, x)[n]
  {
    hide Rescaled, IntDot, Codes, ScaleOf, Transform, Norm.Apply, RowCodes, ValidStored, Accepted, ValidSite, Rows;
  }

  // ---------- rebuilt as floats ----------

  /** The rows rebuilt from one site, with that site's vector. */
  function RebuiltSite(l: Linear, s: ActSpec): (r: seq<Vec>)
    requires ValidLinear(l, s)
    ensures |r| == |l.rows| && Rows(r, l.K)
  {
    RebuiltRows(l.rows, l.wscale, l.ascale, s, l.K)
  }

  /** The rows rebuilt from a group, end to end. */
  function RebuiltGroup(sites: seq<FileSite>, s: ActSpec): seq<Vec>
    requires forall i :: 0 <= i < |sites| ==> ValidLinear(Alone(sites[i], false), s)
  {
    if |sites| == 0 then [] else RebuiltSite(Alone(sites[0], false), s) + RebuiltGroup(sites[1..], s)
  }

  /** Rows of the sites before the `i`th. */
  function RowsBefore(sites: seq<FileSite>, i: nat): nat
    requires i <= |sites|
  {
    if i == 0 then 0 else |sites[0].rows| + RowsBefore(sites[1..], i - 1)
  }

  /** Row `n` of site `i`, in the rebuilt group, meets an activation in that site's own
      transform; the sites need not agree on theirs. */
  lemma {:induction false} RebuildingPreserves(sites: seq<FileSite>, s: ActSpec, x: Vec, i: nat, n: nat)
    requires forall j :: 0 <= j < |sites| ==> ValidLinear(Alone(sites[j], false), s) && |x| == sites[j].K
    requires i < |sites| && n < |sites[i].rows|
    ensures RowsBefore(sites, i) + n < |RebuiltGroup(sites, s)|
    ensures |sites[i].rows| == |Entries(sites[i].wscale)| && |sites[i].rows[n]| == |x|
    ensures var w := RebuiltGroup(sites, s)[RowsBefore(sites, i) + n];
            |w| == |x| && ValidSite(|x|, sites[i].ascale, s)
            && Dot(w, x) == Dot(RowWeights(sites[i].rows[n], Entries(sites[i].wscale)[n]),
                                Transform(x, sites[i].ascale, s))
    decreases i
  {
    hide Dot, DequantRow, Transform, RowWeights, ValidSite;
    var l := Alone(sites[i], false);
    assert ValidLinear(l, s) && Rows(l.rows, l.K);
    if i == 0 {
      assert RebuiltGroup(sites, s)[n] == RebuiltSite(l, s)[n];
      DequantPreserves(l.rows[n], l.wscale[n], l.ascale, s, x);
    } else {
      RebuildingPreserves(sites[1..], s, x, i - 1, n);
    }
  }

  // ---------- declaring ----------

  predicate KnownWidth(bits: int) {
    bits == 8 || bits == 4
  }

  /** The largest rotation block the kernels take. */
  const MAX_BLOCK := 64

  /** The shapes and widths an integer site needs; `gamma` is the length of a fused norm's
      gain. */
  predicate SpecsFit(l: Linear, m: Scheme, gamma: Option<nat>) {
    && KnownWidth(m.wbits) && KnownWidth(m.abits) && TwoDims(|l.rows|)
    && l.K % 64 == 0 && |l.rows| % 64 == 0
    && |l.wscale| == |l.rows|
    && (l.ascale.Some? ==> |l.ascale.value| == l.K)
    && (gamma.Some? ==> gamma.value == l.K)
    && NarrowedBlock(l.K, m.rotBlock) <= MAX_BLOCK
  }

  function SpecFor(K: nat, m: Scheme): ActSpec {
    var block := NarrowedBlock(K, m.rotBlock);
    ActSpec(m.abits, block, m.inv(block), m.foldBefore, if m.abits == 4 then m.clip else 1.0,
            m.wide4 && m.abits == 4)
  }

  /** A site that can be rebuilt as a float weight. */
  predicate Rebuildable(s: FileSite, m: Scheme) {
    && KnownWidth(m.wbits) && TwoDims(|s.rows|) && s.K % 64 == 0
    && s.wscale.Some? && |s.wscale.value| == |s.rows|
    && (s.ascale.Some? ==> |s.ascale.value| == s.K)
  }

  /** The checks are enough: with a power of two as nominal block, and a bias for every row,
      a site that passes them is one the outputs are defined and proved for. */
  lemma FitsIsValid(l: Linear, m: Scheme, gamma: Option<nat>)
    requires SpecsFit(l, m, gamma) && m.rotBlock >= 1 && IsPow2(m.rotBlock)
    requires Rows(l.rows, l.K) && (l.bias.Some? ==> |l.bias.value| == |l.rows|)
    requires l.ascale.Some? ==> NoZero(l.ascale.value)
    ensures ValidLinear(l, SpecFor(l.K, m))
  {
    NarrowedFromPow2(l.K, m.rotBlock);
    MultipleIffDivides(l.K, NarrowedBlock(l.K, m.rotBlock));
  }

  method FillSpecs(l: Linear, m: Scheme, gamma: Option<nat>) returns (spec: Option<ActSpec>)
    ensures spec == if SpecsFit(l, m, gamma) then Some(SpecFor(l.K, m)) else None
  {
    if !KnownWidth(m.wbits) || !KnownWidth(m.abits) {
      return None;
    }
    if !TwoDims(|l.rows|) || l.K % 64 != 0 || |l.rows| % 64 != 0 {
      return None;
    }
    if |l.wscale| != |l.rows| || (l.ascale.Some? && |l.ascale.value| != l.K) {
      return None;
    }
    if gamma.Some? && gamma.value != l.K {
      return None;
    }
    var block := RotBlockFor(l.K, m.rotBlock);
    if block > MAX_BLOCK {
      return None;
    }
    spec := Some(ActSpec(m.abits, block, m.inv(block), m.foldBefore, if m.abits == 4 then m.clip else 1.0,
                         m.wide4 && m.abits == 4));
  }

  /** The activation vectors of the sites, compared with the first one's. */
  method CompareVectors(sites: seq<FileSite>) returns (agree: bool)
    requires |sites| > 0
    ensures agree == Agreeing(sites)
  {
    var a0 := sites[0].ascale;
    for i := 1 to |sites|
      invariant forall j :: 1 <= j < i ==> SameVector(sites[j].ascale, a0)
    {
      var ai := sites[i].ascale;
      if ai.Some? != a0.Some? {
        return false;
      }
      if a0.Some? {
        if |a0.value| == 0 || ai.value != a0.value {
          return false;
        }
      }
    }
    agree := true;
  }

  /** Declares a group of sites. */
  method DeclareFused(sites: seq<FileSite>, hasBias: bool, dequant: bool, m: Scheme, gamma: Option<nat>)
    returns (r: Declared)
    ensures r == NotSites <==> |sites| == 0 || !sites[0].codes
    ensures r == Rebuilt <==>
            |sites| > 0 && AllInteger(sites) && dequant && forall i :: 0 <= i < |sites| ==> Rebuildable(sites[i], m)
    ensures r.Fused? <==>
            |sites| > 0 && !dequant && Fusable(sites, hasBias) && SpecsFit(Fuse(sites, hasBias), m, gamma)
    ensures r.Fused? ==> r.site == Fuse(sites, hasBias) && r.spec == SpecFor(sites[0].K, m)
  {
    hide Fuse, SpecsFit, SpecFor, Agreeing, Matches, Rebuildable;
    if |sites| == 0 {
      return NotSites;
    }
    for i := 0 to |sites|
      invariant forall j :: 0 <= j < i ==> sites[j].codes
    {
      if !sites[i].codes {
        return if i > 0 then Refused else NotSites;
      }
    }
    if dequant {
      for i := 0 to |sites|
        invariant forall j :: 0 <= j < i ==> Rebuildable(sites[j], m)
      {
        if !Rebuildable(sites[i], m) {
          return Refused;
        }
      }
      return Rebuilt;
    }
    for i := 0 to |sites|
      invariant forall j :: 0 <= j < i ==> Matches(sites[j], sites[0], hasBias)
    {
      if !Matches(sites[i], sites[0], hasBias) {
        return Refused;
      }
    }
    var agree := CompareVectors(sites);
    if !agree {
      return Refused;
    }
    var fused := Fuse(sites, hasBias);
    FusedLength(sites, hasBias);
    var spec := FillSpecs(fused, m, gamma);
    r := if spec.Some? then Fused(fused, spec.value) else Refused;
  }

  lemma FusedLength(sites: seq<FileSite>, hasBias: bool)
    requires |sites| > 0
    ensures Fuse(sites, hasBias).K == sites[0].K
  {
  }
}
