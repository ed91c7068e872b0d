/** A quantized layer end to end: the threads of the activation pass, then the threads of
    the GEMM, and how far the outputs are from the original layer's. */
module QuantizedLayer {
  import opened Options
  import opened Vectors
  import opened Rotation
  import opened Quantize
  import opened Integers
  import opened LaneSum
  import opened ActRow
  import opened Dequant
  import opened MixedRadix
  import opened OutLayout
  import opened QuantizedSite
  import opened Gemm

  // ---------- the activation pass ----------

  /** One row of the activation blob: the stored codes, and the scale behind them. */
  datatype Blob = Blob(codes: seq<int>, scale: real)

  /** Rows of activations and how the site quantizes them. */
  datatype Acts = Acts(K: nat, x: seq<Vec>, ascale: Option<Vec>, norm: Option<Norm>, spec: ActSpec)
  {
    predicate Valid() {
      && ValidSite(K, ascale, spec)
      && forall t :: 0 <= t < |x| ==> |x[t]| == K && ValidRow(x[t], ascale, norm, spec)
    }

    /** What row `t` is rotated and quantized from. */
    function Input(t: nat): (r: Vec)
      requires Valid() && t < |x|
      ensures |r| == K && ValidRow(r, ascale, None, spec)
    {
      Normed(x[t], norm)
    }

    /** What the pass stores for row `t`. */
    function Row(t: nat): Blob
      requires Valid() && t < |x|
    {
      var y := Transform(Input(t), ascale, spec);
      Blob(Stored(Codes(y, ScaleOf(y, spec), Qmax(spec.abits)), spec), ScaleOf(y, spec))
    }

    function Rows(): (r: seq<Blob>)
      requires Valid()
      ensures |r| == |x|
    {
      seq(|x|, t requires 0 <= t < |x| => Row(t))
    }
  }

  /** The blob after rows are stored in the given order. */
  function StoreRows(a: Acts, rows: seq<Blob>, writes: seq<nat>): (r: seq<Blob>)
    requires a.Valid() && |rows| == |a.x| && forall i :: 0 <= i < |writes| ==> writes[i] < |rows|
    ensures |r| == |rows|
  {
    if |writes| == 0 then rows
    else
      var k := |writes| - 1;
      StoreRows(a, rows, writes[..k])[writes[k] := a.Row(writes[k])]
  }

  function Range(lo: nat, hi: nat): (r: seq<nat>)
    ensures forall t :: t in r <==> lo <= t < hi
    ensures forall i :: 0 <= i < |r| ==> r[i] < hi
    decreases hi
  {
    if hi <= lo then [] else Range(lo, hi - 1) + [hi - 1]
  }

  /** The rows one thread stores, in its order. */
  function ThreadRows(T: nat, ith: nat, nth: nat): (r: seq<nat>)
    requires nth > 0
    ensures forall i :: 0 <= i < |r| ==> r[i] < T
  {
    assert Last(T, ith, nth) <= T;
    Range(First(T, ith, nth), Last(T, ith, nth))
  }

  /** The rows the first `k` of `nth` threads store. */
  function RowStores(T: nat, k: nat, nth: nat): multiset<nat>
    requires nth > 0
  {
    if k == 0 then multiset{} else RowStores(T, k - 1, nth) + multiset(ThreadRows(T, k - 1, nth))
  }

  lemma {:induction false} RowStored(T: nat, k: nat, nth: nat, t: nat)
    requires nth > 0
    ensures t in RowStores(T, k, nth) <==> t < T && Owner(T, t, nth) < k
  {
    hide First, Last, Range;
    if k > 0 {
      RowStored(T, k - 1, nth, t);
      assert t in multiset(ThreadRows(T, k - 1, nth)) <==> t in ThreadRows(T, k - 1, nth);
      if t < T {
        OwnerExactly(T, t, nth, k - 1);
      }
    }
  }

  lemma {:induction false} RowAt(a: Acts, rows: seq<Blob>, writes: seq<nat>, t: nat)
    requires a.Valid() && |rows| == |a.x| && t < |rows| && forall i :: 0 <= i < |writes| ==> writes[i] < |rows|
    ensures StoreRows(a, rows, writes)[t] == if t in writes then a.Row(t) else rows[t]
    decreases |writes|
  {
    hide Acts.Valid, Acts.Row;
    if |writes| > 0 {
      var k := |writes| - 1;
      RowAt(a, rows, writes[..k], t);
      assert writes == writes[..k] + [writes[k]];
    }
  }

  /** However the stores of the threads interleave, the blob ends up the same. */
  lemma {:induction false} AnyRowOrder(a: Acts, nth: nat, rows: seq<Blob>, writes: seq<nat>)
    requires a.Valid() && nth > 0 && |rows| == |a.x|
    requires multiset(writes) == RowStores(|rows|, nth, nth)
    ensures forall i :: 0 <= i < |writes| ==> writes[i] < |rows|
    ensures StoreRows(a, rows, writes) == a.Rows()
  {
    hide Acts.Valid, Acts.Row, StoreRows, RowStores, Owner;
    forall i | 0 <= i < |writes| ensures writes[i] < |rows| {
      assert writes[i] in multiset(writes);
      RowStored(|rows|, nth, nth, writes[i]);
    }
    forall t | 0 <= t < |rows| ensures StoreRows(a, rows, writes)[t] == a.Row(t) {
      OwnerExactly(|rows|, t, nth, 0);
      RowStored(|rows|, nth, nth, t);
      assert t in multiset(writes);
      RowAt(a, rows, writes, t);
    }
  }

  /** Quantizes and stores one row. */
  method ActRowAt(a: Acts, t: nat, tmp: array<real>, partial: array<real>, rows: array<Blob>)
    requires a.Valid() && t < |a.x| == rows.Length
    requires tmp.Length == a.K && partial.Length == LANES && tmp != partial
    modifies tmp, partial, rows
    ensures rows[..] == old(rows[..])[t := a.Row(t)]
  {
    hide Acts.Valid, Transform, ScaleOf, Codes, Stored, ValidRow;
    RowIsValid(a, t);
    var codes := new int[if a.spec.Packed() then a.K / 2 else a.K];
    var scale := QuantizeRow(a.x[t], a.ascale, a.norm, a.spec, tmp, partial, codes);
    rows[t] := Blob(codes[..], scale);
  }

  lemma EmptyRange(lo: nat, hi: nat)
    requires hi <= lo
    ensures Range(lo, hi) == []
  {
  }

  /** One more row. */
  lemma StoreNext(a: Acts, rows: seq<Blob>, lo: nat, t: nat)
    requires a.Valid() && lo <= t < |rows| == |a.x|
    ensures StoreRows(a, rows, Range(lo, t + 1)) == StoreRows(a, rows, Range(lo, t))[t := a.Row(t)]
  {
    hide Acts.Valid, Acts.Row;
    assert Range(lo, t + 1) == Range(lo, t) + [t];
    assert Range(lo, t + 1)[..|Range(lo, t)|] == Range(lo, t);
  }

  /** One thread of the activation pass. */
  method ActThread(a: Acts, ith: nat, nth: nat, rows: array<Blob>)
    requires a.Valid() && nth > 0 && rows.Length == |a.x|
    modifies rows
    ensures rows[..] == StoreRows(a, old(rows[..]), ThreadRows(rows.Length, ith, nth))
  {
    hide Acts.Valid, Acts.Row, First, PerThread, Range;
    ghost var was := rows[..];
    var t0, t1 := First(rows.Length, ith, nth), Last(rows.Length, ith, nth);
    EmptyRange(t0, t0);
    var tmp := new real[a.K];
    var partial := new real[LANES];
    var t := t0;
    while t < t1
      invariant t0 <= t && (if t0 < t1 then t <= t1 else t == t0) && t1 <= rows.Length
      invariant forall i :: 0 <= i < |Range(t0, t)| ==> Range(t0, t)[i] < |was|
      invariant rows[..] == StoreRows(a, was, Range(t0, t))
    {
      hide StoreRows;
      ActRowAt(a, t, tmp, partial, rows);
      StoreNext(a, was, t0, t);
      t := t + 1;
    }
    if t1 <= t0 {
      EmptyRange(t0, t1);
    }
  }

  lemma RowIsValid(a: Acts, t: nat)
    requires a.Valid() && t < |a.x|
    ensures |a.x[t]| == a.K && ValidRow(a.x[t], a.ascale, a.norm, a.spec)
    ensures Prepared(a.x[t], a.ascale, a.norm, a.spec) == Transform(a.Input(t), a.ascale, a.spec)
  {
    hide Transform;
  }

  // ---------- the GEMM on that blob ----------

  const ACT_TAIL := 16

  function Kpack(K: nat, bits: int): nat {
    if bits == 4 then K / 2 else K
  }

  function RowBytes(K: nat, bits: int): nat {
    Kpack(K, bits) + ACT_TAIL
  }

  /** The bits of a stored activation code. */
  function StoreBits(s: ActSpec): int {
    if s.Packed() then 4 else 8
  }

  /** The bits the GEMM takes the blob's codes to have: it sees how long a row is. */
  function SeenBits(K: nat, rowBytes: nat): int {
    if rowBytes == K + ACT_TAIL then 8 else 4
  }

  /** A layer: its activations, its original weight rows, and what follows the product. */
  datatype Layer = Layer(acts: Acts, w: seq<Vec>, wbits: int, bias: Option<Vec>, layout: Layout,
                         residual: Option<Residual>, glu: Option<real -> real>)
  {
    ghost predicate Valid() {
      && acts.Valid() && Normalised(acts.spec)
      && (wbits == 4 ==> acts.K % 2 == 0)
      && (forall n :: 0 <= n < |w| ==> |w[n]| == acts.K)
      && (bias.Some? ==> |bias.value| == |w|)
      && (residual.Some? ==>
            |residual.value.rows| == Area(|acts.x|, |w|)
            && (residual.value.gate.Some? ==> |residual.value.gate.value| == |w|))
      && Accepted(layout, |w|)
    }

    /** Weight row `n` as exported. */
    function Quantized(n: nat): (r: QuantizedSite.Row)
      requires n < |w| && ValidSite(|w[n]|, acts.ascale, acts.spec)
      ensures |r.codes| == |w[n]| && r.wscale > 0.0
    {
      QuantizeWeight(Exported(w[n], acts.ascale, acts.spec), wbits)
    }

    /** What the original layer computes for row `t` and weight row `n`. */
    function Original(t: nat, n: nat): real
      requires acts.Valid() && t < |acts.x| && n < |w| && |w[n]| == acts.K
      requires bias.Some? ==> n < |bias.value|
    {
      Dot(w[n], acts.Input(t)) + if bias.Some? then bias.value[n] else 0.0
    }

    /** How far the integer layer can be from that. */
    function Bound(t: nat, n: nat): real
      requires acts.Valid() && t < |acts.x| && n < |w| && |w[n]| == acts.K
    {
      SiteBound(Quantized(n), Transform(acts.Input(t), acts.ascale, acts.spec), acts.spec)
    }
  }

  /** What the GEMM sees: the stored weights, and the blob it is given. */
  function Seen(l: Layer, blob: seq<Blob>): (s: Site)
    requires l.wbits == 4 ==> l.acts.K % 2 == 0
    requires forall n :: 0 <= n < |l.w| ==> |l.w[n]| == l.acts.K
    requires ValidSite(l.acts.K, l.acts.ascale, l.acts.spec)
  {
    var K := l.acts.K;
    Site(K, |l.w|, |blob|, l.layout, l.wbits, SeenBits(K, RowBytes(K, StoreBits(l.acts.spec))),
         seq(|l.w|, n requires 0 <= n < |l.w| => StoredWeight(l.Quantized(n).codes, l.wbits)),
         seq(|blob|, t requires 0 <= t < |blob| => blob[t].codes),
         seq(|blob|, t requires 0 <= t < |blob| => blob[t].scale),
         seq(|l.w|, n requires 0 <= n < |l.w| => l.Quantized(n).wscale),
         l.bias, l.residual, l.glu)
  }

  function StoredWeight(codes: seq<int>, bits: int): seq<int>
    requires bits == 4 ==> |codes| % 2 == 0
  {
    if bits == 4 then Pack(codes) else codes
  }

  lemma WeightReadsBack(f: Vec, bits: int)
    requires bits == 4 ==> |f| % 2 == 0
    ensures var c := QuantizeWeight(f, bits).codes;
            ValidStoredRow(StoredWeight(c, bits), bits, |f|) && RowCodes(StoredWeight(c, bits), bits) == c
  {
    hide RowScale, AbsMax, Code;
    if bits == 4 {
      UnpackPack(QuantizeWeight(f, bits).codes);
    }
  }

  lemma ActReadsBack(y: Vec, s: ActSpec)
    requires s.ValidFor(|y|)
    ensures var c := Codes(y, ScaleOf(y, s), Qmax(s.abits));
            var bits := SeenBits(|y|, RowBytes(|y|, StoreBits(s)));
            ValidStoredRow(Stored(c, s), bits, |y|) && RowCodes(Stored(c, s), bits) == c
  {
    hide Codes, ScaleOf, Pack, Unpack;
    StoredReadsBack(y, s);
    if s.Packed() && |y| == 0 {
      assert Stored(Codes(y, ScaleOf(y, s), Qmax(s.abits)), s) == [];
    }
  }

  lemma SeenIsValid(l: Layer)
    requires l.Valid()
    ensures Seen(l, l.acts.Rows()).Valid()
  {
    hide Acts.Row, Stored, StoredWeight, QuantizeWeight, Exported, ValidStoredRow, ValidSite, ValidRow, SeenBits,
      Normalised, Transform, Accepted;
    var s := Seen(l, l.acts.Rows());
    forall n | 0 <= n < s.N ensures ValidStoredRow(s.weights[n], s.wbits, s.K) {
      SeenWeight(l, n);
    }
    forall t | 0 <= t < s.T ensures ValidStoredRow(s.acts[t], s.abits, s.K) {
      SeenRow(l, t);
    }
    SeenWidth(l);
    assert ValidStored(s.weights, s.wbits, s.K) && ValidStored(s.acts, s.abits, s.K);
  }

  lemma SeenWidth(l: Layer)
    requires l.Valid()
    ensures Seen(l, l.acts.Rows()).abits == 4 ==> l.acts.K % 2 == 0
  {
  }

  lemma SeenWeight(l: Layer, n: nat)
    requires l.Valid() && n < |l.w|
    ensures var s := Seen(l, l.acts.Rows());
            && ValidStoredRow(s.weights[n], s.wbits, s.K)
            && RowCodes(s.weights[n], s.wbits) == l.Quantized(n).codes
            && s.ws[n] == l.Quantized(n).wscale
  {
    hide Exported, QuantizeWeight, ValidStoredRow, RowCodes, StoredWeight, Normalised, Accepted, ValidRow;
    WeightReadsBack(Exported(l.w[n], l.acts.ascale, l.acts.spec), l.wbits);
  }

  lemma SeenRow(l: Layer, t: nat)
    requires l.Valid() && t < |l.acts.x|
    ensures var s := Seen(l, l.acts.Rows());
            var y := Transform(l.acts.Input(t), l.acts.ascale, l.acts.spec);
            && ValidStoredRow(s.acts[t], s.abits, s.K)
            && RowCodes(s.acts[t], s.abits) == Codes(y, ScaleOf(y, l.acts.spec), Qmax(l.acts.spec.abits))
            && s.xs[t] == ScaleOf(y, l.acts.spec)
  {
    hide Stored, ValidStoredRow, RowCodes, Transform, Codes, ScaleOf, StoredWeight, Normalised, Accepted, SeenBits;
    var y := Transform(l.acts.Input(t), l.acts.ascale, l.acts.spec);
    ActReadsBack(y, l.acts.spec);
  }

  /** On the blob the pass stores, each product is within the bound of the original. */
  lemma LinearNear(l: Layer, t: nat, n: nat)
    requires l.Valid() && t < |l.acts.x| && n < |l.w|
    requires Seen(l, l.acts.Rows()).Valid()
    ensures Abs(Seen(l, l.acts.Rows()).Linear(t, n) - l.Original(t, n)) <= l.Bound(t, n)
  {
    hide ValidStoredRow, RowCodes, Transform, Codes, ScaleOf, StoredWeight, Normalised, Accepted, SeenBits,
      Exported, QuantizeWeight, SiteBound, NativeOutput, Dot, ValidSite, ValidStored;
    var s, x := Seen(l, l.acts.Rows()), l.acts.Input(t);
    var bias := if l.bias.Some? then l.bias.value[n] else 0.0;
    SeenWeight(l, n);
    SeenRow(l, t);
    LinearIsNative(s, t, n, l.acts.ascale, l.acts.spec, x);
    SiteWithinBound(l.w[n], l.wbits, bias, l.acts.ascale, l.acts.spec, x);
  }

  // ---------- both passes ----------

  /** `blob` is what some interleaving of `nth` threads of the activation pass leaves. */
  ghost predicate ActPass(a: Acts, nth: nat, blob: seq<Blob>) {
    a.Valid() && nth > 0 && |blob| == |a.x| && exists rows, order :: RowsInterleaved(a, nth, rows, order, blob)
  }

  ghost predicate RowsInterleaved(a: Acts, nth: nat, rows: seq<Blob>, order: seq<nat>, blob: seq<Blob>)
    requires a.Valid() && nth > 0
  {
    && |rows| == |a.x| && (forall i :: 0 <= i < |order| ==> order[i] < |rows|)
    && multiset(order) == RowStores(|rows|, nth, nth)
    && blob == StoreRows(a, rows, order)
  }

  /** `out` is what some interleaving of `nth` threads of the GEMM leaves. */
  ghost predicate GemmPass(s: Site, nth: nat, out: Vec) {
    s.Valid() && nth > 0 && exists y, writes :: Interleaved(s, nth, y, writes, out)
  }

  ghost predicate Interleaved(s: Site, nth: nat, y: Vec, writes: seq<Cell>, out: Vec)
    requires s.Valid() && nth > 0
  {
    && |y| == Area(s.T, s.Cols()) && Cells(s, writes)
    && multiset(writes) == ThreadStores(s, nth, nth)
    && out == Apply(s, y, writes)
  }

  /** The GEMM can read whatever the activation pass leaves. */
  lemma PassesFit(l: Layer, nth: nat, blob: seq<Blob>)
    requires l.Valid() && ActPass(l.acts, nth, blob)
    ensures blob == l.acts.Rows() && Seen(l, blob).Valid()
  {
    hide Acts.Valid, Acts.Row, StoreRows, RowStores, Layer.Valid, Site.Valid;
    var rows, order :| RowsInterleaved(l.acts, nth, rows, order, blob);
    AnyRowOrder(l.acts, nth, rows, order);
    SeenIsValid(l);
  }

  lemma OutAt(s: Site, nth: nat, out: Vec, t: nat, n: nat)
    requires GemmPass(s, nth, out) && t < s.T && n < s.Cols()
    ensures Accepted(s.Out(), s.Cols())
    ensures var x := OutIndex(s.Out(), s.Cols(), s.T, t, n); 0 <= x < |out| && out[x] == s.Value(t, n)
  {
    hide OutIndex, CellAt, Apply, ThreadStores, Area, Site.Value;
    var y, writes :| Interleaved(s, nth, y, writes, out);
    AnyInterleaving(s, nth, y, writes);
    CellAtIndex(s.Out(), s.Cols(), s.T, t, n);
  }

  /** The factor by which a gate scales an error. */
  function Gate(r: Option<Residual>, n: nat): real
    requires r.Some? && r.value.gate.Some? ==> n < |r.value.gate.value|
  {
    if r.Some? && r.value.gate.Some? then Abs(r.value.gate.value[n]) else 1.0
  }

  lemma EpilogueNear(s: Site, t: nat, n: nat, v: real, e: real, b: real)
    requires s.Valid() && t < s.T && n < s.N && Abs(v - e) <= b
    ensures Abs(s.Epilogue(t, n, v) - s.Epilogue(t, n, e)) <= Times(Gate(s.residual, n), b)
  {
    hide Join, Area, ValidStored, Accepted;
    if s.residual.Some? && s.residual.value.gate.Some? {
      var g := s.residual.value.gate.value[n];
      assert v * g - e * g == g * (v - e);
      AbsTimes(g, v - e);
      Larger(Abs(g), Abs(v - e), b);
    }
  }

  /** End to end: all threads of the activation pass, then all threads of the GEMM, each
      in any interleaving, leave at every output's place the layer's value, and every
      product is within the bound of the original layer's. */
  lemma LayerNear(l: Layer, nthActs: nat, blob: seq<Blob>, nthGemm: nat, out: Vec, t: nat, n: nat)
    requires l.Valid() && ActPass(l.acts, nthActs, blob)
    requires GemmPass(Seen(l, blob), nthGemm, out)
    requires t < |l.acts.x| && n < Seen(l, blob).Cols()
    ensures var s := Seen(l, blob);
            var x := OutIndex(s.Out(), s.Cols(), s.T, t, n);
            && 0 <= x < |out|
            && (l.glu.Some? ==> out[x] == l.glu.value(s.Linear(t, n)) * s.Linear(t, n + s.Cols()))
            && (l.glu.None? ==>
                  Abs(out[x] - s.Epilogue(t, n, l.Original(t, n))) <= Times(Gate(l.residual, n), l.Bound(t, n)))
            && forall m :: 0 <= m < |l.w| ==> Abs(s.Linear(t, m) - l.Original(t, m)) <= l.Bound(t, m)
  {
    hide OutIndex, Site.Linear, Layer.Original, Layer.Bound, ActPass, GemmPass, Site.Epilogue;
    var s := Seen(l, blob);
    PassesFit(l, nthActs, blob);
    OutAt(s, nthGemm, out, t, n);
    forall m | 0 <= m < |l.w| ensures Abs(s.Linear(t, m) - l.Original(t, m)) <= l.Bound(t, m) {
      LinearNear(l, t, m);
    }
    if l.glu.None? {
      EpilogueNear(s, t, n, s.Linear(t, n), l.Original(t, n), l.Bound(t, n));
    }
  }

  // ---------- through the gate's activation ----------

  /** `f` magnifies no distance by more than `c`. */
  ghost predicate Lipschitz(f: real -> real, c: real) {
    c >= 0.0 && forall a, b :: Abs(f(a) - f(b)) <= Times(c, Abs(a - b))
  }

  /** How far the product of an activated gate and its partner can be off, for a gate
      within `p` of `g` and a partner within `q` of `u`. */
  function GluBound(f: real -> real, c: real, g: real, u: real, p: real, q: real): real {
    Times(Times(c, p), Abs(u) + q) + Times(Abs(f(g)), q)
  }

  lemma ProductNear(a: real, b: real, v: real, u: real, p: real, q: real)
    requires Abs(a - b) <= p && Abs(v - u) <= q
    ensures Abs(Times(a, v) - Times(b, u)) <= Times(p, Abs(u) + q) + Times(Abs(b), q)
  {
    assert Times(a, v) - Times(b, u) == Times(a - b, v) + Times(b, v - u);
    TimesWithin(a - b, v, p, Abs(u) + q);
    TimesWithin(b, v - u, Abs(b), q);
    hide Times;
  }

  lemma TimesWithin(a: real, v: real, p: real, r: real)
    requires Abs(a) <= p && Abs(v) <= r
    ensures Abs(Times(a, v)) <= Times(p, r)
  {
    AbsTimes(a, v);
    Larger(Abs(v), Abs(a), p);
    Larger(p, Abs(v), r);
  }

  lemma GluNear(f: real -> real, c: real, g: real, u: real, gate: real, up: real, p: real, q: real)
    requires Lipschitz(f, c) && Abs(gate - g) <= p && Abs(up - u) <= q
    ensures Abs(Times(f(gate), up) - Times(f(g), u)) <= GluBound(f, c, g, u, p, q)
  {
    Larger(c, Abs(gate - g), p);
    assert Abs(f(gate) - f(g)) <= Times(c, Abs(gate - g));
    ProductNear(f(gate), f(g), up, u, Times(c, p), q);
  }

  /** With GEGLU too the outputs are within an explicit bound of the original layer's, for
      any Lipschitz activation. */
  lemma GluLayerNear(l: Layer, nthActs: nat, blob: seq<Blob>, nthGemm: nat, out: Vec, t: nat, n: nat, c: real)
    requires l.Valid() && l.glu.Some? && Lipschitz(l.glu.value, c) && ActPass(l.acts, nthActs, blob)
    requires GemmPass(Seen(l, blob), nthGemm, out)
    requires t < |l.acts.x| && n < |l.w| / 2
    ensures var s, f, h := Seen(l, blob), l.glu.value, |l.w| / 2;
            var x := OutIndex(s.Out(), s.Cols(), s.T, t, n);
            && 0 <= x < |out|
            && Abs(out[x] - Times(f(l.Original(t, n)), l.Original(t, n + h)))
               <= GluBound(f, c, l.Original(t, n), l.Original(t, n + h), l.Bound(t, n), l.Bound(t, n + h))
  {
    hide OutIndex, Site.Linear, Layer.Original, Layer.Bound, ActPass, GemmPass, Site.Epilogue, GluBound, Lipschitz;
    var s, h := Seen(l, blob), |l.w| / 2;
    PassesFit(l, nthActs, blob);
    LayerNear(l, nthActs, blob, nthGemm, out, t, n);
    assert Abs(s.Linear(t, n) - l.Original(t, n)) <= l.Bound(t, n);
    assert Abs(s.Linear(t, n + h) - l.Original(t, n + h)) <= l.Bound(t, n + h);
    GluNear(l.glu.value, c, l.Original(t, n), l.Original(t, n + h), s.Linear(t, n), s.Linear(t, n + h),
            l.Bound(t, n), l.Bound(t, n + h));
  }
}
