/** The integer GEMM: threads that each take a range of columns and store outputs where
    the layout puts them. */
module Gemm {
  import opened Options
  import opened Vectors
  import opened Quantize
  import opened Integers
  import opened ActRow
  import opened Dequant
  import opened MixedRadix
  import opened OutLayout

  /** The residual added to the output, and the gate the output is multiplied by before
      that. */
  datatype Residual = Residual(rows: Vec, gate: Option<Vec>)

  /** A site's stored weight rows and a batch of stored activation rows. */
  datatype Site = Site(K: nat, N: nat, T: nat, layout: Layout, wbits: int, abits: int,
                       weights: seq<seq<int>>, acts: seq<seq<int>>, xs: Vec, ws: Vec,
                       bias: Option<Vec>, residual: Option<Residual>, glu: Option<real -> real>)
  {
    /** The columns of the output: with GEGLU the weight rows are gates, then as many
        others. */
    function Cols(): nat {
      if glu.Some? then N / 2 else N
    }

    /** The head layout and the residual are for the plain output. */
    function Out(): Layout {
      if glu.Some? then Plain else layout
    }

    ghost predicate Valid(): (r: bool)
      ensures r ==> Accepted(Out(), Cols())
    {
      && |weights| == N && ValidStored(weights, wbits, K)
      && |acts| == T && ValidStored(acts, abits, K)
      && |xs| == T && |ws| == N && (bias.Some? ==> |bias.value| == N)
      && (residual.Some? ==>
            |residual.value.rows| == Area(T, N)
            && (residual.value.gate.Some? ==> |residual.value.gate.value| == N))
      && Accepted(layout, N)
    }

    ghost function Weights(n: nat): (w: seq<int>)
      requires Valid() && n < N
      ensures |w| == K
    {
      assert ValidStoredRow(weights[n], wbits, K);
      RowCodes(weights[n], wbits)
    }

    ghost function Acts(t: nat): (x: seq<int>)
      requires Valid() && t < T
      ensures |x| == K
    {
      assert ValidStoredRow(acts[t], abits, K);
      RowCodes(acts[t], abits)
    }

    function Bias(n: nat): real
      requires bias.Some? ==> n < |bias.value|
    {
      if bias.Some? then bias.value[n] else 0.0
    }

    /** The linear output with the residual epilogue. */
    function Epilogue(t: nat, n: nat, v: real): real
      requires t < T && n < N && |xs| == T && |ws| == N
      requires residual.Some? ==>
                 |residual.value.rows| == Area(T, N)
                 && (residual.value.gate.Some? ==> |residual.value.gate.value| == N)
    {
      if residual.None? then v
      else
        JoinBelow(t, n, N, T);
        var r := residual.value.rows[Join(t, n, N)];
        if residual.value.gate.Some? then r + v * residual.value.gate.value[n] else v + r
    }

    /** What the integer path computes for row `t` and weight row `n`. */
    ghost function Linear(t: nat, n: nat): real
      requires Valid() && t < T && n < N
    {
      Rescaled(IntDot(Weights(n), Acts(t)), xs[t], ws[n], Bias(n))
    }

    /** The output of row `t`, column `n`. */
    ghost function Value(t: nat, n: nat): real
      requires Valid() && t < T && n < Cols()
    {
      if glu.Some? then Times(glu.value(Linear(t, n)), Linear(t, n + Cols())) else Epilogue(t, n, Linear(t, n))
    }

    /** The row a gate's row multiplies. */
    ghost function Partner(n: nat): seq<int>
      requires Valid() && n < Cols()
    {
      if glu.Some? then Weights(n + Cols()) else []
    }
  }

  // ---------- column ranges ----------

  function PerThread(N: nat, nth: nat): nat
    requires nth > 0
  {
    (N + nth - 1) / nth
  }

  function First(N: nat, ith: nat, nth: nat): nat
    requires nth > 0
  {
    Area(ith, PerThread(N, nth))
  }

  function Last(N: nat, ith: nat, nth: nat): nat
    requires nth > 0
  {
    var end := First(N, ith, nth) + PerThread(N, nth);
    if end < N then end else N
  }

  /** The thread that takes a column. */
  function Owner(N: nat, n: nat, nth: nat): nat
    requires nth > 0 && n < N
  {
    PerPositive(N, nth);
    n / PerThread(N, nth)
  }

  lemma PerPositive(N: nat, nth: nat)
    requires nth > 0 && N > 0
    ensures PerThread(N, nth) > 0 && Area(nth, PerThread(N, nth)) >= N
  {
    var x := N + nth - 1;
    assert x == nth * (x / nth) + x % nth;
    AreaGrows(0, x / nth, nth);
  }

  /** Every column lies in the range of exactly one of the threads. */
  lemma OwnerExactly(N: nat, n: nat, nth: nat, ith: nat)
    requires nth > 0 && n < N
    ensures Owner(N, n, nth) < nth
    ensures First(N, ith, nth) <= n < Last(N, ith, nth) <==> ith == Owner(N, n, nth)
  {
    PerPositive(N, nth);
    var per := PerThread(N, nth);
    hide PerThread;
    assert n == n / per * per + n % per;
    AreaGrows(n / per, ith, per);
    AreaGrows(ith, n / per, per);
    AreaGrows(n / per, nth - 1, per);
    assert (nth - 1) * per == nth * per - per;
  }

  // ---------- stores ----------

  /** The output with one cell stored. */
  ghost function Store(s: Site, y: Vec, c: Cell): (r: Vec)
    requires s.Valid() && |y| == Area(s.T, s.Cols()) && c.t < s.T && c.n < s.Cols()
    ensures |r| == |y|
  {
    CellAtIndex(s.Out(), s.Cols(), s.T, c.t, c.n);
    y[OutIndex(s.Out(), s.Cols(), s.T, c.t, c.n) := s.Value(c.t, c.n)]
  }

  predicate Cells(s: Site, writes: seq<Cell>) {
    forall i :: 0 <= i < |writes| ==> writes[i].t < s.T && writes[i].n < s.Cols()
  }

  /** The output after stores in the given order. */
  ghost function Apply(s: Site, y: Vec, writes: seq<Cell>): (r: Vec)
    requires s.Valid() && |y| == Area(s.T, s.Cols()) && Cells(s, writes)
    ensures |r| == |y|
  {
    if |writes| == 0 then y else Store(s, Apply(s, y, writes[..|writes| - 1]), writes[|writes| - 1])
  }

  /** The output of the whole GEMM. */
  ghost function Result(s: Site): (r: Vec)
    requires s.Valid()
    ensures |r| == Area(s.T, s.Cols())
  {
    seq(Area(s.T, s.Cols()), x requires 0 <= x < Area(s.T, s.Cols()) => CellValue(s, x))
  }

  ghost function CellValue(s: Site, x: nat): real
    requires s.Valid() && x < Area(s.T, s.Cols())
  {
    NonEmpty(s.T, s.Cols(), x);
    IndexOfCell(s.Out(), s.Cols(), s.T, x);
    var c := CellAt(s.Out(), s.Cols(), s.T, x);
    s.Value(c.t, c.n)
  }

  lemma NonEmpty(T: nat, N: nat, x: nat)
    requires x < Area(T, N)
    ensures T > 0 && N > 0
  {
  }

  ghost predicate Written(s: Site, x: nat, writes: seq<Cell>)
    requires s.Valid() && x < Area(s.T, s.Cols())
  {
    NonEmpty(s.T, s.Cols(), x);
    CellAt(s.Out(), s.Cols(), s.T, x) in writes
  }

  lemma StoreAt(s: Site, y: Vec, c: Cell, x: nat)
    requires s.Valid() && |y| == Area(s.T, s.Cols()) && c.t < s.T && c.n < s.Cols() && x < |y|
    ensures Store(s, y, c)[x] == if Written(s, x, [c]) then CellValue(s, x) else y[x]
  {
    hide OutIndex, CellAt, Area, Site.Value, Site.Valid;
    NonEmpty(s.T, s.Cols(), x);
    CellAtIndex(s.Out(), s.Cols(), s.T, c.t, c.n);
    IndexOfCell(s.Out(), s.Cols(), s.T, x);
  }

  /** What is stored at a place does not depend on the order of the stores. */
  lemma {:induction false} ApplyAt(s: Site, y: Vec, writes: seq<Cell>, x: nat)
    requires s.Valid() && |y| == Area(s.T, s.Cols()) && Cells(s, writes) && x < |y|
    ensures Apply(s, y, writes)[x] == if Written(s, x, writes) then CellValue(s, x) else y[x]
    decreases |writes|
  {
    hide CellAt, Area, CellValue, Site.Valid, Store;
    NonEmpty(s.T, s.Cols(), x);
    if |writes| > 0 {
      var k := |writes| - 1;
      ApplyAt(s, y, writes[..k], x);
      StoreAt(s, Apply(s, y, writes[..k]), writes[k], x);
      assert writes == writes[..k] + [writes[k]];
    }
  }

  // ---------- the threads' stores ----------

  /** A column, row by row. */
  function Column(T: nat, n: nat): (r: seq<Cell>)
    ensures |r| == T
  {
    seq(T, t requires 0 <= t < T => Cell(t, n))
  }

  /** Columns `n0` to `n`, one after another. */
  function Columns(T: nat, n0: nat, n: nat): (r: seq<Cell>)
    decreases n
  {
    if n <= n0 then [] else Columns(T, n0, n - 1) + Column(T, n - 1)
  }

  function ThreadWrites(s: Site, ith: nat, nth: nat): seq<Cell>
    requires nth > 0
  {
    Columns(s.T, First(s.Cols(), ith, nth), Last(s.Cols(), ith, nth))
  }

  lemma {:induction false} ColumnsCells(s: Site, n0: nat, n: nat)
    requires n <= s.Cols()
    ensures Cells(s, Columns(s.T, n0, n))
    decreases n
  {
    if n > n0 {
      ColumnsCells(s, n0, n - 1);
    }
  }

  lemma {:induction false} ColumnOnce(T: nat, n: nat, c: Cell)
    ensures multiset(Column(T, n))[c] == if c.t < T && c.n == n then 1 else 0
    decreases T
  {
    if T > 0 {
      ColumnOnce(T - 1, n, c);
      assert Column(T, n) == Column(T - 1, n) + [Cell(T - 1, n)];
    } else {
      assert Column(T, n) == [];
    }
  }

  lemma {:induction false} ColumnsOnce(T: nat, n0: nat, n: nat, c: Cell)
    ensures multiset(Columns(T, n0, n))[c] == if c.t < T && n0 <= c.n < n then 1 else 0
    decreases n
  {
    hide Column;
    if n > n0 {
      ColumnsOnce(T, n0, n - 1, c);
      ColumnOnce(T, n - 1, c);
    }
  }

  /** The stores of the first `k` of `nth` threads. */
  function ThreadStores(s: Site, k: nat, nth: nat): multiset<Cell>
    requires nth > 0
  {
    if k == 0 then multiset{} else ThreadStores(s, k - 1, nth) + multiset(ThreadWrites(s, k - 1, nth))
  }

  lemma {:induction false} StoredOnce(s: Site, k: nat, nth: nat, c: Cell)
    requires nth > 0 && c.t < s.T && c.n < s.Cols()
    ensures ThreadStores(s, k, nth)[c] == if Owner(s.Cols(), c.n, nth) < k then 1 else 0
  {
    hide First, Last, Columns, Owner;
    if k > 0 {
      StoredOnce(s, k - 1, nth, c);
      OwnerExactly(s.Cols(), c.n, nth, k - 1);
      ColumnsOnce(s.T, First(s.Cols(), k - 1, nth), Last(s.Cols(), k - 1, nth), c);
    }
  }

  /** The parallel GEMM is the sequential one: however the stores of any number of
      threads interleave, every output is stored exactly once and the result is the
      same. */
  lemma {:induction false} AnyInterleaving(s: Site, nth: nat, y: Vec, writes: seq<Cell>)
    requires s.Valid() && nth > 0 && |y| == Area(s.T, s.Cols())
    requires multiset(writes) == ThreadStores(s, nth, nth)
    ensures forall t, n :: 0 <= t < s.T && 0 <= n < s.Cols() ==> multiset(writes)[Cell(t, n)] == 1
    ensures Cells(s, writes) && Apply(s, y, writes) == Result(s)
  {
    hide CellAt, Area, CellValue, Site.Valid, Store, ThreadStores, Apply;
    forall t, n | 0 <= t < s.T && 0 <= n < s.Cols() ensures multiset(writes)[Cell(t, n)] == 1 {
      StoredOnce(s, nth, nth, Cell(t, n));
      OwnerExactly(s.Cols(), n, nth, 0);
    }
    OnlyCells(s, nth, nth, writes);
    forall x | 0 <= x < |y| ensures Apply(s, y, writes)[x] == Result(s)[x] {
      ApplyAt(s, y, writes, x);
      NonEmpty(s.T, s.Cols(), x);
      IndexOfCell(s.Out(), s.Cols(), s.T, x);
      var c := CellAt(s.Out(), s.Cols(), s.T, x);
      assert multiset(writes)[Cell(c.t, c.n)] == 1;
    }
  }

  lemma {:induction false} OnlyCells(s: Site, k: nat, nth: nat, writes: seq<Cell>)
    requires nth > 0 && multiset(writes) <= ThreadStores(s, k, nth)
    ensures Cells(s, writes)
  {
    forall i | 0 <= i < |writes| ensures writes[i].t < s.T && writes[i].n < s.Cols() {
      assert writes[i] in multiset(writes);
      IsCell(s, k, nth, writes[i]);
    }
  }

  lemma {:induction false} IsCell(s: Site, k: nat, nth: nat, c: Cell)
    requires nth > 0 && c in ThreadStores(s, k, nth)
    ensures c.t < s.T && c.n < s.Cols()
  {
    hide First, Columns;
    if k > 0 {
      ColumnsOnce(s.T, First(s.Cols(), k - 1, nth), Last(s.Cols(), k - 1, nth), c);
      if c in ThreadStores(s, k - 1, nth) {
        IsCell(s, k - 1, nth, c);
      }
    }
  }

  // ---------- one thread ----------

  /** The activation rows, unpacked once. */
  method UnpackActs(s: Site) returns (xa: seq<seq<int>>)
    requires s.Valid()
    ensures |xa| == s.T && forall t :: 0 <= t < s.T ==> xa[t] == s.Acts(t)
  {
    hide RowCodes, Accepted;
    xa := [];
    for t := 0 to s.T
      invariant |xa| == t && forall m :: 0 <= m < t ==> xa[m] == s.Acts(m)
    {
      assert ValidStoredRow(s.acts[t], s.abits, s.K);
      var x := DecodeRow(s.acts[t], s.abits);
      xa := xa + [x];
    }
  }

  /** Computes one output. */
  method ComputeCell(s: Site, t: nat, n: nat, w: seq<int>, u: seq<int>, x: seq<int>) returns (v: real)
    requires s.Valid() && t < s.T && n < s.Cols()
    requires w == s.Weights(n) && u == s.Partner(n) && x == s.Acts(t)
    ensures v == s.Value(t, n)
  {
    hide IntDot, ValidStored, Accepted, RowCodes, Rescaled, Times, Site.Epilogue;
    v := GemmDot(w, x, s.xs[t], s.ws[n], s.Bias(n));
    if s.glu.Some? {
      var up := GemmDot(u, x, s.xs[t], s.ws[n + s.Cols()], s.Bias(n + s.Cols()));
      v := Times(s.glu.value(v), up);
    } else {
      v := s.Epilogue(t, n, v);
    }
  }

  /** Computes and stores one output. */
  method GemmCell(s: Site, t: nat, n: nat, w: seq<int>, u: seq<int>, x: seq<int>, y: array<real>)
    requires s.Valid() && t < s.T && n < s.Cols()
    requires w == s.Weights(n) && u == s.Partner(n) && x == s.Acts(t)
    requires y.Length == Area(s.T, s.Cols())
    modifies y
    ensures y[..] == Store(s, old(y[..]), Cell(t, n))
  {
    assert s.layout.Heads? ==> s.layout.headDim > 0 && s.layout.heads > 0;
    hide OutIndex, Area, ValidStored, Accepted, Site.Value, Site.Weights, Site.Acts, Site.Partner;
    var v := ComputeCell(s, t, n, w, u, x);
    CellAtIndex(s.Out(), s.Cols(), s.T, t, n);
    y[OutIndex(s.Out(), s.Cols(), s.T, t, n)] := v;
  }

  /** One column, row by row. */
  method GemmColumn(s: Site, n: nat, xa: seq<seq<int>>, y: array<real>, ghost was: Vec, ghost done: seq<Cell>)
    requires s.Valid() && n < s.Cols() && y.Length == |was| == Area(s.T, s.Cols())
    requires |xa| == s.T && forall t :: 0 <= t < s.T ==> xa[t] == s.Acts(t)
    requires Cells(s, done) && y[..] == Apply(s, was, done)
    modifies y
    ensures Cells(s, done + Column(s.T, n)) && y[..] == Apply(s, was, done + Column(s.T, n))
  {
    hide Area, RowCodes, Apply, Store, Accepted;
    assert ValidStoredRow(s.weights[n], s.wbits, s.K);
    var w := DecodeRow(s.weights[n], s.wbits);
    var u := [];
    if s.glu.Some? {
      assert ValidStoredRow(s.weights[n + s.Cols()], s.wbits, s.K);
      u := DecodeRow(s.weights[n + s.Cols()], s.wbits);
    }
    assert done + Column(s.T, n)[..0] == done;
    for t := 0 to s.T
      invariant Cells(s, done + Column(s.T, n)[..t]) && y[..] == Apply(s, was, done + Column(s.T, n)[..t])
    {
      OneMoreCell(s, was, done, n, t);
      GemmCell(s, t, n, w, u, xa[t], y);
    }
    assert Column(s.T, n)[..s.T] == Column(s.T, n);
  }

  lemma OneMoreCell(s: Site, y: Vec, done: seq<Cell>, n: nat, t: nat)
    requires s.Valid() && n < s.Cols() && t < s.T && |y| == Area(s.T, s.Cols())
    requires Cells(s, done + Column(s.T, n)[..t])
    ensures Cells(s, done + Column(s.T, n)[..t + 1])
    ensures Apply(s, y, done + Column(s.T, n)[..t + 1])
            == Store(s, Apply(s, y, done + Column(s.T, n)[..t]), Cell(t, n))
  {
    hide Area, Store, Site.Valid;
    var a, b := done + Column(s.T, n)[..t], done + Column(s.T, n)[..t + 1];
    assert b == a + [Cell(t, n)] && b[..|b| - 1] == a;
  }

  /** The columns of one thread, each for every row. */
  method GemmThread(s: Site, ith: nat, nth: nat, y: array<real>)
    requires s.Valid() && nth > 0 && y.Length == Area(s.T, s.Cols())
    modifies y
    ensures Cells(s, ThreadWrites(s, ith, nth))
    ensures y[..] == Apply(s, old(y[..]), ThreadWrites(s, ith, nth))
  {
    hide Area, Site.Valid, Columns, Apply, First, Column;
    ghost var was := y[..];
    var xa := UnpackActs(s);
    var n0, n1 := First(s.Cols(), ith, nth), Last(s.Cols(), ith, nth);
    var n := n0;
    ColumnsCells(s, n0, n1);
    StartsColumns(s, n0, was);
    while n < n1
      invariant n0 <= n && (if n0 < n1 then n <= n1 else n == n0) && n1 <= s.Cols()
      invariant Cells(s, Columns(s.T, n0, n)) && y[..] == Apply(s, was, Columns(s.T, n0, n))
    {
      GemmColumn(s, n, xa, y, was, Columns(s.T, n0, n));
      n := n + 1;
      NextColumn(s.T, n0, n);
    }
    EmptyColumns(s.T, n0, n1, n);
  }

  lemma StartsColumns(s: Site, n0: nat, y: Vec)
    requires s.Valid() && |y| == Area(s.T, s.Cols())
    ensures Cells(s, Columns(s.T, n0, n0)) && Apply(s, y, Columns(s.T, n0, n0)) == y
  {
  }

  lemma NextColumn(T: nat, n0: nat, n: nat)
    requires n0 < n
    ensures Columns(T, n0, n) == Columns(T, n0, n - 1) + Column(T, n - 1)
  {
  }

  lemma EmptyColumns(T: nat, n0: nat, n1: nat, n: nat)
    requires n0 <= n && (n0 < n1 ==> n <= n1) && !(n < n1) && (n1 <= n0 ==> n == n0)
    ensures Columns(T, n0, n) == Columns(T, n0, n1)
  {
  }

  /** On rows the activation pass quantized, the linear output is what the integer path is
      proved to approximate. */
  lemma LinearIsNative(s: Site, t: nat, n: nat, ascale: Option<Vec>, a: ActSpec, x: Vec)
    requires s.Valid() && t < s.T && n < s.N
    requires |x| == s.K && ValidRow(x, ascale, None, a)
    requires var y := Prepared(x, ascale, None, a);
             s.xs[t] == ScaleOf(y, a) && s.Acts(t) == Codes(y, ScaleOf(y, a), Qmax(a.abits))
    ensures s.Linear(t, n) == NativeOutput(s.Weights(n), s.ws[n], s.Bias(n), ascale, a, x)
  {
    hide Rescaled, IntDot, Codes, ScaleOf, Prepared, RowCodes, ValidStored;
  }
}
