/** Where a GEMM writes its outputs: row-major, or laid out for attention heads. */
module OutLayout {
  import opened MixedRadix

  /** Plain, or the columns read as parts of `heads` heads of `headDim` entries, a part
      transposed where its bit of `vmask` is set. */
  datatype Layout = Plain | Heads(headDim: nat, heads: nat, vmask: nat)

  /** The largest number of parts: the bits of `vmask`. */
  const MAX_PARTS := 32

  function Bit(mask: nat, p: nat): bool
    decreases p
  {
    if p == 0 then mask % 2 == 1 else Bit(mask / 2, p - 1)
  }

  // ---------- accepted layouts ----------

  /** The layout a site gets for `N` columns: plain unless the columns are one to 32
      whole parts, and plain when head layouts are off. */
  function SetHeads(N: nat, headDim: nat, heads: nat, vmask: nat, off: bool): Layout
    requires headDim > 0 && heads > 0
  {
    AreaPositive(headDim, heads);
    var dim := Area(headDim, heads);
    var parts := N / dim;
    if off || parts < 1 || parts > MAX_PARTS || N % dim != 0 then Plain else Heads(headDim, heads, vmask)
  }

  /** The columns are a whole number of parts, each with a bit of its own. */
  ghost predicate Accepted(l: Layout, N: nat) {
    l.Heads? ==>
      && l.headDim > 0 && l.heads > 0
      && exists parts :: 1 <= parts <= MAX_PARTS && N == Area(parts, Area(l.headDim, l.heads))
  }

  /** A layout is set exactly when head layouts are on and the columns are one to 32
      whole parts. */
  lemma SetHeadsExactly(N: nat, headDim: nat, heads: nat, vmask: nat, off: bool)
    requires headDim > 0 && heads > 0
    ensures var l := SetHeads(N, headDim, heads, vmask, off);
            Accepted(l, N) && (l != Plain <==> !off && Accepted(Heads(headDim, heads, vmask), N))
  {
    AreaPositive(headDim, heads);
    var dim := Area(headDim, heads);
    hide Area;
    if N % dim == 0 {
      WholeParts(N, dim);
    }
    if exists parts :: 1 <= parts <= MAX_PARTS && N == Area(parts, dim) {
      var parts :| 1 <= parts <= MAX_PARTS && N == Area(parts, dim);
      PartsDivide(parts, dim);
    }
  }

  lemma WholeParts(N: nat, dim: nat)
    requires dim > 0 && N % dim == 0
    ensures N == Area(N / dim, dim)
  {
  }

  lemma PartsDivide(parts: nat, dim: nat)
    requires dim > 0
    ensures Area(parts, dim) / dim == parts && Area(parts, dim) % dim == 0
  {
    SplitJoin(parts, 0, dim);
  }

  // ---------- the index ----------

  /** Where output (row `t`, column `n`) of `T` rows and `N` columns lands. */
  function OutIndex(l: Layout, N: nat, T: nat, t: nat, n: nat): int
    requires l.Heads? ==> l.headDim > 0 && l.heads > 0
  {
    if l.Plain? then t * N + n
    else
      AreaPositive(l.headDim, l.heads);
      var dim := l.headDim * l.heads;
      var p := n / dim;
      var r := n - p * dim;
      var h := r / l.headDim;
      var d := r - h * l.headDim;
      var base := p * dim * T;
      if Bit(l.vmask, p) then base + (h * l.headDim + d) * T + t else base + (h * T + t) * l.headDim + d
  }

  /** The place of a cell within its part. */
  function Within(l: Layout, T: nat, p: nat, t: nat, r: nat): nat
    requires l.Heads? && l.headDim > 0
  {
    if Bit(l.vmask, p) then Join(r, t, T) else Join(Join(High(r, l.headDim), t, T), Low(r, l.headDim), l.headDim)
  }

  /** The index in mixed radix: the part, then the place within it. */
  lemma IndexIsJoin(l: Layout, N: nat, T: nat, t: nat, n: nat)
    requires l.Heads? && l.headDim > 0 && l.heads > 0
    ensures Area(l.headDim, l.heads) > 0
    ensures var dim := Area(l.headDim, l.heads);
            OutIndex(l, N, T, t, n) == Join(High(n, dim), Within(l, T, High(n, dim), t, Low(n, dim)), Area(dim, T))
  {
    AreaPositive(l.headDim, l.heads);
    var dim := l.headDim * l.heads;
    var p, r := n / dim, n % dim;
    assert r == n - p * dim;
    var h, d := r / l.headDim, r % l.headDim;
    assert d == r - h * l.headDim;
    Associates(p, dim, T);
    hide Bit;
  }

  // ---------- the inverse ----------

  datatype Cell = Cell(t: nat, n: nat)

  /** The cell of a part at a place. */
  function PartCell(l: Layout, T: nat, p: nat, y: nat): Cell
    requires l.Heads? && l.headDim > 0 && l.heads > 0 && T > 0
  {
    var dim := Area(l.headDim, l.heads);
    if Bit(l.vmask, p) then Cell(Low(y, T), Join(p, High(y, T), dim))
    else
      var q := High(y, l.headDim);
      Cell(Low(q, T), Join(p, Join(High(q, T), Low(y, l.headDim), l.headDim), dim))
  }

  /** The cell that lands at `x`. */
  function CellAt(l: Layout, N: nat, T: nat, x: nat): Cell
    requires N > 0 && T > 0 && (l.Heads? ==> l.headDim > 0 && l.heads > 0)
  {
    if l.Plain? then Cell(High(x, N), Low(x, N))
    else
      AreaPositive(l.headDim, l.heads);
      AreaPositive(Area(l.headDim, l.heads), T);
      var size := Area(Area(l.headDim, l.heads), T);
      PartCell(l, T, High(x, size), Low(x, size))
  }

  /** Within a part, places are below the part's size. */
  lemma WithinBelow(l: Layout, T: nat, p: nat, t: nat, r: nat)
    requires l.Heads? && l.headDim > 0 && t < T && r < Area(l.headDim, l.heads)
    ensures Within(l, T, p, t, r) < Area(Area(l.headDim, l.heads), T)
  {
    hide Area, Join, High, Low, Bit;
    if Bit(l.vmask, p) {
      JoinBelow(r, t, T, Area(l.headDim, l.heads));
    } else {
      AreaCommutes(l.headDim, l.heads);
      HighBelow(r, l.headDim, l.heads);
      JoinBelow(High(r, l.headDim), t, T, l.heads);
      JoinBelow(Join(High(r, l.headDim), t, T), Low(r, l.headDim), l.headDim, Area(l.heads, T));
      AreaRotates(l.headDim, l.heads, T);
    }
  }

  lemma PartCellWithin(l: Layout, T: nat, p: nat, t: nat, r: nat)
    requires l.Heads? && l.headDim > 0 && l.heads > 0 && t < T && r < Area(l.headDim, l.heads)
    ensures PartCell(l, T, p, Within(l, T, p, t, r)) == Cell(t, Join(p, r, Area(l.headDim, l.heads)))
  {
    hide Area, Join, High, Low, Bit;
    if Bit(l.vmask, p) {
      SplitJoin(r, t, T);
    } else {
      SplitJoin(Join(High(r, l.headDim), t, T), Low(r, l.headDim), l.headDim);
      SplitJoin(High(r, l.headDim), t, T);
      JoinSplit(r, l.headDim);
    }
  }

  /** Every cell lands inside the output, and the inverse finds it. */
  lemma CellAtIndex(l: Layout, N: nat, T: nat, t: nat, n: nat)
    requires Accepted(l, N) && t < T && n < N
    ensures 0 <= OutIndex(l, N, T, t, n) < Area(T, N) && CellAt(l, N, T, OutIndex(l, N, T, t, n)) == Cell(t, n)
  {
    if l.Plain? {
      JoinBelow(t, n, N, T);
      SplitJoin(t, n, N);
    } else {
      IndexIsJoin(l, N, T, t, n);
      hide OutIndex, Area, Join, High, Low, PartCell, Within;
      var dim := Area(l.headDim, l.heads);
      var p, r := High(n, dim), Low(n, dim);
      var parts :| 1 <= parts <= MAX_PARTS && N == Area(parts, dim);
      HighBelow(n, dim, parts);
      WithinBelow(l, T, p, t, r);
      JoinBelow(p, Within(l, T, p, t, r), Area(dim, T), parts);
      PartsArea(T, parts, dim);
      SplitJoin(p, Within(l, T, p, t, r), Area(dim, T));
      PartCellWithin(l, T, p, t, r);
      JoinSplit(n, dim);
    }
  }

  /** A place below a part's size is the place of its cell. */
  lemma PartCellIs(l: Layout, T: nat, p: nat, y: nat)
    requires l.Heads? && l.headDim > 0 && l.heads > 0 && T > 0
    requires y < Area(Area(l.headDim, l.heads), T)
    ensures var dim := Area(l.headDim, l.heads);
            var c := PartCell(l, T, p, y);
            dim > 0 && c.t < T && High(c.n, dim) == p && Within(l, T, p, c.t, Low(c.n, dim)) == y
  {
    AreaPositive(l.headDim, l.heads);
    hide Area, Join, High, Low, Bit;
    var dim := Area(l.headDim, l.heads);
    if Bit(l.vmask, p) {
      HighBelow(y, T, dim);
      SplitJoin(p, High(y, T), dim);
      JoinSplit(y, T);
    } else {
      var q, d := High(y, l.headDim), Low(y, l.headDim);
      AreaRotates(l.headDim, l.heads, T);
      HighBelow(y, l.headDim, Area(l.heads, T));
      HighBelow(q, T, l.heads);
      JoinBelow(High(q, T), d, l.headDim, l.heads);
      AreaCommutes(l.headDim, l.heads);
      SplitJoin(p, Join(High(q, T), d, l.headDim), dim);
      SplitJoin(High(q, T), d, l.headDim);
      JoinSplit(q, T);
      JoinSplit(y, l.headDim);
    }
  }

  /** Every place of the output is that of exactly the cell the inverse gives. */
  lemma IndexOfCell(l: Layout, N: nat, T: nat, x: nat)
    requires Accepted(l, N) && N > 0 && T > 0 && x < Area(T, N)
    ensures var c := CellAt(l, N, T, x);
            c.t < T && c.n < N && OutIndex(l, N, T, c.t, c.n) == x
  {
    if l.Plain? {
      HighBelow(x, N, T);
      JoinSplit(x, N);
    } else {
      AreaPositive(l.headDim, l.heads);
      AreaPositive(Area(l.headDim, l.heads), T);
      var c := CellAt(l, N, T, x);
      IndexIsJoin(l, N, T, c.t, c.n);
      hide OutIndex, Area, Join, High, Low, PartCell, Within;
      var dim := Area(l.headDim, l.heads);
      var size := Area(dim, T);
      var parts :| 1 <= parts <= MAX_PARTS && N == Area(parts, dim);
      PartsArea(T, parts, dim);
      HighBelow(x, size, parts);
      PartCellIs(l, T, High(x, size), Low(x, size));
      JoinSplit(x, size);
      JoinSplit(c.n, dim);
      JoinBelow(High(c.n, dim), Low(c.n, dim), dim, parts);
    }
  }

  /** For every accepted layout the index is a bijection from the cells onto the
      output. */
  lemma IndexBijective(l: Layout, N: nat, T: nat)
    requires Accepted(l, N) && N > 0 && T > 0
    ensures forall t, n :: 0 <= t < T && 0 <= n < N ==>
              0 <= OutIndex(l, N, T, t, n) < Area(T, N) && CellAt(l, N, T, OutIndex(l, N, T, t, n)) == Cell(t, n)
    ensures forall x :: 0 <= x < Area(T, N) ==>
              var c := CellAt(l, N, T, x); c.t < T && c.n < N && OutIndex(l, N, T, c.t, c.n) == x
  {
    assert l.Heads? ==> l.headDim > 0 && l.heads > 0;
    hide OutIndex, CellAt, Area, Accepted;
    forall t, n | 0 <= t < T && 0 <= n < N
      ensures 0 <= OutIndex(l, N, T, t, n) < Area(T, N) && CellAt(l, N, T, OutIndex(l, N, T, t, n)) == Cell(t, n)
    {
      CellAtIndex(l, N, T, t, n);
    }
    forall x | 0 <= x < Area(T, N)
      ensures var c := CellAt(l, N, T, x); c.t < T && c.n < N && OutIndex(l, N, T, c.t, c.n) == x
    {
      IndexOfCell(l, N, T, x);
    }
  }

  /** Attention's view: head `h` of part `p` has its entry `d` of row `t` at strides
      (1, headDim, headDim * T) over (d, t, h), or (1, T, headDim * T) over (t, d, h)
      where the part is transposed. */
  lemma HeadStrides(l: Layout, N: nat, T: nat, t: nat, p: nat, h: nat, d: nat)
    requires l.Heads? && h < l.heads && d < l.headDim
    ensures var dim := Area(l.headDim, l.heads);
            OutIndex(l, N, T, t, Join(p, Join(h, d, l.headDim), dim))
            == Area(p, Area(dim, T)) + Area(h, Area(l.headDim, T))
               + (if Bit(l.vmask, p) then Area(d, T) + t else Area(t, l.headDim) + d)
  {
    var dim, r := Area(l.headDim, l.heads), Join(h, d, l.headDim);
    JoinBelow(h, d, l.headDim, l.heads);
    AreaCommutes(l.headDim, l.heads);
    IndexIsJoin(l, N, T, t, Join(p, r, dim));
    SplitJoin(p, r, dim);
    SplitJoin(h, d, l.headDim);
    HeadPlace(T, h, t, d, l.headDim);
    hide OutIndex, Bit, High, Low;
    assert Within(l, T, p, t, r) == if Bit(l.vmask, p) then Join(r, t, T) else Join(Join(h, t, T), d, l.headDim);
    assert Join(p, Within(l, T, p, t, r), Area(dim, T)) == Area(p, Area(dim, T)) + Within(l, T, p, t, r);
  }

  lemma HeadPlace(T: nat, h: nat, t: nat, d: nat, headDim: nat)
    ensures Join(Join(h, d, headDim), t, T) == Area(h, Area(headDim, T)) + Area(d, T) + t
    ensures Join(Join(h, t, T), d, headDim) == Area(h, Area(headDim, T)) + Area(t, headDim) + d
  {
    assert (h * headDim + d) * T == h * headDim * T + d * T && h * headDim * T == h * (headDim * T);
    assert (h * T + t) * headDim == h * T * headDim + t * headDim && h * T * headDim == h * (headDim * T);
  }
}
