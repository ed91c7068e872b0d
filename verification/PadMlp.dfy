/** Widening an MLP to what a matrix unit takes: zero rows, zero columns, same outputs. */
module PadMlp {
  import opened Sequences
  import opened Vectors
  import opened MixedRadix
  import opened RowMajor

  // ---------- the width ----------

  /** The inner width of a product on the compiled-in backend. */
  function GemmWidth(n: nat, hexagon: bool): nat {
    if hexagon then (n + 31) / 32 * 32 else n
  }

  /** On the matrix unit it is the least multiple of 32 that holds the width; elsewhere
      the width itself. */
  lemma GemmWidthLeast(n: nat, hexagon: bool, m: nat)
    ensures var w := GemmWidth(n, hexagon);
            && n <= w < n + 32 && (hexagon ==> w % 32 == 0) && (!hexagon ==> w == n)
            && (n <= m && m % 32 == 0 ==> w <= m || !hexagon)
  {
  }

  // ---------- the network ----------

  function Zeros(n: nat): (z: Vec)
    ensures |z| == n
  {
    Repeat(n, 0.0)
  }

  /** A vector with zeros after it. */
  function PadVec(v: Vec, n: nat): (r: Vec)
    requires |v| <= n
    ensures |r| == n
  {
    v + Zeros(n - |v|)
  }

  /** Rows with zeros after each, then rows of zeros. */
  function PadRows(rows: seq<Vec>, K: nat, ne0: nat, ne1: nat): (r: seq<Vec>)
    requires Rows(rows, K) && K <= ne0 && |rows| <= ne1
    ensures |r| == ne1 && Rows(r, ne0)
  {
    seq(ne1, n requires 0 <= n < ne1 => PadRow(rows, K, ne0, n))
  }

  function PadRow(rows: seq<Vec>, K: nat, ne0: nat, n: nat): (r: Vec)
    requires Rows(rows, K) && K <= ne0
    ensures |r| == ne0
  {
    PadVec(if n < |rows| then rows[n] else [], ne0)
  }

  function Affine(w: seq<Vec>, b: Vec, x: Vec): (r: Vec)
    requires Rows(w, |x|) && |b| == |w|
    ensures |r| == |w|
  {
    seq(|w|, n requires 0 <= n < |w| => Dot(w[n], x) + b[n])
  }

  function Map(f: real -> real, x: Vec): (r: Vec)
    ensures |r| == |x|
  {
    seq(|x|, i requires 0 <= i < |x| => f(x[i]))
  }

  /** Two layers with an activation between. */
  function Mlp(w1: seq<Vec>, b1: Vec, f: real -> real, w2: seq<Vec>, b2: Vec, x: Vec): (r: Vec)
    requires Rows(w1, |x|) && |b1| == |w1| && Rows(w2, |w1|) && |b2| == |w2|
    ensures |r| == |w2|
  {
    Affine(w2, b2, Map(f, Affine(w1, b1, x)))
  }

  lemma {:induction false} DotZeros(n: nat, x: Vec)
    requires |x| == n
    ensures Dot(Zeros(n), x) == 0.0
    decreases n
  {
    if n > 0 {
      DotZeros(n - 1, x[..n - 1]);
      assert Zeros(n)[..n - 1] == Zeros(n - 1);
      DotLast(Zeros(n), x);
      assert Times(0.0, x[n - 1]) == 0.0;
    }
  }

  /** A padded row ignores what it is multiplied with past its own entries. */
  lemma DotPadded(row: Vec, h: Vec, tail: Vec)
    requires |row| == |h|
    ensures |PadVec(row, |h| + |tail|)| == |h + tail|
    ensures Dot(PadVec(row, |h| + |tail|), h + tail) == Dot(row, h)
  {
    DotConcat(row, Zeros(|tail|), h, tail);
    DotZeros(|tail|, tail);
  }

  /** The padded first layer computes the original entries, and more. */
  lemma HiddenPrefix(w1: seq<Vec>, b1: Vec, f: real -> real, x: Vec, ff: nat)
    requires Rows(w1, |x|) && |b1| == |w1| <= ff
    ensures Map(f, Affine(PadRows(w1, |x|, |x|, ff), PadVec(b1, ff), x))[..|w1|] == Map(f, Affine(w1, b1, x))
  {
    hide Dot;
    var big, small := Affine(PadRows(w1, |x|, |x|, ff), PadVec(b1, ff), x), Affine(w1, b1, x);
    forall n | 0 <= n < |w1| ensures big[n] == small[n] {
      assert PadVec(w1[n], |x|) == w1[n];
    }
  }

  lemma PaddedOutput(w2: seq<Vec>, b2: Vec, h: Vec, wide: Vec)
    requires Rows(w2, |h|) && |b2| == |w2| && |h| <= |wide| && wide[..|h|] == h
    ensures Affine(PadRows(w2, |h|, |wide|, |w2|), b2, wide) == Affine(w2, b2, h)
  {
    hide Dot, Zeros;
    assert wide == h + wide[|h|..];
    forall n | 0 <= n < |w2| ensures Affine(PadRows(w2, |h|, |wide|, |w2|), b2, wide)[n] == Affine(w2, b2, h)[n] {
      DotPadded(w2[n], h, wide[|h|..]);
    }
  }

  /** The padded network's output is the original's for every input and any activation:
      the columns added to the second layer are zero, so what the activation makes of
      zero does not matter. */
  lemma PaddingPreserves(w1: seq<Vec>, b1: Vec, f: real -> real, w2: seq<Vec>, b2: Vec, x: Vec, ff: nat)
    requires Rows(w1, |x|) && |b1| == |w1| && Rows(w2, |w1|) && |b2| == |w2| && |w1| <= ff
    ensures Mlp(PadRows(w1, |x|, |x|, ff), PadVec(b1, ff), f, PadRows(w2, |w1|, ff, |w2|), b2, x)
            == Mlp(w1, b1, f, w2, b2, x)
  {
    hide Affine, Map, PadRows, PadVec;
    HiddenPrefix(w1, b1, f, x, ff);
    PaddedOutput(w2, b2, Map(f, Affine(w1, b1, x)),
                 Map(f, Affine(PadRows(w1, |x|, |x|, ff), PadVec(b1, ff), x)));
  }

  // ---------- the copy ----------

  /** Copies one row over zeros. */
  method CopyRow(row: Vec, out: array<real>, base: nat, ne0: nat)
    requires |row| <= ne0 && base + ne0 <= out.Length && forall i :: base <= i < base + ne0 ==> out[i] == 0.0
    modifies out
    ensures out[base..base + ne0] == PadVec(row, ne0)
    ensures forall i :: 0 <= i < base || base + ne0 <= i < out.Length ==> out[i] == old(out[i])
  {
    for k := 0 to |row|
      invariant forall i :: 0 <= i < k ==> out[base + i] == row[i]
      invariant forall i :: base + k <= i < base + ne0 ==> out[i] == 0.0
      invariant forall i :: 0 <= i < base || base + ne0 <= i < out.Length ==> out[i] == old(out[i])
    {
      out[base + k] := row[k];
    }
  }

  lemma BufferStarts(want: seq<Vec>, ne0: nat)
    requires Rows(want, ne0)
    ensures Area(0, ne0) == 0 && Stack(want[..0], ne0) == []
  {
  }

  lemma NextPadded(rows: seq<Vec>, K: nat, ne0: nat, ne1: nat, r: nat)
    requires Rows(rows, K) && K <= ne0 && |rows| <= ne1 && r < |rows|
    ensures var want := PadRows(rows, K, ne0, ne1);
            Stack(want[..r + 1], ne0) == Stack(want[..r], ne0) + PadVec(rows[r], ne0)
  {
    hide Stack, PadVec;
    var want := PadRows(rows, K, ne0, ne1);
    assert want[..r + 1] == want[..r] + [want[r]];
    StackNext(want[..r], want[r], ne0);
  }

  /** The rows past the file's are left as the zeros the buffer starts with. */
  lemma RestIsZero(rows: seq<Vec>, K: nat, ne0: nat, ne1: nat)
    requires Rows(rows, K) && K <= ne0 && |rows| <= ne1
    ensures Area(|rows|, ne0) <= Area(ne1, ne0)
    ensures var want := PadRows(rows, K, ne0, ne1);
            Stack(want, ne0) == Stack(want[..|rows|], ne0) + Zeros(Area(ne1, ne0) - Area(|rows|, ne0))
  {
    hide Stack, PadVec, Area;
    AreaMonotone(|rows|, ne1, ne0);
    var want := PadRows(rows, K, ne0, ne1);
    var n := |rows|;
    assert want == want[..n] + want[n..];
    StackConcat(want[..n], want[n..], ne0);
    forall i | 0 <= i < ne1 - n ensures want[n..][i] == Zeros(ne0) {
      PadNothing(ne0);
    }
    StackZeros(want[n..], ne0);
  }

  lemma PadNothing(n: nat)
    ensures PadVec([], n) == Zeros(n)
  {
  }

  lemma {:induction false} StackZeros(rows: seq<Vec>, K: nat)
    requires forall i :: 0 <= i < |rows| ==> rows[i] == Zeros(K)
    ensures Rows(rows, K) && Stack(rows, K) == Zeros(Area(|rows|, K))
    decreases |rows|
  {
    if |rows| > 0 {
      var m := |rows| - 1;
      StackZeros(rows[..m], K);
      NextArea(m, K);
      hide Area;
      assert Zeros(Area(m, K)) + Zeros(K) == Zeros(Area(m, K) + K);
    }
  }

  /** Copies rows into a zeroed buffer, each at its padded place. */
  method CopyPadded(rows: seq<Vec>, K: nat, ne0: nat, ne1: nat) returns (out: array<real>)
    requires Rows(rows, K) && K <= ne0 && |rows| <= ne1
    ensures fresh(out) && out[..] == Stack(PadRows(rows, K, ne0, ne1), ne0)
  {
    hide Area, Stack, PadRows;
    ghost var want := PadRows(rows, K, ne0, ne1);
    BufferStarts(want, ne0);
    var size := AreaOf(ne1, ne0);
    out := new real[size](_ => 0.0);
    var base := 0;
    for r := 0 to |rows|
      invariant base == Area(r, ne0) && base <= out.Length
      invariant out[..base] == Stack(want[..r], ne0)
      invariant forall i :: base <= i < out.Length ==> out[i] == 0.0
    {
      RowFits(r, ne0, ne1);
      CopyRow(rows[r], out, base, ne0);
      NextPadded(rows, K, ne0, ne1, r);
      assert out[..base + ne0] == out[..base] + out[base..base + ne0];
      base := base + ne0;
    }
    RestIsZero(rows, K, ne0, ne1);
    assert out[..] == out[..base] + out[base..];
    assert out[base..] == Zeros(out.Length - base);
  }

  method AreaOf(a: nat, b: nat) returns (n: nat)
    ensures n == Area(a, b)
  {
    n := a * b;
  }
}
