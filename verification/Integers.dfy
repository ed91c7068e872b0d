/** Integer rows: nibble packing, and the accumulator of an integer product. */
module Integers {
  import opened Sequences

  // ---------- nibbles ----------

  /** The low four bits of a code, in two's complement. */
  function Low4(v: int): (n: int)
    ensures 0 <= n < 16
  {
    v % 16
  }

  /** The code a nibble stands for. */
  function SignExtend(n: int): (v: int)
    requires 0 <= n < 16
    ensures -8 <= v < 8 && Low4(v) == n
  {
    if n >= 8 then n - 16 else n
  }

  predicate IsByte(b: int) {
    0 <= b < 256
  }

  predicate Fits4(v: int) {
    -8 <= v < 8
  }

  /** Two codes to a byte, the even one in the low nibble. */
  function PackPair(lo: int, hi: int): (b: int)
    ensures IsByte(b)
  {
    Low4(lo) + 16 * Low4(hi)
  }

  function Pack(c: seq<int>): (p: seq<int>)
    requires |c| % 2 == 0
    ensures |p| == |c| / 2
  {
    seq(|c| / 2, i requires 0 <= i < |c| / 2 => PackPair(c[2 * i], c[2 * i + 1]))
  }

  function UnpackAt(p: seq<int>, k: nat): int
    requires k < 2 * |p| && IsByte(p[k / 2])
  {
    SignExtend(if k % 2 == 0 then p[k / 2] % 16 else p[k / 2] / 16)
  }

  function Unpack(p: seq<int>): (c: seq<int>)
    requires forall i :: 0 <= i < |p| ==> IsByte(p[i])
    ensures |c| == 2 * |p|
  {
    seq(2 * |p|, k requires 0 <= k < 2 * |p| => UnpackAt(p, k))
  }

  lemma PairHalves(lo: int, hi: int)
    ensures PackPair(lo, hi) % 16 == Low4(lo) && PackPair(lo, hi) / 16 == Low4(hi)
  {
  }

  /** Unpacking recovers packed codes if and only if each fits in four bits. */
  lemma UnpackPack(c: seq<int>)
    requires |c| % 2 == 0
    ensures (forall i :: 0 <= i < |Pack(c)| ==> IsByte(Pack(c)[i]))
    ensures Unpack(Pack(c)) == c <==> forall k :: 0 <= k < |c| ==> Fits4(c[k])
  {
    PackIsBytes(c);
    hide Pack, UnpackAt, IsByte, Fits4;
    forall k | 0 <= k < |c| ensures Unpack(Pack(c))[k] == c[k] <==> Fits4(c[k]) {
      UnpackPackAt(c, k);
    }
    if forall k :: 0 <= k < |c| ==> Fits4(c[k]) {
      assert Unpack(Pack(c)) == c;
    }
  }

  lemma PackIsBytes(c: seq<int>)
    requires |c| % 2 == 0
    ensures forall i :: 0 <= i < |Pack(c)| ==> IsByte(Pack(c)[i])
  {
  }

  lemma UnpackPackAt(c: seq<int>, k: nat)
    requires |c| % 2 == 0 && k < |c|
    ensures IsByte(Pack(c)[k / 2]) && (UnpackAt(Pack(c), k) == c[k] <==> Fits4(c[k]))
  {
    var i := k / 2;
    PairHalves(c[2 * i], c[2 * i + 1]);
    assert Pack(c)[i] == PackPair(c[2 * i], c[2 * i + 1]);
    assert k == 2 * i || k == 2 * i + 1;
  }

  lemma PackUnpackAt(p: seq<int>, i: nat)
    requires i < |p| && IsByte(p[i])
    ensures PackPair(UnpackAt(p, 2 * i), UnpackAt(p, 2 * i + 1)) == p[i]
  {
    assert 2 * i / 2 == i && (2 * i + 1) / 2 == i;
  }

  /** Packing recovers unpacked bytes. */
  lemma PackUnpack(p: seq<int>)
    requires forall i :: 0 <= i < |p| ==> IsByte(p[i])
    ensures Pack(Unpack(p)) == p
  {
    hide UnpackAt, PackPair, IsByte;
    var c := Unpack(p);
    forall i | 0 <= i < |p| ensures Pack(c)[i] == p[i] {
      assert c[2 * i] == UnpackAt(p, 2 * i) && c[2 * i + 1] == UnpackAt(p, 2 * i + 1);
      PackUnpackAt(p, i);
    }
  }

  /** Unpacks a nibble row into `out`. */
  method UnpackNibbles(packed: seq<int>, out: array<int>)
    requires forall i :: 0 <= i < |packed| ==> IsByte(packed[i])
    requires out.Length == 2 * |packed|
    modifies out
    ensures out[..] == Unpack(packed)
  {
    var k := 0;
    while k < out.Length
      invariant 0 <= k <= out.Length && k % 2 == 0
      invariant forall m :: 0 <= m < k ==> out[m] == Unpack(packed)[m]
    {
      var b := packed[k / 2];
      out[k] := SignExtend(b % 16);
      out[k + 1] := SignExtend(b / 16);
      k := k + 2;
    }
  }

  // ---------- the accumulator ----------

  function Product(a: int, b: int): int {
    a * b
  }

  function IntDot(w: seq<int>, x: seq<int>): int
    requires |w| == |x|
  {
    if |w| == 0 then 0 else IntDot(w[..|w| - 1], x[..|w| - 1]) + Product(w[|w| - 1], x[|w| - 1])
  }

  lemma IntDotLast(w: seq<int>, x: seq<int>)
    requires |w| == |x| && |w| > 0
    ensures var n := |w| - 1; IntDot(w, x) == IntDot(w[..n], x[..n]) + Product(w[n], x[n])
  {
  }

  /** Eight-bit weights against activation codes, which are symmetric. */
  predicate Operands(w: seq<int>, x: seq<int>) {
    && |w| == |x|
    && (forall k :: 0 <= k < |w| ==> -128 <= w[k] <= 127)
    && (forall k :: 0 <= k < |x| ==> -127 <= x[k] <= 127)
  }

  predicate FitsInt32(a: int) {
    -0x8000_0000 <= a <= 0x7fff_ffff
  }

  lemma ProductBound(a: int, b: int)
    requires -128 <= a <= 127 && -127 <= b <= 127
    ensures -16256 <= a * b <= 16256
  {
    var m := if a >= 0 then a else -a;
    Nonneg(m, 127 - b);
    Nonneg(m, 127 + b);
    assert m * (127 - b) == 127 * m - m * b && m * (127 + b) == 127 * m + m * b;
    assert a * b == if a >= 0 then m * b else -(m * b);
  }

  lemma Nonneg(x: int, y: int)
    requires x >= 0 && y >= 0
    ensures x * y >= 0
  {
  }

  lemma {:induction false} DotBound(w: seq<int>, x: seq<int>)
    requires Operands(w, x)
    ensures -16256 * |w| <= IntDot(w, x) <= 16256 * |w|
  {
    if |w| > 0 {
      DotBound(w[..|w| - 1], x[..|w| - 1]);
      ProductBound(w[|w| - 1], x[|w| - 1]);
    }
  }

  /** The largest sum there is. */
  lemma {:induction false} RepeatDot(n: nat)
    ensures IntDot(Repeat(n, -128), Repeat(n, -127)) == 16256 * n
  {
    if n > 0 {
      RepeatDot(n - 1);
      assert Repeat(n, -128)[..n - 1] == Repeat(n - 1, -128) && Repeat(n, -127)[..n - 1] == Repeat(n - 1, -127);
    }
  }

  /** Every partial sum of every product of length `K` fits the accumulator. */
  ghost predicate NeverOverflows(K: nat) {
    forall w, x, k :: Operands(w, x) && 0 <= k <= |w| == K ==> FitsInt32(IntDot(w[..k], x[..k]))
  }

  /** That is so exactly up to 132104 terms. */
  lemma AccumulatorExact(K: nat)
    ensures NeverOverflows(K) <==> K <= 132104
  {
    if K <= 132104 {
      forall w, x, k | Operands(w, x) && 0 <= k <= |w| == K ensures FitsInt32(IntDot(w[..k], x[..k])) {
        DotBound(w[..k], x[..k]);
      }
    } else {
      RepeatDot(K);
      var w, x := Repeat(K, -128), Repeat(K, -127);
      assert Operands(w, x) && w[..K] == w && x[..K] == x;
      assert !FitsInt32(IntDot(w[..K], x[..K]));
    }
  }

  /** The accumulator scaled by the activation's and the weight row's scale, in that order,
      plus the bias. */
  function Rescaled(acc: int, xs: real, ws: real, bias: real): real {
    (acc as real * xs) * ws + bias
  }

  /** One output of the integer product: exact sum, then the epilogue's order. */
  method GemmDot(w: seq<int>, x: seq<int>, xs: real, ws: real, bias: real) returns (y: real)
    requires |w| == |x|
    ensures y == Rescaled(IntDot(w, x), xs, ws, bias)
  {
    var acc := 0;
    for k := 0 to |w|
      invariant acc == IntDot(w[..k], x[..k])
    {
      acc := acc + w[k] * x[k];
      assert w[..k + 1][..k] == w[..k] && x[..k + 1][..k] == x[..k];
    }
    assert w[..|w|] == w && x[..|w|] == x;
    y := (acc as real * xs) * ws + bias;
  }
}
