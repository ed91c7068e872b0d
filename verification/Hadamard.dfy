/** The block Hadamard rotation: the recursive transform, its matrix, and the
    in-place butterfly that computes it. */
module Hadamard {
  import opened Vectors

  predicate IsPow2(n: nat) {
    n == 1 || (n > 1 && n % 2 == 0 && IsPow2(n / 2))
  }

  /** The unnormalised Sylvester-Hadamard transform of a row of 2^m entries. */
  function Had(v: Vec): (r: Vec)
    requires IsPow2(|v|)
    ensures |r| == |v|
    decreases |v|
  {
    if |v| == 1 then v
    else
      var h := |v| / 2;
      var lo, hi := Had(v[..h]), Had(v[h..]);
      Add(lo, hi) + Sub(lo, hi)
  }

  lemma HadSplit(lo: Vec, hi: Vec)
    requires |lo| == |hi| && IsPow2(|lo|)
    ensures IsPow2(|lo + hi|)
    ensures Had(lo + hi) == Add(Had(lo), Had(hi)) + Sub(Had(lo), Had(hi))
  {
    var v := lo + hi;
    assert v[..|v| / 2] == lo && v[|v| / 2..] == hi;
  }

  // ---------- the matrix ----------

  /** The number of one bits that `r` and `c` share is odd. */
  predicate OddOverlap(r: nat, c: nat) {
    r != 0 && c != 0 && ((r % 2 == 1 && c % 2 == 1) != OddOverlap(r / 2, c / 2))
  }

  /** Row `r` of the sign matrix (-1)^popcount(r & c) times `v`. */
  function SignedSum(v: Vec, r: nat): real {
    if |v| == 0 then 0.0
    else SignedSum(v[..|v| - 1], r) + (if OddOverlap(r, |v| - 1) then -v[|v| - 1] else v[|v| - 1])
  }

  /** A bit above all others changes the overlap only where both have it. */
  lemma {:induction false} OverlapTopBit(h: nat, r: nat, c: nat)
    requires IsPow2(h) && r < h && c < h
    ensures OddOverlap(r, h + c) == OddOverlap(r, c)
    ensures OddOverlap(h + r, c) == OddOverlap(r, c)
    ensures OddOverlap(h + r, h + c) == !OddOverlap(r, c)
  {
    if h > 1 {
      OverlapTopBit(h / 2, r / 2, c / 2);
      assert (h + r) / 2 == h / 2 + r / 2 && (h + c) / 2 == h / 2 + c / 2;
    } else {
      assert OddOverlap(1, 1) == !OddOverlap(0, 0);
    }
  }

  lemma {:induction false} SignedSumConcat(h: nat, lo: Vec, hi: Vec, r: nat, n: nat)
    requires IsPow2(h) && |lo| == h && |hi| == h && r < h && n <= h
    ensures SignedSum(lo + hi[..n], r) == SignedSum(lo, r) + SignedSum(hi[..n], r)
    ensures SignedSum(lo + hi[..n], h + r) == SignedSum(lo, h + r) - SignedSum(hi[..n], r)
    decreases n
  {
    if n == 0 {
      assert lo + hi[..0] == lo;
    } else {
      SignedSumConcat(h, lo, hi, r, n - 1);
      assert (lo + hi[..n])[..h + n - 1] == lo + hi[..n - 1];
      assert hi[..n][..n - 1] == hi[..n - 1];
      OverlapTopBit(h, r, n - 1);
    }
  }

  lemma {:induction false} SignedSumTopBit(h: nat, v: Vec, r: nat)
    requires IsPow2(h) && |v| <= h && r < h
    ensures SignedSum(v, h + r) == SignedSum(v, r)
    decreases |v|
  {
    if |v| > 0 {
      SignedSumTopBit(h, v[..|v| - 1], r);
      OverlapTopBit(h, r, |v| - 1);
    }
  }

  /** The transform is the Sylvester-Hadamard matrix in natural order: entry `r` is
      the sum over `c` of (-1)^popcount(r & c) v[c]. */
  lemma {:induction false} HadIsSignMatrix(v: Vec, r: nat)
    requires IsPow2(|v|) && r < |v|
    ensures Had(v)[r] == SignedSum(v, r)
    decreases |v|
  {
    if |v| == 1 {
      assert SignedSum(v, 0) == SignedSum(v[..0], 0) + v[0];
    } else {
      Halves(v);
      hide Had, SignedSum, IsPow2;
      var h := |v| / 2;
      var q := if r < h then r else r - h;
      HadIsSignMatrix(v[..h], q);
      HadIsSignMatrix(v[h..], q);
      SignMatrixStep(v[..h], v[h..], r);
    }
  }

  /** A row of more than one entry is two rows of half its length. */
  lemma Halves(v: Vec)
    requires IsPow2(|v|) && |v| > 1
    ensures IsPow2(|v| / 2) && |v| == |v| / 2 + |v| / 2 && v == v[..|v| / 2] + v[|v| / 2..]
  {
  }

  lemma SignMatrixStep(lo: Vec, hi: Vec, r: nat)
    requires |lo| == |hi| && IsPow2(|lo|) && r < |lo| + |hi|
    requires var q := if r < |lo| then r else r - |lo|;
             Had(lo)[q] == SignedSum(lo, q) && Had(hi)[q] == SignedSum(hi, q)
    ensures IsPow2(|lo + hi|) && Had(lo + hi)[r] == SignedSum(lo + hi, r)
  {
    hide Had, SignedSum, IsPow2;
    HadSplit(lo, hi);
    SignedSumHalves(|lo|, lo, hi, if r < |lo| then r else r - |lo|);
  }

  lemma SignedSumHalves(h: nat, lo: Vec, hi: Vec, r: nat)
    requires IsPow2(h) && |lo| == h && |hi| == h && r < h
    ensures SignedSum(lo + hi, r) == SignedSum(lo, r) + SignedSum(hi, r)
    ensures SignedSum(lo + hi, h + r) == SignedSum(lo, r) - SignedSum(hi, r)
  {
    SignedSumConcat(h, lo, hi, r, h);
    SignedSumTopBit(h, lo, r);
    assert hi[..h] == hi;
  }

  // ---------- algebra ----------

  /** The transform is additive. */
  lemma HadAdd(x: Vec, y: Vec)
    requires |x| == |y| && IsPow2(|x|)
    ensures Had(Add(x, y)) == Add(Had(x), Had(y))
  {
    hide Had, SignedSum, OddOverlap, IsPow2;
    forall r | 0 <= r < |x| ensures Had(Add(x, y))[r] == Had(x)[r] + Had(y)[r] {
      HadIsSignMatrix(x, r);
      HadIsSignMatrix(y, r);
      HadIsSignMatrix(Add(x, y), r);
      SignedSumAdd(x, y, r);
    }
  }

  lemma HadSub(x: Vec, y: Vec)
    requires |x| == |y| && IsPow2(|x|)
    ensures Had(Sub(x, y)) == Sub(Had(x), Had(y))
  {
    hide Had, SignedSum, OddOverlap, IsPow2;
    forall r | 0 <= r < |x| ensures Had(Sub(x, y))[r] == Had(x)[r] - Had(y)[r] {
      HadIsSignMatrix(x, r);
      HadIsSignMatrix(y, r);
      HadIsSignMatrix(Sub(x, y), r);
      SignedSumSub(x, y, r);
    }
  }

  lemma HadScale(c: real, x: Vec)
    requires IsPow2(|x|)
    ensures Had(Scale(c, x)) == Scale(c, Had(x))
  {
    hide Had, SignedSum, OddOverlap, IsPow2, Times;
    forall r | 0 <= r < |x| ensures Had(Scale(c, x))[r] == Times(Had(x)[r], c) {
      HadIsSignMatrix(x, r);
      HadIsSignMatrix(Scale(c, x), r);
      SignedSumScale(c, x, r);
    }
  }

  lemma {:induction false} SignedSumAdd(x: Vec, y: Vec, r: nat)
    requires |x| == |y|
    ensures SignedSum(Add(x, y), r) == SignedSum(x, r) + SignedSum(y, r)
    decreases |x|
  {
    if |x| > 0 {
      var n := |x| - 1;
      SignedSumAdd(x[..n], y[..n], r);
      assert Add(x, y)[..n] == Add(x[..n], y[..n]);
    }
  }

  lemma {:induction false} SignedSumSub(x: Vec, y: Vec, r: nat)
    requires |x| == |y|
    ensures SignedSum(Sub(x, y), r) == SignedSum(x, r) - SignedSum(y, r)
    decreases |x|
  {
    if |x| > 0 {
      var n := |x| - 1;
      SignedSumSub(x[..n], y[..n], r);
      assert Sub(x, y)[..n] == Sub(x[..n], y[..n]);
    }
  }

  lemma {:induction false} SignedSumScale(c: real, x: Vec, r: nat)
    ensures SignedSum(Scale(c, x), r) == Times(SignedSum(x, r), c)
    decreases |x|
  {
    if |x| > 0 {
      var n := |x| - 1;
      SignedSumScale(c, x[..n], r);
      ScalePrefix(c, x, n);
    }
  }

  /** Transforming twice multiplies by the length. */
  lemma {:induction false} HadTwice(v: Vec)
    requires IsPow2(|v|)
    ensures Had(Had(v)) == Scale(|v| as real, v)
    decreases |v|
  {
    if |v| > 1 {
      Halves(v);
      hide Had, Scale, IsPow2;
      var h := |v| / 2;
      HadTwice(v[..h]);
      HadTwice(v[h..]);
      HadTwiceStep(v[..h], v[h..]);
    } else {
      assert Scale(1.0, v) == v;
    }
  }

  lemma HadTwiceStep(lo: Vec, hi: Vec)
    requires |lo| == |hi| && IsPow2(|lo|)
    requires Had(Had(lo)) == Scale(|lo| as real, lo) && Had(Had(hi)) == Scale(|hi| as real, hi)
    ensures IsPow2(|lo + hi|) && Had(Had(lo + hi)) == Scale(|lo + hi| as real, lo + hi)
  {
    hide Had, Scale, IsPow2, Add;
    HadTwiceHalves(lo, hi);
    TwiceScale(|lo| as real, lo);
    TwiceScale(|hi| as real, hi);
    ScaleConcat(|lo + hi| as real, lo, hi);
  }

  lemma TwiceScale(c: real, v: Vec)
    ensures Add(Scale(c, v), Scale(c, v)) == Scale(c + c, v)
  {
    forall i | 0 <= i < |v| ensures Times(v[i], c) + Times(v[i], c) == Times(v[i], c + c) { }
  }

  lemma ScaleConcat(c: real, a: Vec, b: Vec)
    ensures Scale(c, a + b) == Scale(c, a) + Scale(c, b)
  {
    forall i | 0 <= i < |a| + |b| ensures Scale(c, a + b)[i] == (Scale(c, a) + Scale(c, b))[i] {
    }
  }

  lemma SumAndDifference(a: Vec, b: Vec)
    requires |a| == |b|
    ensures Add(Add(a, b), Sub(a, b)) == Add(a, a) && Sub(Add(a, b), Sub(a, b)) == Add(b, b)
  {
  }

  lemma HadTwiceHalves(lo: Vec, hi: Vec)
    requires |lo| == |hi| && IsPow2(|lo|)
    ensures IsPow2(|lo + hi|)
    ensures Had(Had(lo + hi)) == Add(Had(Had(lo)), Had(Had(lo))) + Add(Had(Had(hi)), Had(Had(hi)))
  {
    hide Had, IsPow2;
    var a, b := Had(lo), Had(hi);
    HadSplit(lo, hi);
    HadSplit(Add(a, b), Sub(a, b));
    HadAdd(a, b);
    HadSub(a, b);
    SumAndDifference(Had(a), Had(b));
  }

  /** The transform is symmetric. */
  lemma {:induction false} HadSymmetric(x: Vec, y: Vec)
    requires |x| == |y| && IsPow2(|x|)
    ensures Dot(Had(x), y) == Dot(x, Had(y))
    decreases |x|
  {
    if |x| > 1 {
      var h := |x| / 2;
      var a, b, c, d := x[..h], x[h..], y[..h], y[h..];
      assert x == a + b && y == c + d;
      HadSplit(a, b);
      HadSplit(c, d);
      hide Had, Dot, Add, Sub, IsPow2;
      HadSymmetric(a, c);
      HadSymmetric(a, d);
      HadSymmetric(b, c);
      HadSymmetric(b, d);
      DotHalves(Had(a), Had(b), c, d);
      DotHalves(Had(c), Had(d), a, b);
      DotComm(x, Had(y));
      DotComm(Had(c), a);
      DotComm(Had(d), a);
      DotComm(Had(c), b);
      DotComm(Had(d), b);
    }
  }

  lemma DotHalves(p: Vec, q: Vec, c: Vec, d: Vec)
    requires |p| == |q| == |c| == |d|
    ensures Dot(Add(p, q) + Sub(p, q), c + d) == Dot(p, c) + Dot(q, c) + Dot(p, d) - Dot(q, d)
  {
    DotConcat(Add(p, q), Sub(p, q), c, d);
    DotAdd(p, q, c);
    DotSub(p, q, d);
  }
}
