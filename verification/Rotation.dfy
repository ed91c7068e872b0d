/** The block rotation of a row: its laws, the loops that compute it in place, and
    the offline matrix product that it undoes. */
module Rotation {
  import opened Vectors
  import opened Hadamard
  import MixedRadix

  /** `n` is a whole number of pieces of length `h`. */
  predicate Multiple(n: nat, h: nat) {
    h > 0 && (n == 0 || (n >= h && Multiple(n - h, h)))
  }

  /** The transform on every block of `h` entries. */
  function Blockwise(v: Vec, h: nat): (r: Vec)
    requires IsPow2(h) && Multiple(|v|, h)
    ensures |r| == |v|
    decreases |v|
  {
    if |v| == 0 then [] else Had(v[..h]) + Blockwise(v[h..], h)
  }

  /** The normalised rotation of a row. */
  function Rotate(v: Vec, bs: nat, inv: real): (r: Vec)
    requires IsPow2(bs) && Multiple(|v|, bs)
    ensures |r| == |v|
  {
    Scale(inv, Blockwise(v, bs))
  }

  lemma {:induction false} MultipleIffDivides(n: nat, h: nat)
    requires h > 0
    ensures Multiple(n, h) <==> n % h == 0
    decreases n
  {
    if n >= h {
      MultipleIffDivides(n - h, h);
      RemainderMinus(n, h);
    }
  }

  lemma RemainderMinus(n: nat, h: nat)
    requires 0 < h <= n
    ensures (n - h) % h == n % h
  {
    assert n == n / h * h + n % h && (n / h - 1) * h == n / h * h - h;
    MixedRadix.DivUnique((n - h) / h, (n - h) % h, n / h - 1, n % h, h);
  }

  lemma {:induction false} MultipleSum(m: nat, n: nat, h: nat)
    requires Multiple(m, h) && Multiple(n, h)
    ensures Multiple(m + n, h)
    decreases m
  {
    if m > 0 {
      MultipleSum(m - h, n, h);
    }
  }

  lemma TakeDrop(a: Vec, b: Vec, n: nat)
    requires n <= |a|
    ensures (a + b)[..n] == a[..n] && (a + b)[n..] == a[n..] + b
  {
  }

  lemma BlockwiseStep(v: Vec, h: nat)
    requires IsPow2(h) && Multiple(|v|, h) && |v| > 0
    ensures |v| >= h && Multiple(|v| - h, h) && Blockwise(v, h) == Had(v[..h]) + Blockwise(v[h..], h)
  {
  }

  lemma ConcatAssociative(a: Vec, b: Vec, c: Vec)
    ensures a + (b + c) == (a + b) + c
  {
  }

  lemma {:induction false} BlockwiseAppend(a: Vec, b: Vec, h: nat)
    requires IsPow2(h) && Multiple(|a|, h) && Multiple(|b|, h)
    ensures Multiple(|a + b|, h) && Blockwise(a + b, h) == Blockwise(a, h) + Blockwise(b, h)
    decreases |a|
  {
    MultipleSum(|a|, |b|, h);
    if |a| == 0 {
      assert a + b == b;
    } else {
      hide Blockwise, Multiple, IsPow2;
      assert |a + b| > 0;
      BlockwiseStep(a, h);
      BlockwiseStep(a + b, h);
      TakeDrop(a, b, h);
      BlockwiseAppend(a[h..], b, h);
      ConcatAssociative(Had(a[..h]), Blockwise(a[h..], h), Blockwise(b, h));
    }
  }

  // ---------- laws ----------

  lemma {:induction false} BlockwiseSymmetric(x: Vec, y: Vec, h: nat)
    requires IsPow2(h) && |x| == |y| && Multiple(|x|, h)
    ensures Dot(Blockwise(x, h), y) == Dot(x, Blockwise(y, h))
    decreases |x|
  {
    if |x| > 0 {
      hide Blockwise, Dot, Had, Multiple, IsPow2;
      BlockwiseStep(x, h);
      BlockwiseStep(y, h);
      var a, b, c, d := x[..h], x[h..], y[..h], y[h..];
      assert x == a + b && y == c + d;
      HadSymmetric(a, c);
      BlockwiseSymmetric(b, d, h);
      DotConcat(Had(a), Blockwise(b, h), c, d);
      DotConcat(a, b, Had(c), Blockwise(d, h));
    }
  }

  lemma {:induction false} BlockwiseScale(c: real, x: Vec, h: nat)
    requires IsPow2(h) && Multiple(|x|, h)
    ensures Blockwise(Scale(c, x), h) == Scale(c, Blockwise(x, h))
    decreases |x|
  {
    if |x| > 0 {
      HadScale(c, x[..h]);
      BlockwiseScale(c, x[h..], h);
      ScaleConcat(c, x[..h], x[h..]);
      ScaleConcat(c, Had(x[..h]), Blockwise(x[h..], h));
      assert x == x[..h] + x[h..];
    }
  }

  lemma {:induction false} BlockwiseTwice(x: Vec, h: nat)
    requires IsPow2(h) && Multiple(|x|, h)
    ensures Blockwise(Blockwise(x, h), h) == Scale(h as real, x)
    decreases |x|
  {
    if |x| > 0 {
      var a, b := Had(x[..h]), Blockwise(x[h..], h);
      assert (a + b)[..h] == a && (a + b)[h..] == b;
      HadTwice(x[..h]);
      BlockwiseTwice(x[h..], h);
      ScaleConcat(h as real, x[..h], x[h..]);
      assert x == x[..h] + x[h..];
    }
  }

  /** The rotation is symmetric. */
  lemma RotateSymmetric(x: Vec, y: Vec, bs: nat, inv: real)
    requires IsPow2(bs) && |x| == |y| && Multiple(|x|, bs)
    ensures Dot(Rotate(x, bs, inv), y) == Dot(x, Rotate(y, bs, inv))
  {
    hide Blockwise, Scale, Dot, Multiple, IsPow2;
    var bx, yb := Blockwise(x, bs), Blockwise(y, bs);
    BlockwiseSymmetric(x, y, bs);
    DotScale(inv, bx, y);
    DotComm(x, Scale(inv, yb));
    DotScale(inv, yb, x);
    DotComm(yb, x);
  }

  /** Normalised, the rotation is its own inverse. */
  lemma RotateTwice(x: Vec, bs: nat, inv: real)
    requires IsPow2(bs) && Multiple(|x|, bs) && inv * inv * (bs as real) == 1.0
    ensures Rotate(Rotate(x, bs, inv), bs, inv) == x
  {
    hide Blockwise, Scale, Multiple, IsPow2;
    BlockwiseScale(inv, Blockwise(x, bs), bs);
    BlockwiseTwice(x, bs);
    ScaleThrice(inv, bs as real, x);
  }

  lemma ScaleThrice(inv: real, n: real, x: Vec)
    requires inv * inv * n == 1.0
    ensures Scale(inv, Scale(inv, Scale(n, x))) == x
  {
    forall i | 0 <= i < |x| ensures Times(Times(Times(x[i], n), inv), inv) == x[i] {
      assert ((x[i] * n) * inv) * inv == x[i] * (inv * inv * n);
    }
  }

  /** Rotating both factors of a dot product leaves it alone: a weight folded
      offline and an activation rotated at run time cancel. */
  lemma RotationsCancel(w: Vec, x: Vec, bs: nat, inv: real)
    requires IsPow2(bs) && |w| == |x| && Multiple(|x|, bs) && inv * inv * (bs as real) == 1.0
    ensures Dot(Rotate(w, bs, inv), Rotate(x, bs, inv)) == Dot(w, x)
  {
    RotateSymmetric(w, Rotate(x, bs, inv), bs, inv);
    RotateTwice(x, bs, inv);
  }

  // ---------- the offline matrix ----------

  /** Whether entry (r, c) of the n by n matrix built by doubling, [[H, H], [H, -H]],
      is negative. */
  predicate Negative(n: nat, r: nat, c: nat)
    requires IsPow2(n) && r < n && c < n
    decreases n
  {
    n > 1 &&
    var h := n / 2;
    if r < h then Negative(h, r, if c < h then c else c - h)
    else if c < h then Negative(h, r - h, c)
    else !Negative(h, r - h, c - h)
  }

  lemma {:induction false} NegativeIsOverlap(n: nat, r: nat, c: nat)
    requires IsPow2(n) && r < n && c < n
    ensures Negative(n, r, c) <==> OddOverlap(r, c)
    decreases n
  {
    if n > 1 {
      var h := n / 2;
      var r0, c0 := if r < h then r else r - h, if c < h then c else c - h;
      NegativeIsOverlap(h, r0, c0);
      OverlapTopBit(h, r0, c0);
    }
  }

  /** Row `r` of the doubled matrix times the first entries of a block. */
  function MatrixSum(n: nat, v: Vec, r: nat): real
    requires IsPow2(n) && |v| <= n && r < n
  {
    if |v| == 0 then 0.0
    else
      var m := |v| - 1;
      MatrixSum(n, v[..m], r) + if Negative(n, r, m) then -v[m] else v[m]
  }

  lemma {:induction false} MatrixSumIsSigned(n: nat, v: Vec, r: nat)
    requires IsPow2(n) && |v| <= n && r < n
    ensures MatrixSum(n, v, r) == SignedSum(v, r)
    decreases |v|
  {
    if |v| > 0 {
      MatrixSumIsSigned(n, v[..|v| - 1], r);
      NegativeIsOverlap(n, r, |v| - 1);
    }
  }

  /** A weight row times the normalised matrix, block by block. */
  function FoldRow(w: Vec, bs: nat, inv: real): (r: Vec)
    requires IsPow2(bs) && Multiple(|w|, bs)
    ensures |r| == |w|
    decreases |w|
  {
    if |w| == 0 then []
    else seq(bs, r requires 0 <= r < bs => Times(MatrixSum(bs, w[..bs], r), inv)) + FoldRow(w[bs..], bs, inv)
  }

  /** The offline fold is the rotation. */
  lemma {:induction false} FoldIsRotate(w: Vec, bs: nat, inv: real)
    requires IsPow2(bs) && Multiple(|w|, bs)
    ensures FoldRow(w, bs, inv) == Rotate(w, bs, inv)
    decreases |w|
  {
    if |w| > 0 {
      FoldIsRotate(w[bs..], bs, inv);
      ScaleConcat(inv, Had(w[..bs]), Blockwise(w[bs..], bs));
      forall r | 0 <= r < bs ensures Times(MatrixSum(bs, w[..bs], r), inv) == Scale(inv, Had(w[..bs]))[r] {
        MatrixSumIsSigned(bs, w[..bs], r);
        HadIsSignMatrix(w[..bs], r);
      }
    }
  }

  /** Folding a weight offline and rotating the activation at run time leaves every
      product as it was. */
  lemma FoldedProduct(w: Vec, x: Vec, bs: nat, inv: real)
    requires IsPow2(bs) && |w| == |x| && Multiple(|x|, bs) && inv * inv * (bs as real) == 1.0
    ensures Dot(FoldRow(w, bs, inv), Rotate(x, bs, inv)) == Dot(w, x)
  {
    FoldIsRotate(w, bs, inv);
    RotationsCancel(w, x, bs, inv);
  }

  // ---------- the in-place butterfly ----------

  /** One pair of neighbouring blocks combined: sums, then differences. */
  function Butterfly(c: Vec): (r: Vec)
    requires |c| % 2 == 0
    ensures |r| == |c|
  {
    Add(c[..|c| / 2], c[|c| / 2..]) + Sub(c[..|c| / 2], c[|c| / 2..])
  }

  /** Every pair of neighbouring blocks of `h` entries combined. */
  function Stage(u: Vec, h: nat): (r: Vec)
    requires Multiple(|u|, h + h)
    ensures |r| == |u|
    decreases |u|
  {
    if |u| == 0 then [] else Butterfly(u[..h + h]) + Stage(u[h + h..], h)
  }

  lemma {:induction false} StageAppend(a: Vec, b: Vec, h: nat)
    requires Multiple(|a|, h + h) && Multiple(|b|, h + h)
    ensures Multiple(|a + b|, h + h) && Stage(a + b, h) == Stage(a, h) + Stage(b, h)
    decreases |a|
  {
    MultipleSum(|a|, |b|, h + h);
    if |a| == 0 {
      assert a + b == b;
    } else {
      hide Stage;
      StageStep(a, h);
      StageAppend(a[h + h..], b, h);
      StageAppendStep(a, b, h);
    }
  }

  lemma {:induction false} StageAppendStep(a: Vec, b: Vec, h: nat)
    requires Multiple(|a|, h + h) && Multiple(|b|, h + h) && Multiple(|a + b|, h + h)
    requires |a| >= h + h > 0 && Multiple(|a| - h - h, h + h) && Multiple(|a[h + h..] + b|, h + h)
    requires Stage(a[h + h..] + b, h) == Stage(a[h + h..], h) + Stage(b, h)
    ensures Stage(a + b, h) == Stage(a, h) + Stage(b, h)
  {
    hide Stage, Butterfly, Multiple;
    assert |a + b| > 0;
    StageStep(a, h);
    StageStep(a + b, h);
    TakeDrop(a, b, h + h);
    ConcatAssociative(Butterfly(a[..h + h]), Stage(a[h + h..], h), Stage(b, h));
  }

  lemma StageStep(u: Vec, h: nat)
    requires Multiple(|u|, h + h) && |u| > 0
    ensures |u| >= h + h && Multiple(|u| - h - h, h + h)
    ensures Stage(u, h) == Butterfly(u[..h + h]) + Stage(u[h + h..], h)
  {
  }

  lemma {:induction false} HalvesMultiple(n: nat, h: nat)
    requires Multiple(n, h + h)
    ensures Multiple(n, h)
    decreases n
  {
    if n > 0 {
      HalvesMultiple(n - h - h, h);
      assert Multiple(n - h, h);
    }
  }

  lemma {:induction false} DoubleMultiple(n: nat, h: nat)
    requires Multiple(n, h)
    ensures Multiple(n + n, h + h)
    decreases n
  {
    if n > 0 {
      DoubleMultiple(n - h, h);
    }
  }

  lemma {:induction false} SmallerPow2(h: nat, n: nat)
    requires IsPow2(h) && IsPow2(n) && h <= n
    ensures Multiple(n, h)
    decreases n
  {
    if h == 1 {
      MultipleOfOne(n);
    } else {
      SmallerPow2(h / 2, n / 2);
      DoubleMultiple(n / 2, h / 2);
    }
  }

  lemma {:induction false} MultipleOfOne(n: nat)
    ensures Multiple(n, 1)
    decreases n
  {
    if n > 0 {
      MultipleOfOne(n - 1);
    }
  }

  /** Two powers of two that differ, differ by a factor of at least two. */
  lemma {:induction false} NextPow2(h: nat, n: nat)
    requires IsPow2(h) && IsPow2(n) && h < n
    ensures IsPow2(h + h) && h + h <= n
    decreases n
  {
    if h > 1 {
      NextPow2(h / 2, n / 2);
    }
  }

  /** A stage turns blocks of `h` transformed entries into blocks of `2h`. */
  lemma {:induction false} StageDoubles(v: Vec, h: nat)
    requires IsPow2(h) && IsPow2(h + h) && Multiple(|v|, h + h) && Multiple(|v|, h)
    ensures Stage(Blockwise(v, h), h) == Blockwise(v, h + h)
    decreases |v|
  {
    if |v| > 0 {
      var p, rest := v[..h + h], v[h + h..];
      assert v == p + rest;
      HalvesMultiple(|rest|, h);
      hide Stage, Blockwise, IsPow2, Multiple;
      StageDoubles(rest, h);
      PairDoubles(p, h);
      BlockwiseAppend(p, rest, h);
      BlockwiseAppend(p, rest, h + h);
      StageAppend(Blockwise(p, h), Blockwise(rest, h), h);
    }
  }

  /** A stage on two blocks. */
  lemma PairDoubles(p: Vec, h: nat)
    requires IsPow2(h) && IsPow2(h + h) && |p| == h + h
    ensures Multiple(|p|, h) && Multiple(|p|, h + h)
    ensures Stage(Blockwise(p, h), h) == Blockwise(p, h + h)
  {
    var a, b := p[..h], p[h..];
    assert p == a + b;
    BlockwiseOne(a, h);
    BlockwiseOne(b, h);
    BlockwiseOne(p, h + h);
    BlockwiseAppend(a, b, h);
    StageOne(Had(a) + Had(b), h);
    HadSplit(a, b);
    hide Stage, Blockwise, Had, IsPow2, Multiple;
    assert (Had(a) + Had(b))[..h] == Had(a) && (Had(a) + Had(b))[h..] == Had(b);
  }

  /** `y` with the entries from `lo` on replaced by `c`. */
  function Replace(y: Vec, lo: nat, c: Vec): (r: Vec)
    requires lo + |c| <= |y|
    ensures |r| == |y|
  {
    y[..lo] + c + y[lo + |c|..]
  }

  /** Combines the blocks of `h` entries at `lo` and after it. */
  method CombinePair(y: array<real>, lo: nat, h: nat)
    requires lo + h + h <= y.Length
    modifies y
    ensures y[..] == Replace(old(y[..]), lo, Butterfly(old(y[..])[lo..lo + h + h]))
  {
    ghost var was := y[..];
    for j := lo to lo + h
      invariant forall p {:trigger y[p]} :: lo <= p < j ==> y[p] == was[p] + was[p + h]
      invariant forall p {:trigger y[p]} :: lo + h <= p < j + h ==> y[p] == was[p - h] - was[p]
      invariant forall p {:trigger y[p]} :: 0 <= p < lo || j <= p < lo + h || j + h <= p < y.Length ==> y[p] == was[p]
    {
      var a, c := y[j], y[j + h];
      y[j] := a + c;
      y[j + h] := a - c;
    }
    PairCombined(was, y[..], lo, h);
  }

  lemma PairCombined(was: Vec, now: Vec, lo: nat, h: nat)
    requires lo + h + h <= |was| == |now|
    requires forall p {:trigger now[p]} :: lo <= p < lo + h ==> now[p] == was[p] + was[p + h]
    requires forall p {:trigger now[p]} :: lo + h <= p < lo + h + h ==> now[p] == was[p - h] - was[p]
    requires forall p {:trigger now[p]} :: 0 <= p < lo || lo + h + h <= p < |was| ==> now[p] == was[p]
    ensures now == Replace(was, lo, Butterfly(was[lo..lo + h + h]))
  {
    hide Butterfly, Replace;
    forall p | 0 <= p < |now| ensures now[p] == Replace(was, lo, Butterfly(was[lo..lo + h + h]))[p] {
      PairEntry(was, lo, h, p);
      assert now[p] == if lo <= p < lo + h then was[p] + was[p + h]
                       else if lo + h <= p < lo + h + h then was[p - h] - was[p] else was[p];
    }
  }

  lemma PairEntry(was: Vec, lo: nat, h: nat, p: nat)
    requires lo + h + h <= |was| && p < |was|
    ensures Replace(was, lo, Butterfly(was[lo..lo + h + h]))[p]
            == if lo <= p < lo + h then was[p] + was[p + h]
               else if lo + h <= p < lo + h + h then was[p - h] - was[p] else was[p]
  {
    hide Butterfly, Replace;
    var c := was[lo..lo + h + h];
    ReplaceAt(was, lo, Butterfly(c), p);
    if lo <= p < lo + h + h {
      ButterflyAt(c, p - lo);
    }
  }

  lemma ReplaceAt(y: Vec, lo: nat, c: Vec, p: nat)
    requires lo + |c| <= |y| && p < |y|
    ensures Replace(y, lo, c)[p] == if lo <= p < lo + |c| then c[p - lo] else y[p]
  {
  }

  lemma ButterflyAt(c: Vec, p: nat)
    requires |c| % 2 == 0 && p < |c|
    ensures var h := |c| / 2; Butterfly(c)[p] == if p < h then c[p] + c[p + h] else c[p - h] - c[p]
  {
  }

  /** Of a row in three pieces, the next `n` entries of the last replaced by `c`. */
  lemma ReplaceNext(p: Vec, s: Vec, t: Vec, c: Vec)
    requires |c| <= |t|
    ensures (p + s + t)[|p| + |s|..|p| + |s| + |c|] == t[..|c|]
    ensures Replace(p + s + t, |p| + |s|, c) == p + (s + c) + t[|c|..]
  {
  }

  /** Row `p + t` whose stage, on the part `t`, has reached entry `i` of it. */
  function StageUpTo(p: Vec, t: Vec, i: nat, h: nat): (r: Vec)
    requires i <= |t| && Multiple(i, h + h)
    ensures |r| == |p| + |t|
  {
    p + Stage(t[..i], h) + t[i..]
  }

  lemma StageMoves(p: Vec, t: Vec, i: nat, h: nat)
    requires h > 0 && i + h + h <= |t| && Multiple(i, h + h)
    ensures Multiple(i + h + h, h + h)
    ensures var r := StageUpTo(p, t, i, h);
            Replace(r, |p| + i, Butterfly(r[|p| + i..|p| + i + h + h])) == StageUpTo(p, t, i + h + h, h)
  {
    hide Butterfly, Stage, Replace, Multiple;
    StageGrows(t, i, h);
    DropDrop(t, i, h + h);
    ReplaceNext(p, Stage(t[..i], h), t[i..], Butterfly(t[i..][..h + h]));
  }

  lemma DropDrop(t: Vec, i: nat, n: nat)
    requires i + n <= |t|
    ensures t[i..][n..] == t[i + n..]
  {
  }

  lemma StageEnds(was: Vec, b: nat, bs: nat, h: nat)
    requires h > 0 && b + bs <= |was| && Multiple(bs, h + h)
    ensures Multiple(0, h + h) && StageUpTo(was[..b], was[b..], 0, h) == was
    ensures StageUpTo(was[..b], was[b..], bs, h) == Replace(was, b, Stage(was[b..b + bs], h))
  {
    StageNone(h);
    hide Stage, Multiple;
    assert was[b..][..0] == [] && was[b..][0..] == was[b..];
    assert was[b..][..bs] == was[b..b + bs];
    DropDrop(was, b, bs);
  }

  /** One stage of the butterfly on the block at `b`. */
  method RunStage(y: array<real>, b: nat, bs: nat, h: nat)
    requires b + bs <= y.Length && Multiple(bs, h + h)
    modifies y
    ensures y[..] == Replace(old(y[..]), b, Stage(old(y[..])[b..b + bs], h))
  {
    hide Butterfly, Stage, Replace, StageUpTo;
    ghost var p, t := y[..][..b], y[..][b..];
    StageEnds(y[..], b, bs, h);
    var i := 0;
    while i < bs
      invariant i <= bs && Multiple(i, h + h) && Multiple(bs - i, h + h)
      invariant y[..] == StageUpTo(p, t, i, h)
    {
      StageMoves(p, t, i, h);
      CombinePair(y, b + i, h);
      i := i + h + h;
    }
  }

  lemma StageNone(h: nat)
    requires h > 0
    ensures Multiple(0, h + h) && Stage([], h) == []
  {
  }

  lemma StageGrows(t: Vec, i: nat, h: nat)
    requires h > 0 && i + h + h <= |t| && Multiple(i, h + h)
    ensures Multiple(i + h + h, h + h)
    ensures Stage(t[..i + h + h], h) == Stage(t[..i], h) + Butterfly(t[i..][..h + h])
  {
    hide Butterfly;
    var chunk := t[i..][..h + h];
    StageOne(chunk, h);
    StageAppend(t[..i], chunk, h);
    assert t[..i + h + h] == t[..i] + chunk;
  }

  lemma StageOne(c: Vec, h: nat)
    requires h > 0 && |c| == h + h
    ensures Multiple(|c|, h + h) && Stage(c, h) == Butterfly(c)
  {
    assert Multiple(0, h + h);
    assert c[..h + h] == c && c[h + h..] == [];
  }

  lemma BlockwiseOne(v: Vec, h: nat)
    requires IsPow2(h) && |v| == h
    ensures Multiple(|v|, h) && Blockwise(v, h) == Had(v)
  {
    assert Multiple(0, h);
    assert v[..h] == v && v[h..] == [];
  }

  lemma {:induction false} BlockwiseByOne(v: Vec)
    ensures Multiple(|v|, 1) && Blockwise(v, 1) == v
    decreases |v|
  {
    MultipleOfOne(|v|);
    if |v| > 0 {
      BlockwiseByOne(v[1..]);
    }
  }

  /** The butterfly and the normalisation on the block at `b`. */
  method RotateBlock(y: array<real>, b: nat, bs: nat, inv: real)
    requires b + bs <= y.Length && IsPow2(bs)
    modifies y
    ensures y[..] == Replace(old(y[..]), b, Scale(inv, Had(old(y[..])[b..b + bs])))
  {
    hide Stage, Blockwise, Had, Replace;
    ghost var was, v := y[..], y[..][b..b + bs];
    BlockwiseByOne(v);
    ReplaceSame(was, b, bs);
    var h := 1;
    while h < bs
      invariant IsPow2(h) && h <= bs && Multiple(bs, h)
      invariant y[..] == Replace(was, b, Blockwise(v, h))
      decreases bs - h
    {
      NextPow2(h, bs);
      SmallerPow2(h + h, bs);
      StageDoubles(v, h);
      ReplaceTwice(was, b, Blockwise(v, h), Blockwise(v, h + h));
      RunStage(y, b, bs, h);
      h := h + h;
    }
    BlockwiseOne(v, bs);
    ReplaceTwice(was, b, Had(v), Scale(inv, Had(v)));
    Normalise(y, b, bs, inv);
  }

  method Normalise(y: array<real>, b: nat, bs: nat, inv: real)
    requires b + bs <= y.Length
    modifies y
    ensures y[..] == Replace(old(y[..]), b, Scale(inv, old(y[..])[b..b + bs]))
  {
    for j := 0 to bs
      invariant forall m :: b <= m < b + j ==> y[m] == Times(old(y[m]), inv)
      invariant forall m :: 0 <= m < b || b + j <= m < y.Length ==> y[m] == old(y[m])
    {
      y[b + j] := Times(y[b + j], inv);
    }
  }

  lemma ReplaceSame(y: Vec, b: nat, n: nat)
    requires b + n <= |y|
    ensures Replace(y, b, y[b..b + n]) == y
  {
  }

  lemma ReplaceTwice(y: Vec, b: nat, c: Vec, d: Vec)
    requires b + |c| <= |y| && |d| == |c|
    ensures Replace(y, b, c)[b..b + |c|] == c
    ensures Replace(Replace(y, b, c), b, d) == Replace(y, b, d)
  {
  }

  /** Row `p + t` of which the first `b` entries of `t` have been rotated. */
  function RotatedUpTo(p: Vec, t: Vec, b: nat, bs: nat, inv: real): (r: Vec)
    requires IsPow2(bs) && b <= |t| && Multiple(b, bs)
    ensures |r| == |p| + |t|
  {
    p + Rotate(t[..b], bs, inv) + t[b..]
  }

  lemma RotationMoves(p: Vec, t: Vec, b: nat, bs: nat, inv: real)
    requires IsPow2(bs) && b + bs <= |t| && Multiple(b, bs)
    ensures Multiple(b + bs, bs)
    ensures var r := RotatedUpTo(p, t, b, bs, inv);
            Replace(r, |p| + b, Scale(inv, Had(r[|p| + b..|p| + b + bs]))) == RotatedUpTo(p, t, b + bs, bs, inv)
  {
    hide Rotate, Replace, Scale, Had, Multiple, IsPow2;
    DropDrop(t, b, bs);
    ReplaceNext(p, Rotate(t[..b], bs, inv), t[b..], Scale(inv, Had(t[b..][..bs])));
    RotateGrows(t, b, bs, inv);
  }

  lemma RotationEnds(was: Vec, lo: nat, K: nat, bs: nat, inv: real)
    requires IsPow2(bs) && lo + K <= |was| && Multiple(K, bs)
    ensures Multiple(0, bs) && RotatedUpTo(was[..lo], was[lo..], 0, bs, inv) == was
    ensures RotatedUpTo(was[..lo], was[lo..], K, bs, inv) == Replace(was, lo, Rotate(was[lo..lo + K], bs, inv))
  {
    assert Multiple(0, bs) && Rotate([], bs, inv) == [];
    hide Rotate, Multiple, IsPow2;
    assert was[lo..][..0] == [] && was[lo..][0..] == was[lo..];
    assert was[lo..][..K] == was[lo..lo + K];
    DropDrop(was, lo, K);
  }

  /** Rotates the row of `K` entries at `lo` in place. */
  method RotateRow(y: array<real>, lo: nat, K: nat, bs: nat, inv: real)
    requires lo + K <= y.Length && IsPow2(bs) && Multiple(K, bs)
    modifies y
    ensures y[..] == Replace(old(y[..]), lo, Rotate(old(y[..])[lo..lo + K], bs, inv))
  {
    hide Rotate, Replace, Scale, Had, RotatedUpTo;
    ghost var p, t := y[..][..lo], y[..][lo..];
    RotationEnds(y[..], lo, K, bs, inv);
    var b := 0;
    while b < K
      invariant b <= K && Multiple(b, bs) && Multiple(K - b, bs)
      invariant y[..] == RotatedUpTo(p, t, b, bs, inv)
    {
      RotationMoves(p, t, b, bs, inv);
      RotateBlock(y, lo + b, bs, inv);
      b := b + bs;
    }
  }

  /** Replacing all of a row. */
  lemma ReplaceAll(y: Vec, c: Vec)
    requires |c| == |y|
    ensures Replace(y, 0, c) == c && y[0..|y|] == y
  {
  }

  lemma RotateGrows(v: Vec, b: nat, bs: nat, inv: real)
    requires IsPow2(bs) && Multiple(b, bs) && b + bs <= |v|
    ensures Multiple(b + bs, bs)
    ensures Rotate(v[..b + bs], bs, inv) == Rotate(v[..b], bs, inv) + Scale(inv, Had(v[b..][..bs]))
  {
    hide Had, Scale;
    var chunk := v[b..][..bs];
    BlockwiseOne(chunk, bs);
    BlockwiseAppend(v[..b], chunk, bs);
    ScaleConcat(inv, Blockwise(v[..b], bs), Had(chunk));
    assert v[..b + bs] == v[..b] + chunk;
  }
}
