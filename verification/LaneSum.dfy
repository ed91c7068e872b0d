/** The sum of squares in the order the kernel takes it: 32 lanes, each owning every
    32nd chunk of 64 entries, combined by an exclusive-or butterfly. */
module LaneSum {
  import opened Vectors

  const LANES := 32
  const CHUNK := 64

  function Sum(v: Vec): real {
    if |v| == 0 then 0.0 else Sum(v[..|v| - 1]) + v[|v| - 1]
  }

  lemma {:induction false} SumUpdate(v: Vec, i: nat, x: real)
    requires i < |v|
    ensures Sum(v[i := x]) == Sum(v) - v[i] + x
    decreases |v|
  {
    var n := |v| - 1;
    if i < n {
      SumUpdate(v[..n], i, x);
      assert v[i := x][..n] == v[..n][i := x];
    } else {
      assert v[i := x][..n] == v[..n];
    }
  }

  lemma {:induction false} SumZeros(v: Vec)
    requires forall i :: 0 <= i < |v| ==> v[i] == 0.0
    ensures Sum(v) == 0.0
  {
    if |v| > 0 {
      SumZeros(v[..|v| - 1]);
    }
  }

  // ---------- the butterfly ----------

  /** The sum of every `d`-th entry from `r` on. */
  function Strided(v: Vec, r: nat, d: nat): real
    requires d > 0
    decreases |v| - r
  {
    if r >= |v| then 0.0 else v[r] + Strided(v, r + d, d)
  }

  lemma {:induction false} StridedSplit(v: Vec, r: nat, d: nat)
    requires d > 0
    ensures Strided(v, r, d) == Strided(v, r, d + d) + Strided(v, r + d, d + d)
    decreases |v| - r
  {
    if r < |v| {
      StridedSplit(v, r + d, d);
      assert Strided(v, r + d, d) == Strided(v, r + d, d + d) + Strided(v, r + d + d, d + d);
    }
  }

  lemma {:induction false} StridedIsSum(v: Vec, r: nat)
    requires r <= |v|
    ensures Strided(v, r, 1) == Sum(v) - Sum(v[..r])
    decreases |v| - r
  {
    if r < |v| {
      StridedIsSum(v, r + 1);
      assert v[..r + 1][..r] == v[..r];
    } else {
      assert v[..r] == v;
    }
  }

  /** Lane `l` with the bit of `off` flipped. */
  function XorLane(l: nat, off: nat): (m: nat)
    requires l < LANES && off in {1, 2, 4, 8, 16}
    ensures m < LANES
  {
    if (l / off) % 2 == 0 then l + off else l - off
  }

  lemma MeetAt1(l: nat)
    requires l < LANES
    ensures XorLane(XorLane(l, 1), 1) == l
    ensures var a, b, c := l % 2, XorLane(l, 1) % 2, l % 1;
            (a == c && b == c + 1) || (b == c && a == c + 1)
  {
  }

  lemma MeetAt2(l: nat)
    requires l < LANES
    ensures XorLane(XorLane(l, 2), 2) == l
    ensures var a, b, c := l % 4, XorLane(l, 2) % 4, l % 2;
            (a == c && b == c + 2) || (b == c && a == c + 2)
  {
  }

  lemma MeetAt4(l: nat)
    requires l < LANES
    ensures XorLane(XorLane(l, 4), 4) == l
    ensures var a, b, c := l % 8, XorLane(l, 4) % 8, l % 4;
            (a == c && b == c + 4) || (b == c && a == c + 4)
  {
  }

  lemma MeetAt8(l: nat)
    requires l < LANES
    ensures XorLane(XorLane(l, 8), 8) == l
    ensures var a, b, c := l % 16, XorLane(l, 8) % 16, l % 8;
            (a == c && b == c + 8) || (b == c && a == c + 8)
  {
  }

  lemma MeetAt16(l: nat)
    requires l < LANES
    ensures XorLane(XorLane(l, 16), 16) == l
    ensures var a, b, c := l % 32, XorLane(l, 16) % 32, l % 16;
            (a == c && b == c + 16) || (b == c && a == c + 16)
  {
  }

  /** The two lanes that meet at `off` are the two classes modulo 2 off that make up
      one class modulo off. */
  lemma MeetingLanes(l: nat, off: nat)
    requires l < LANES && off in {1, 2, 4, 8, 16}
    ensures XorLane(XorLane(l, off), off) == l
    ensures var a, b, c := l % (off + off), XorLane(l, off) % (off + off), l % off;
            (a == c && b == c + off) || (b == c && a == c + off)
  {
    hide XorLane;
    if {
      case off == 1 => MeetAt1(l);
      case off == 2 => MeetAt2(l);
      case off == 4 => MeetAt4(l);
      case off == 8 => MeetAt8(l);
      case off == 16 => MeetAt16(l);
    }
  }

  /** One exchange: every lane adds its partner's value. */
  method Exchange(p: array<real>, off: nat, ghost v: Vec)
    requires p.Length == LANES && off in {1, 2, 4, 8, 16}
    requires forall l :: 0 <= l < LANES ==> p[l] == Strided(v, l % (off + off), off + off)
    modifies p
    ensures forall l :: 0 <= l < LANES ==> p[l] == Strided(v, l % off, off)
  {
    var t := new real[LANES];
    for l := 0 to LANES
      invariant forall m :: 0 <= m < l ==> t[m] == Strided(v, m % off, off)
      invariant forall m :: 0 <= m < LANES ==> p[m] == old(p[m])
    {
      MeetingLanes(l, off);
      StridedSplit(v, l % off, off);
      t[l] := p[l] + p[XorLane(l, off)];
    }
    for l := 0 to LANES
      invariant forall m :: 0 <= m < LANES ==> t[m] == Strided(v, m % off, off)
      invariant forall m :: 0 <= m < l ==> p[m] == t[m]
    {
      p[l] := t[l];
    }
  }

  lemma OwnClass(v: Vec, l: nat)
    requires |v| == LANES && l < LANES
    ensures Strided(v, l, LANES) == v[l]
  {
    assert Strided(v, l + LANES, LANES) == 0.0;
  }

  /** Combines the lanes; every lane ends with the total. */
  method BlockSum(p: array<real>) returns (total: real)
    requires p.Length == LANES
    modifies p
    ensures total == Sum(old(p[..]))
    ensures forall l :: 0 <= l < LANES ==> p[l] == total
  {
    ghost var v := p[..];
    forall l | 0 <= l < LANES ensures p[l] == Strided(v, l % 32, 32) {
      OwnClass(v, l);
    }
    var off := 16;
    while off > 0
      invariant off in {0, 1, 2, 4, 8, 16}
      invariant off > 0 ==> forall l :: 0 <= l < LANES ==> p[l] == Strided(v, l % (off + off), off + off)
      invariant off == 0 ==> forall l :: 0 <= l < LANES ==> p[l] == Strided(v, l % 1, 1)
    {
      Exchange(p, off, v);
      off := off / 2;
    }
    StridedIsSum(v, 0);
    assert v[..0] == [];
    total := p[0];
  }

  lemma DotGrows(x: Vec, k: nat)
    requires k < |x|
    ensures Dot(x[..k + 1], x[..k + 1]) == Dot(x[..k], x[..k]) + x[k] * x[k]
  {
    assert x[..k + 1][..k] == x[..k];
  }

  /** The sum of squares of a row of any length. */
  method SumOfSquares(x: seq<real>, partial: array<real>) returns (total: real)
    requires partial.Length == LANES
    modifies partial
    ensures total == Dot(x, x)
  {
    for t := 0 to LANES
      invariant forall m :: 0 <= m < t ==> partial[m] == 0.0
    {
      partial[t] := 0.0;
    }
    SumZeros(partial[..]);
    assert x[..0] == [];
    for k := 0 to |x|
      invariant Sum(partial[..]) == Dot(x[..k], x[..k])
    {
      var lane := (k / CHUNK) % LANES;
      ghost var was := partial[..];
      partial[lane] := partial[lane] + x[k] * x[k];
      assert partial[..] == was[lane := was[lane] + x[k] * x[k]];
      SumUpdate(was, lane, was[lane] + x[k] * x[k]);
      DotGrows(x, k);
    }
    assert x[..|x|] == x;
    total := BlockSum(partial);
  }
}
