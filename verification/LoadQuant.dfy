/** Weights quantized while they load: a scale per group, codes row by row, and for
    four bits packed nibbles and a transposed table of scales. */
module LoadQuant {
  import opened Vectors
  import opened Quantize
  import opened Integers
  import opened ActRow
  import opened MixedRadix
  import opened RowMajor

  function ClampReal(x: real, qmax: int): real
    requires qmax >= 0
  {
    if x < -qmax as real then -qmax as real else if x > qmax as real then qmax as real else x
  }

  /** The code of a weight: divide, clamp, then round. */
  function LoadCode(w: real, sc: real, qmax: int): int
    requires sc > 0.0 && qmax >= 0
  {
    RoundHalfEven(ClampReal(w / sc, qmax))
  }

  /** Clamping first makes no difference: the bounds are integers. */
  lemma LoadCodeIsCode(w: real, sc: real, qmax: int)
    requires sc > 0.0 && qmax >= 0
    ensures LoadCode(w, sc, qmax) == Code(w, sc, qmax)
  {
    assert w / sc == w * (1.0 / sc);
    ClampCommutes(w / sc, qmax);
  }

  lemma ClampCommutes(x: real, qmax: int)
    requires qmax >= 0
    ensures RoundHalfEven(ClampReal(x, qmax)) == Clamp(RoundHalfEven(x), qmax)
  {
    NearestIsRound(qmax as real, qmax);
    NearestIsRound((-qmax) as real, -qmax);
    if x <= qmax as real {
      RoundMonotone(x, qmax as real);
    } else {
      RoundMonotone(qmax as real, x);
    }
    if x <= (-qmax) as real {
      RoundMonotone(x, (-qmax) as real);
    } else {
      RoundMonotone((-qmax) as real, x);
    }
    hide RoundHalfEven;
  }

  // ---------- one group ----------

  /** The scale of a group: its largest magnitude over qmax, or one if it is zero. */
  function GroupScale(grp: Vec, qmax: int): (s: real)
    requires qmax > 0
    ensures s > 0.0
  {
    var amax := AbsMax(grp);
    if amax > 0.0 then amax / qmax as real else 1.0
  }

  /** A code within qmax that stands, at a scale, for a value within half the scale. */
  predicate HalfStep(w: real, c: int, s: real, qmax: int) {
    -qmax <= c <= qmax && Abs(w - Times(c as real, s)) <= s / 2.0
  }

  /** Every weight of a group is within half the group's scale of what its code stands
      for, a code within qmax. */
  lemma GroupHalfStep(grp: Vec, i: nat, qmax: int)
    requires qmax > 0 && i < |grp|
    ensures HalfStep(grp[i], LoadCode(grp[i], GroupScale(grp, qmax), qmax), GroupScale(grp, qmax), qmax)
  {
    hide LoadCode, Code, Times, AbsMax;
    var s := GroupScale(grp, qmax);
    LoadCodeIsCode(grp[i], s, qmax);
    Covered(AbsMax(grp), s, qmax);
    hide GroupScale;
    CoveredHalfStep(grp[i], s, qmax);
  }

  lemma CoveredHalfStep(w: real, s: real, qmax: int)
    requires qmax > 0 && s > 0.0 && Abs(w) <= (qmax as real + 0.5) * s
    ensures HalfStep(w, Code(w, s, qmax), s, qmax)
  {
    HalfStepExactly(w, s, qmax);
    hide Code;
  }

  lemma Covered(amax: real, s: real, qmax: int)
    requires qmax > 0 && s == if amax > 0.0 then amax / qmax as real else 1.0
    requires amax >= 0.0
    ensures forall w :: Abs(w) <= amax ==> Abs(w) <= (qmax as real + 0.5) * s
  {
    if amax > 0.0 {
      assert s * qmax as real == amax && s > 0.0;
    }
  }

  // ---------- one row ----------

  /** Rows of `K` entries divide into groups of `g`. */
  predicate Groups(K: nat, g: nat): (r: bool)
    ensures r ==> g > 0
  {
    g > 0 && K % g == 0
  }

  lemma GroupsArea(K: nat, g: nat)
    requires Groups(K, g)
    ensures Area(K / g, g) == K
  {
  }

  function Group(row: Vec, j: nat, g: nat): (r: Vec)
    requires Groups(|row|, g) && j < |row| / g
    ensures |r| == g
  {
    GroupInside(|row|, j, g);
    row[Area(j, g)..Area(j, g) + g]
  }

  lemma GroupInside(K: nat, j: nat, g: nat)
    requires Groups(K, g) && j < K / g
    ensures Area(j, g) + g <= K && Area(j + 1, g) == Area(j, g) + g
  {
    GroupsArea(K, g);
    AreaGrows(K / g, j, g);
    NextArea(j, g);
  }

  /** An entry lies in its group. */
  lemma InGroup(row: Vec, k: nat, g: nat)
    requires Groups(|row|, g) && k < |row|
    ensures k / g < |row| / g && Area(k / g, g) <= k < Area(k / g, g) + g
    ensures Group(row, k / g, g)[k - Area(k / g, g)] == row[k]
  {
    GroupsArea(|row|, g);
    HighBelow(k, g, |row| / g);
    JoinSplit(k, g);
    JoinOffset(k / g, k % g, g);
    GroupInside(|row|, k / g, g);
    hide Area;
  }

  function RowScales(row: Vec, g: nat, qmax: int): (r: Vec)
    requires Groups(|row|, g) && qmax > 0
    ensures |r| == |row| / g && forall j :: 0 <= j < |r| ==> r[j] > 0.0
  {
    seq(|row| / g, j requires 0 <= j < |row| / g => GroupScale(Group(row, j, g), qmax))
  }

  function CodeAt(row: Vec, k: nat, g: nat, qmax: int): int
    requires Groups(|row|, g) && qmax > 0 && k < |row|
  {
    InGroup(row, k, g);
    LoadCode(row[k], GroupScale(Group(row, k / g, g), qmax), qmax)
  }

  function RowCodes(row: Vec, g: nat, qmax: int): (r: seq<int>)
    requires Groups(|row|, g) && qmax > 0
    ensures |r| == |row|
  {
    seq(|row|, k requires 0 <= k < |row| => CodeAt(row, k, g, qmax))
  }

  /** A row read back is within half a scale of the row. */
  lemma RowHalfStep(row: Vec, k: nat, g: nat, qmax: int)
    requires Groups(|row|, g) && qmax > 0 && k < |row|
    ensures k / g < |row| / g
    ensures HalfStep(row[k], RowCodes(row, g, qmax)[k], RowScales(row, g, qmax)[k / g], qmax)
  {
    InGroup(row, k, g);
    hide HalfStep, GroupScale, LoadCode, Group, Groups, Area;
    GroupHalfStep(Group(row, k / g, g), k - Area(k / g, g), qmax);
  }

  // ---------- the matrix ----------

  function CodeRows(rows: seq<Vec>, K: nat, g: nat, qmax: int): (r: seq<seq<int>>)
    requires Rows(rows, K) && Groups(K, g) && qmax > 0
    ensures |r| == |rows| && Rows(r, K)
  {
    seq(|rows|, n requires 0 <= n < |rows| => RowCodes(rows[n], g, qmax))
  }

  function ScaleRows(rows: seq<Vec>, K: nat, g: nat, qmax: int): (r: seq<Vec>)
    requires Rows(rows, K) && Groups(K, g) && qmax > 0
    ensures |r| == |rows| && Rows(r, K / g)
  {
    seq(|rows|, n requires 0 <= n < |rows| => RowScales(rows[n], g, qmax))
  }

  /** Scales of `N` rows of `J` groups, group after group. */
  function Transposed(scales: Vec, N: nat, J: nat): (st: Vec)
    requires |scales| == Area(N, J)
    ensures |st| == Area(J, N)
  {
    seq(Area(J, N), x requires 0 <= x < Area(J, N) => TransposedAt(scales, N, J, x))
  }

  function TransposedAt(scales: Vec, N: nat, J: nat, x: nat): real
    requires |scales| == Area(N, J) && x < Area(J, N)
  {
    assert N > 0;
    HighBelow(x, N, J);
    JoinBelow(Low(x, N), High(x, N), J, N);
    scales[Join(Low(x, N), High(x, N), J)]
  }

  lemma TransposedIs(scales: Vec, N: nat, J: nat, n: nat, j: nat)
    requires |scales| == Area(N, J) && n < N && j < J
    ensures Join(j, n, N) < Area(J, N) && Join(n, j, J) < Area(N, J)
    ensures Transposed(scales, N, J)[Join(j, n, N)] == scales[Join(n, j, J)]
  {
    JoinBelow(j, n, N, J);
    JoinBelow(n, j, J, N);
    SplitJoin(j, n, N);
    hide Join, Area;
  }

  /** What is uploaded for four bits. */
  datatype Int4 = Int4(packed: seq<int>, st: Vec)

  function LoadInt4(rows: seq<Vec>, K: nat, g: nat): Int4
    requires Rows(rows, K) && Groups(K, g) && K % 2 == 0
  {
    EvenArea(|rows|, K);
    Int4(Pack(Stack(CodeRows(rows, K, g, 7), K)),
         Transposed(Stack(ScaleRows(rows, K, g, 7), K / g), |rows|, K / g))
  }

  lemma EvenArea(n: nat, K: nat)
    requires K % 2 == 0
    ensures Area(n, K) % 2 == 0
  {
    assert n * K == 2 * (n * (K / 2));
  }

  /** Weight (n, k) has a nibble and a scale in the upload. */
  predicate InUpload(q: Int4, N: nat, K: nat, g: nat, n: nat, k: nat): (r: bool)
    requires g > 0
    ensures r ==> Join(n, k, K) / 2 < |q.packed| && Join(k / g, n, N) < |q.st|
  {
    && Join(n, k, K) < 2 * |q.packed| && Join(k / g, n, N) < |q.st| && IsByte(q.packed[Join(n, k, K) / 2])
  }

  /** The nibble times the scale is within half the scale of `w`, the nibble within
      seven. */
  predicate ReadsNear(q: Int4, N: nat, K: nat, g: nat, n: nat, k: nat, w: real)
    requires g > 0
  {
    && InUpload(q, N, K, g, n, k)
    && HalfStep(w, UnpackAt(q.packed, Join(n, k, K)), q.st[Join(k / g, n, N)], 7)
  }

  /** The nibble and scale stored are the weight's code and its group's scale. */
  lemma Int4Finds(rows: seq<Vec>, K: nat, g: nat, n: nat, k: nat)
    requires Rows(rows, K) && Groups(K, g) && K % 2 == 0 && n < |rows| && k < K
    ensures k / g < K / g && InUpload(LoadInt4(rows, K, g), |rows|, K, g, n, k)
    ensures UnpackAt(LoadInt4(rows, K, g).packed, Join(n, k, K)) == RowCodes(rows[n], g, 7)[k]
    ensures LoadInt4(rows, K, g).st[Join(k / g, n, |rows|)] == RowScales(rows[n], g, 7)[k / g]
  {
    RowHalfStep(rows[n], k, g, 7);
    assert Fits4(RowCodes(rows[n], g, 7)[k]);
    var codes, scales := CodeRows(rows, K, g, 7), ScaleRows(rows, K, g, 7);
    assert codes[n] == RowCodes(rows[n], g, 7) && scales[n] == RowScales(rows[n], g, 7);
    hide RowScales, RowCodes, CodeRows, ScaleRows, Transposed, Area, Join, Pack, UnpackAt, IsByte, Stack, Groups,
      HalfStep, Fits4, Rows;
    PackedAt(codes, K, n, k);
    ScaleTableAt(scales, K / g, n, k / g);
  }

  lemma PackedAt(codes: seq<seq<int>>, K: nat, n: nat, k: nat)
    requires Rows(codes, K) && K % 2 == 0 && n < |codes| && k < K && Fits4(codes[n][k])
    ensures |Stack(codes, K)| % 2 == 0
    ensures var p := Pack(Stack(codes, K));
            && Join(n, k, K) < 2 * |p| && IsByte(p[Join(n, k, K) / 2])
            && UnpackAt(p, Join(n, k, K)) == codes[n][k]
  {
    hide Area, Join, Pack, UnpackAt, IsByte, Stack, Fits4;
    EvenArea(|codes|, K);
    StackAt(codes, K, n, k);
    UnpackPackAt(Stack(codes, K), Join(n, k, K));
  }

  lemma ScaleTableAt(scales: seq<Vec>, J: nat, n: nat, j: nat)
    requires Rows(scales, J) && n < |scales| && j < J
    ensures var st := Transposed(Stack(scales, J), |scales|, J);
            Join(j, n, |scales|) < |st| && st[Join(j, n, |scales|)] == scales[n][j]
  {
    hide Area, Join, Stack, Transposed;
    StackAt(scales, J, n, j);
    TransposedIs(Stack(scales, J), |scales|, J, n, j);
  }

  /** Every weight of every matrix reads back within half its group's scale. */
  lemma Int4ReadsBack(rows: seq<Vec>, K: nat, g: nat, q: Int4, n: nat, k: nat)
    requires Rows(rows, K) && Groups(K, g) && K % 2 == 0 && q == LoadInt4(rows, K, g) && n < |rows| && k < K
    ensures ReadsNear(q, |rows|, K, g, n, k, rows[n][k])
  {
    hide RowScales, RowCodes, LoadInt4, Area, Join, UnpackAt, Groups, HalfStep, InUpload;
    Int4Finds(rows, K, g, n, k);
    RowHalfStep(rows[n], k, g, 7);
  }

  /** With eight bits there is one scale to a row and one code to a byte. */
  lemma Int8ReadsBack(rows: seq<Vec>, K: nat, n: nat, k: nat)
    requires Rows(rows, K) && n < |rows| && k < K
    ensures Groups(K, K) && K / K == 1
    ensures var codes, scales := Stack(CodeRows(rows, K, K, 127), K), Stack(ScaleRows(rows, K, K, 127), 1);
            && Join(n, k, K) < |codes| && n < |scales|
            && HalfStep(rows[n][k], codes[Join(n, k, K)], scales[n], 127)
  {
    OneGroup(K, n, k, |rows|);
    hide RowScales, RowCodes, Area, Join, Stack, Groups, HalfStep;
    RowHalfStep(rows[n], k, K, 127);
    StackAt(CodeRows(rows, K, K, 127), K, n, k);
    StackAt(ScaleRows(rows, K, K, 127), 1, n, 0);
  }

  lemma OneGroup(K: nat, n: nat, k: nat, N: nat)
    requires k < K
    ensures Groups(K, K) && K / K == 1 && k / K == 0 && Join(n, 0, 1) == n && Area(N, 1) == N
  {
  }

  // ---------- the loops ----------

  method GroupMax(row: Vec, k0: nat, g: nat) returns (amax: real)
    requires k0 + g <= |row|
    ensures amax == AbsMax(row[k0..k0 + g])
  {
    amax := 0.0;
    for k := k0 to k0 + g
      invariant amax == AbsMax(row[k0..k])
    {
      var a, b := row[k0..k], row[k0..k + 1];
      assert b[..|b| - 1] == a && b[|b| - 1] == row[k];
      if Abs(row[k]) > amax {
        amax := Abs(row[k]);
      }
    }
  }

  /** Appends one group's codes and scale. */
  method QuantGroup(row: Vec, ghost j: nat, k0: nat, g: nat, qmax: int, codes0: seq<int>, scales0: Vec)
    returns (codes: seq<int>, scales: Vec)
    requires Groups(|row|, g) && qmax > 0 && j < |row| / g && k0 == Area(j, g)
    ensures k0 + g <= |row|
    ensures codes == codes0 + RowCodes(row, g, qmax)[k0..k0 + g]
    ensures scales == scales0 + [RowScales(row, g, qmax)[j]]
  {
    hide LoadCode, Area, AbsMax, Groups;
    GroupInside(|row|, j, g);
    var amax := GroupMax(row, k0, g);
    var sc := if amax > 0.0 then amax / qmax as real else 1.0;
    assert sc == GroupScale(Group(row, j, g), qmax);
    scales := scales0 + [sc];
    codes := codes0;
    for k := k0 to k0 + g
      invariant codes == codes0 + RowCodes(row, g, qmax)[k0..k]
    {
      InThisGroup(row, j, k, g);
      assert RowCodes(row, g, qmax)[k] == LoadCode(row[k], sc, qmax);
      assert RowCodes(row, g, qmax)[k0..k + 1] == RowCodes(row, g, qmax)[k0..k] + [LoadCode(row[k], sc, qmax)];
      codes := codes + [LoadCode(row[k], sc, qmax)];
    }
  }

  lemma InThisGroup(row: Vec, j: nat, k: nat, g: nat)
    requires Groups(|row|, g) && j < |row| / g && Area(j, g) <= k < Area(j, g) + g && k < |row|
    ensures k / g == j
  {
    DivUnique(k / g, k % g, j, k - Area(j, g), g);
  }

  /** Appends one row's codes and scales. */
  method QuantRow(row: Vec, g: nat, qmax: int, codes0: seq<int>, scales0: Vec)
    returns (codes: seq<int>, scales: Vec)
    requires Groups(|row|, g) && qmax > 0
    ensures codes == codes0 + RowCodes(row, g, qmax)
    ensures scales == scales0 + RowScales(row, g, qmax)
  {
    hide RowCodes, RowScales, Area, Groups;
    codes, scales := codes0, scales0;
    ghost var cs, ss := RowCodes(row, g, qmax), RowScales(row, g, qmax);
    var k0 := 0;
    ghost var j := 0;
    GroupsStart(|row|, g);
    while k0 < |row|
      invariant j <= |row| / g && k0 == Area(j, g) && k0 <= |row|
      invariant codes == codes0 + cs[..k0] && scales == scales0 + ss[..j]
      decreases |row| - k0
    {
      GroupsLeft(|row|, j, g);
      GroupInside(|row|, j, g);
      codes, scales := QuantGroup(row, j, k0, g, qmax, codes, scales);
      assert cs[..k0] + cs[k0..k0 + g] == cs[..k0 + g] && ss[..j] + [ss[j]] == ss[..j + 1];
      k0, j := k0 + g, j + 1;
    }
    GroupsLeft(|row|, j, g);
    assert cs[..|row|] == cs && ss[..|row| / g] == ss;
  }

  lemma GroupsStart(K: nat, g: nat)
    requires Groups(K, g)
    ensures g > 0 && Area(0, g) == 0
  {
  }

  /** A group is left as long as entries are. */
  lemma GroupsLeft(K: nat, j: nat, g: nat)
    requires Groups(K, g) && j <= K / g
    ensures Area(j, g) < K <==> j < K / g
  {
    GroupsArea(K, g);
    AreaGrows(K / g, j, g);
  }

  /** The rows of all sources. */
  function Flatten(srcs: seq<seq<Vec>>): seq<Vec> {
    if |srcs| == 0 then [] else Flatten(srcs[..|srcs| - 1]) + srcs[|srcs| - 1]
  }

  lemma {:induction false} FlattenRows(srcs: seq<seq<Vec>>, K: nat)
    requires forall i :: 0 <= i < |srcs| ==> Rows(srcs[i], K)
    ensures Rows(Flatten(srcs), K)
  {
    if |srcs| > 0 {
      FlattenRows(srcs[..|srcs| - 1], K);
    }
  }

  lemma NextRow(rows: seq<Vec>, row: Vec, K: nat, g: nat, qmax: int)
    requires Rows(rows, K) && |row| == K && Groups(K, g) && qmax > 0
    ensures Rows(rows + [row], K)
    ensures Stack(CodeRows(rows + [row], K, g, qmax), K)
            == Stack(CodeRows(rows, K, g, qmax), K) + RowCodes(row, g, qmax)
    ensures Stack(ScaleRows(rows + [row], K, g, qmax), K / g)
            == Stack(ScaleRows(rows, K, g, qmax), K / g) + RowScales(row, g, qmax)
  {
    hide RowCodes, RowScales, Stack, Groups;
    assert CodeRows(rows + [row], K, g, qmax) == CodeRows(rows, K, g, qmax) + [RowCodes(row, g, qmax)];
    assert ScaleRows(rows + [row], K, g, qmax) == ScaleRows(rows, K, g, qmax) + [RowScales(row, g, qmax)];
    StackNext(CodeRows(rows, K, g, qmax), RowCodes(row, g, qmax), K);
    StackNext(ScaleRows(rows, K, g, qmax), RowScales(row, g, qmax), K / g);
  }

  /** Quantizes the rows of every source, one source after another. */
  method QuantMatrix(srcs: seq<seq<Vec>>, K: nat, g: nat, qmax: int) returns (codes: seq<int>, scales: Vec)
    requires (forall i :: 0 <= i < |srcs| ==> Rows(srcs[i], K)) && Groups(K, g) && qmax > 0
    ensures Rows(Flatten(srcs), K)
    ensures codes == Stack(CodeRows(Flatten(srcs), K, g, qmax), K)
    ensures scales == Stack(ScaleRows(Flatten(srcs), K, g, qmax), K / g)
  {
    hide CodeRows, ScaleRows, RowCodes, RowScales, Stack, Groups;
    ghost var rows: seq<Vec> := [];
    NoRows(K, g, qmax);
    codes, scales := [], [];
    for i := 0 to |srcs|
      invariant rows == Flatten(srcs[..i]) && Rows(rows, K)
      invariant codes == Stack(CodeRows(rows, K, g, qmax), K)
      invariant scales == Stack(ScaleRows(rows, K, g, qmax), K / g)
    {
      ghost var before := rows;
      assert before + srcs[i][..0] == before;
      for r := 0 to |srcs[i]|
        invariant rows == before + srcs[i][..r] && Rows(rows, K)
        invariant codes == Stack(CodeRows(rows, K, g, qmax), K)
        invariant scales == Stack(ScaleRows(rows, K, g, qmax), K / g)
      {
        var row := srcs[i][r];
        assert Rows(srcs[i], K);
        codes, scales := QuantRow(row, g, qmax, codes, scales);
        NextRow(rows, row, K, g, qmax);
        assert before + srcs[i][..r + 1] == rows + [row];
        rows := rows + [row];
      }
      assert srcs[i][..|srcs[i]|] == srcs[i] && srcs[..i + 1][..i] == srcs[..i];
    }
    assert srcs[..|srcs|] == srcs;
  }

  lemma NoRows(K: nat, g: nat, qmax: int)
    requires Groups(K, g) && qmax > 0
    ensures Stack(CodeRows([], K, g, qmax), K) == [] && Stack(ScaleRows([], K, g, qmax), K / g) == []
  {
  }

  /** Packs codes two to a byte. */
  method PackCodes(codes: seq<int>) returns (packed: array<int>)
    requires |codes| % 2 == 0
    ensures fresh(packed) && packed[..] == Pack(codes)
  {
    hide PackPair;
    packed := new int[|codes| / 2];
    for i := 0 to |codes| / 2
      invariant forall m :: 0 <= m < i ==> packed[m] == PackPair(codes[2 * m], codes[2 * m + 1])
    {
      packed[i] := PackPair(codes[2 * i], codes[2 * i + 1]);
    }
  }

  /** Transposes the table of scales. */
  method TransposeScales(scales: Vec, N: nat, J: nat) returns (st: array<real>)
    requires |scales| == Area(N, J)
    ensures fresh(st) && st[..] == Transposed(scales, N, J)
  {
    hide Join, Area, Transposed, High, Low;
    TableBounds(N, J);
    st := new real[Area(J, N)];
    for n := 0 to N
      invariant forall m, i :: 0 <= m < n && 0 <= i < J ==> st[Join(i, m, N)] == scales[Join(m, i, J)]
    {
      for j := 0 to J
        invariant forall m, i :: 0 <= m < n && 0 <= i < J ==> st[Join(i, m, N)] == scales[Join(m, i, J)]
        invariant forall i :: 0 <= i < j ==> st[Join(i, n, N)] == scales[Join(n, i, J)]
      {
        OtherPlaces(N, J, n, j);
        st[Join(j, n, N)] := scales[Join(n, j, J)];
      }
    }
    forall x | 0 <= x < Area(J, N) ensures st[x] == Transposed(scales, N, J)[x] {
      CellOf(J, N, x);
      var n, j := Low(x, N), High(x, N);
      assert st[Join(j, n, N)] == scales[Join(n, j, J)];
      TransposedIs(scales, N, J, n, j);
    }
  }

  lemma TableBounds(N: nat, J: nat)
    ensures forall n, j :: 0 <= n < N && 0 <= j < J ==> Join(j, n, N) < Area(J, N) && Join(n, j, J) < Area(N, J)
  {
    hide Join, Area;
    forall n, j | 0 <= n < N && 0 <= j < J ensures Join(j, n, N) < Area(J, N) && Join(n, j, J) < Area(N, J) {
      JoinBelow(j, n, N, J);
      JoinBelow(n, j, J, N);
    }
  }

  /** Entries of the table have places of their own. */
  lemma OtherPlaces(N: nat, J: nat, n: nat, j: nat)
    requires n < N && j < J
    ensures forall m, i :: 0 <= m < N && 0 <= i < J && (m != n || i != j) ==> Join(i, m, N) != Join(j, n, N)
  {
    hide Join, High, Low;
    forall m, i | 0 <= m < N && 0 <= i < J && (m != n || i != j) ensures Join(i, m, N) != Join(j, n, N) {
      SplitJoin(i, m, N);
      SplitJoin(j, n, N);
    }
  }

  lemma CellOf(J: nat, N: nat, x: nat)
    requires x < Area(J, N)
    ensures N > 0 && High(x, N) < J && Join(High(x, N), Low(x, N), N) == x
  {
    assert N > 0;
    HighBelow(x, N, J);
    JoinSplit(x, N);
  }
}
