/** The two-bit weight layout of the ternary kernels: how a matrix is packed, and what
    the kernel's threads read back. */
module LadderCodec {
  import opened MixedRadix

  /** Rows come in blocks of 16 and entries of a row in chunks of 128. */
  predicate ValidShape(N: nat, K: nat) {
    N % 16 == 0 && K % 128 == 0
  }

  /** A matrix of `N` rows of `K` entries, row after row. */
  predicate Matrix(W: seq<int>, N: nat, K: nat) {
    |W| == Area(N, K)
  }

  predicate Ternary(W: seq<int>) {
    forall i :: 0 <= i < |W| ==> -1 <= W[i] <= 1
  }

  /** Values that fit a two-bit lane. */
  predicate TwoBit(W: seq<int>) {
    forall i :: 0 <= i < |W| ==> -2 <= W[i] <= 1
  }

  // ---------- addresses ----------

  /** A four-byte slot, a byte of it, and a two-bit lane of that. */
  datatype Address = Address(slot: nat, byte: nat, lane: nat)

  datatype Weight = Weight(n: nat, k: nat)

  /** The weight a lane holds. */
  function WeightOf(K: nat, a: Address): Weight
    requires K > 0
  {
    var nBlock, inBlock := High(a.slot, K), Low(a.slot, K);
    var k0, inK0 := inBlock / 128, inBlock % 128;
    var majorK, inMajor := inK0 / 32, inK0 % 32;
    var yHalf, inYHalf := inMajor / 16, inMajor % 16;
    var subK, yInHalf := inYHalf / 8, inYHalf % 8;
    Weight(nBlock * 16 + yHalf * 8 + yInHalf, k0 * 128 + majorK * 32 + subK * 16 + (a.byte + 4 * a.lane))
  }

  /** The slot of a 16-entry stretch, within its block of rows. */
  function InBlock(n: nat, k: nat): nat {
    k / 128 * 128 + k % 128 / 32 * 32 + n % 16 / 8 * 16 + k % 32 / 16 * 8 + n % 8
  }

  /** The lane that holds a weight. */
  function AddressOf(K: nat, w: Weight): Address {
    Address(Join(w.n / 16, InBlock(w.n, w.k), K), w.k % 4, w.k % 16 / 4)
  }

  predicate ValidAddress(N: nat, K: nat, a: Address) {
    a.slot < Area(N / 16, K) && a.byte < 4 && a.lane < 4
  }

  predicate ValidWeight(N: nat, K: nat, w: Weight) {
    w.n < N && w.k < K
  }

  lemma InBlockBelow(n: nat, k: nat, K: nat)
    requires K % 128 == 0 && k < K
    ensures InBlock(n, k) < K
  {
    assert k / 128 < K / 128;
  }

  lemma WeightAtAddress(N: nat, K: nat, w: Weight)
    requires ValidShape(N, K) && ValidWeight(N, K, w)
    ensures ValidAddress(N, K, AddressOf(K, w)) && WeightOf(K, AddressOf(K, w)) == w
  {
    var b := InBlock(w.n, w.k);
    InBlockBelow(w.n, w.k, K);
    SplitJoin(w.n / 16, b, K);
    JoinBelow(w.n / 16, b, K, N / 16);
    hide Join, High, Low, Area;
    InBlockFields(w.n, w.k);
    hide InBlock;
    RowParts(w.n);
    ColumnParts(w.k);
  }

  lemma RowParts(n: nat)
    ensures n == n / 16 * 16 + n % 16 / 8 * 8 + n % 8
  {
    Narrower(n, 8, 2);
  }

  /** A remainder has the smaller remainders of what it is the remainder of. */
  lemma Narrower(n: nat, d: nat, m: nat)
    requires d > 0 && m > 0 && (m == 2 || m == 4)
    ensures n % (m * d) % d == n % d
  {
    var r := n % (m * d);
    var a, b := n / (m * d), r / d;
    assert n == a * (m * d) + r && r == b * d + r % d;
    assert a * (m * d) == (a * m) * d;
    assert (a * m + b) * d == (a * m) * d + b * d;
    DivUnique(a * m + b, r % d, n / d, n % d, d);
  }

  lemma ColumnParts(k: nat)
    ensures k == k / 128 * 128 + k % 128 / 32 * 32 + k % 32 / 16 * 16 + (k % 4 + 4 * (k % 16 / 4))
  {
    Narrower(k, 32, 4);
    Narrower(k, 16, 2);
    Narrower(k, 4, 4);
  }

  lemma InBlockFields(n: nat, k: nat)
    ensures var b := InBlock(n, k);
            && b / 128 == k / 128 && b % 128 / 32 == k % 128 / 32 && b % 128 % 32 / 16 == n % 16 / 8
            && b % 128 % 32 % 16 / 8 == k % 32 / 16 && b % 128 % 32 % 16 % 8 == n % 8
  {
    SlotFields(k / 128, k % 128 / 32, n % 16 / 8, k % 32 / 16, n % 8);
  }

  lemma SlotFields(q: nat, x: nat, y: nat, z: nat, v: nat)
    requires x < 4 && y < 2 && z < 2 && v < 8
    ensures var b := q * 128 + x * 32 + y * 16 + z * 8 + v;
            && b / 128 == q && b % 128 / 32 == x && b % 128 % 32 / 16 == y
            && b % 128 % 32 % 16 / 8 == z && b % 128 % 32 % 16 % 8 == v
  {
  }

  lemma AddressOfWeight(N: nat, K: nat, a: Address)
    requires ValidShape(N, K) && ValidAddress(N, K, a)
    ensures K > 0 && ValidWeight(N, K, WeightOf(K, a)) && AddressOf(K, WeightOf(K, a)) == a
  {
    assert K > 0;
    HighBelow(a.slot, K, N / 16);
    JoinSplit(a.slot, K);
    hide Join, High, Low, Area;
    BlockRoundTrip(High(a.slot, K), Low(a.slot, K), a.byte, a.lane, K);
    assert InBlock(WeightOf(K, a).n, WeightOf(K, a).k) == Low(a.slot, K);
  }

  lemma BlockRoundTrip(nBlock: nat, b: nat, byte: nat, lane: nat, K: nat)
    requires K % 128 == 0 && b < K && byte < 4 && lane < 4
    ensures var n := nBlock * 16 + b % 128 % 32 / 16 * 8 + b % 128 % 32 % 16 % 8;
            var k := b / 128 * 128 + b % 128 / 32 * 32 + b % 128 % 32 % 16 / 8 * 16 + (byte + 4 * lane);
            n / 16 == nBlock && k < K && InBlock(n, k) == b && k % 4 == byte && k % 16 / 4 == lane
  {
    var q, x, y, z, v := b / 128, b % 128 / 32, b % 128 % 32 / 16, b % 128 % 32 % 16 / 8, b % 128 % 32 % 16 % 8;
    SlotParts(b);
    assert q < K / 128;
    RowFields(nBlock, y, v);
    ColumnFields(q, x, z, byte, lane);
  }

  lemma SlotParts(b: nat)
    ensures b == b / 128 * 128 + b % 128 / 32 * 32 + b % 128 % 32 / 16 * 16 + b % 128 % 32 % 16 / 8 * 8
                 + b % 128 % 32 % 16 % 8
  {
  }

  lemma RowFields(nBlock: nat, y: nat, v: nat)
    requires y < 2 && v < 8
    ensures var n := nBlock * 16 + y * 8 + v; n / 16 == nBlock && n % 16 / 8 == y && n % 8 == v
  {
    var n := nBlock * 16 + y * 8 + v;
    DivUnique(n / 16, n % 16, nBlock, y * 8 + v, 16);
    DivUnique(n / 8, n % 8, nBlock * 2 + y, v, 8);
  }

  lemma ColumnFields(q: nat, x: nat, z: nat, byte: nat, lane: nat)
    requires x < 4 && z < 2 && byte < 4 && lane < 4
    ensures var k := q * 128 + x * 32 + z * 16 + (byte + 4 * lane);
            k / 128 == q && k % 128 / 32 == x && k % 32 / 16 == z && k % 4 == byte && k % 16 / 4 == lane
  {
    var k := q * 128 + x * 32 + z * 16 + (byte + 4 * lane);
    DivUnique(k / 128, k % 128, q, x * 32 + z * 16 + (byte + 4 * lane), 128);
    DivUnique(k / 32, k % 32, q * 4 + x, z * 16 + (byte + 4 * lane), 32);
    DivUnique(k / 16, k % 16, q * 8 + x * 2 + z, byte + 4 * lane, 16);
    DivUnique(k / 4, k % 4, q * 32 + x * 8 + z * 4 + lane, byte, 4);
  }

  /** For every shape the packer takes, lanes and weights correspond one to one. */
  lemma LadderBijective(N: nat, K: nat)
    requires ValidShape(N, K)
    ensures forall w :: ValidWeight(N, K, w) ==>
              ValidAddress(N, K, AddressOf(K, w)) && WeightOf(K, AddressOf(K, w)) == w
    ensures forall a :: ValidAddress(N, K, a) ==>
              K > 0 && ValidWeight(N, K, WeightOf(K, a)) && AddressOf(K, WeightOf(K, a)) == a
  {
    hide WeightOf, AddressOf, ValidShape, ValidAddress;
    forall w | ValidWeight(N, K, w)
      ensures ValidAddress(N, K, AddressOf(K, w))
      ensures K > 0 && WeightOf(K, AddressOf(K, w)) == w
    {
      WeightAtAddress(N, K, w);
    }
    forall a | ValidAddress(N, K, a)
      ensures K > 0 && ValidWeight(N, K, WeightOf(K, a)) && AddressOf(K, WeightOf(K, a)) == a
    {
      AddressOfWeight(N, K, a);
    }
  }

  // ---------- bytes ----------

  /** A value as its two bits. */
  function Enc(t: int): bv8
    requires -2 <= t <= 1
  {
    ((t + 2) as bv8) & 3
  }

  function Dec(e: bv8): int {
    e as int - 2
  }

  function Byte4(a: bv8, b: bv8, c: bv8, d: bv8): bv8 {
    (a & 3) | ((b & 3) << 2) | ((c & 3) << 4) | ((d & 3) << 6)
  }

  function Lane(b: bv8, j: nat): bv8
    requires j < 4
  {
    (b >> (2 * j)) & 3
  }

  lemma EncDec(t: int)
    requires -2 <= t <= 1
    ensures Enc(t) <= 3 && Dec(Enc(t)) == t
  {
    assert t == -2 || t == -1 || t == 0 || t == 1;
  }

  lemma DecEnc(e: bv8)
    requires e <= 3
    ensures -2 <= Dec(e) <= 1 && Enc(Dec(e)) == e
  {
    assert e == 0 || e == 1 || e == 2 || e == 3;
  }

  lemma LanesOfByte(a: bv8, b: bv8, c: bv8, d: bv8)
    requires a <= 3 && b <= 3 && c <= 3 && d <= 3
    ensures var x := Byte4(a, b, c, d); Lane(x, 0) == a && Lane(x, 1) == b && Lane(x, 2) == c && Lane(x, 3) == d
  {
  }

  lemma ByteOfLanes(x: bv8)
    ensures forall j :: 0 <= j < 4 ==> Lane(x, j) <= 3
    ensures Byte4(Lane(x, 0), Lane(x, 1), Lane(x, 2), Lane(x, 3)) == x
  {
  }

  // ---------- packing ----------

  /** Slots of a matrix. */
  function Slots(N: nat, K: nat): nat {
    Area(N / 16, K)
  }

  /** The value at a row and an entry. */
  function At(W: seq<int>, N: nat, K: nat, w: Weight): (v: int)
    requires Matrix(W, N, K) && ValidWeight(N, K, w)
    ensures (TwoBit(W) ==> -2 <= v <= 1) && (Ternary(W) ==> -1 <= v <= 1)
  {
    JoinBelow(w.n, w.k, K, N);
    W[Join(w.n, w.k, K)]
  }

  function EncAt(W: seq<int>, N: nat, K: nat, a: Address): (e: bv8)
    requires ValidShape(N, K) && Matrix(W, N, K) && TwoBit(W) && ValidAddress(N, K, a)
    ensures e <= 3
  {
    hide WeightOf, AddressOf, At, Enc, Dec, Area, Matrix;
    AddressOfWeight(N, K, a);
    EncDec(At(W, N, K, WeightOf(K, a)));
    Enc(At(W, N, K, WeightOf(K, a)))
  }

  function ByteAt(W: seq<int>, N: nat, K: nat, slot: nat, byte: nat): bv8
    requires ValidShape(N, K) && Matrix(W, N, K) && TwoBit(W) && slot < Slots(N, K) && byte < 4
  {
    Byte4(EncAt(W, N, K, Address(slot, byte, 0)), EncAt(W, N, K, Address(slot, byte, 1)),
          EncAt(W, N, K, Address(slot, byte, 2)), EncAt(W, N, K, Address(slot, byte, 3)))
  }

  /** The packed matrix, four bytes to a slot. */
  function Pack(W: seq<int>, N: nat, K: nat): (p: seq<bv8>)
    requires ValidShape(N, K) && Matrix(W, N, K) && TwoBit(W)
    ensures |p| == 4 * Slots(N, K)
  {
    seq(4 * Slots(N, K), i requires 0 <= i < 4 * Slots(N, K) => ByteAt(W, N, K, i / 4, i % 4))
  }

  /** The bits at an address. */
  function LaneAt(p: seq<bv8>, a: Address): bv8
    requires a.byte < 4 && a.lane < 4 && 4 * a.slot + a.byte < |p|
  {
    Lane(p[4 * a.slot + a.byte], a.lane)
  }

  /** The matrix read back, every weight from its lane. */
  function Unpack(p: seq<bv8>, N: nat, K: nat): (W: seq<int>)
    requires ValidShape(N, K) && |p| == 4 * Slots(N, K)
    ensures Matrix(W, N, K)
  {
    seq(Area(N, K), i requires 0 <= i < Area(N, K) => ValueAt(p, N, K, i))
  }

  function ValueAt(p: seq<bv8>, N: nat, K: nat, i: nat): int
    requires ValidShape(N, K) && |p| == 4 * Slots(N, K) && i < Area(N, K)
  {
    IndexWeight(N, K, i);
    WeightAtAddress(N, K, Weight(High(i, K), Low(i, K)));
    Dec(LaneAt(p, AddressOf(K, Weight(High(i, K), Low(i, K)))))
  }

  lemma IndexWeight(N: nat, K: nat, i: nat)
    requires i < Area(N, K)
    ensures K > 0 && ValidWeight(N, K, Weight(High(i, K), Low(i, K)))
  {
    assert K > 0;
    HighBelow(i, K, N);
  }

  /** The lane at an address of the packed matrix holds the weight it is the address
      of. */
  lemma PackedLane(W: seq<int>, N: nat, K: nat, a: Address)
    requires ValidShape(N, K) && Matrix(W, N, K) && TwoBit(W) && ValidAddress(N, K, a)
    ensures LaneAt(Pack(W, N, K), a) == EncAt(W, N, K, a)
  {
    hide EncAt, Lane, Byte4, WeightOf, TwoBit, Matrix, Area;
    var i := 4 * a.slot + a.byte;
    assert i / 4 == a.slot && i % 4 == a.byte;
    LanesOfByte(EncAt(W, N, K, Address(a.slot, a.byte, 0)), EncAt(W, N, K, Address(a.slot, a.byte, 1)),
                EncAt(W, N, K, Address(a.slot, a.byte, 2)), EncAt(W, N, K, Address(a.slot, a.byte, 3)));
  }

  /** Reading a packed matrix recovers it. */
  lemma LadderUnpackPack(W: seq<int>, N: nat, K: nat)
    requires ValidShape(N, K) && Matrix(W, N, K) && TwoBit(W)
    ensures Unpack(Pack(W, N, K), N, K) == W
  {
    hide AddressOf, WeightOf, Pack, Lane, EncAt, Dec, Join, Area;
    var p := Pack(W, N, K);
    forall i | 0 <= i < |W| ensures Unpack(p, N, K)[i] == W[i] {
      IndexWeight(N, K, i);
      var w := Weight(High(i, K), Low(i, K));
      WeightAtAddress(N, K, w);
      PackedLane(W, N, K, AddressOf(K, w));
      EncodesWeight(W, N, K, w);
      JoinSplit(i, K);
    }
  }

  /** The other way around, packing what was read recovers the bytes; they hold a
      ternary matrix exactly if no lane is zero. */
  lemma LadderPackUnpack(p: seq<bv8>, N: nat, K: nat)
    requires ValidShape(N, K) && |p| == 4 * Slots(N, K)
    ensures TwoBit(Unpack(p, N, K)) && Pack(Unpack(p, N, K), N, K) == p
    ensures Ternary(Unpack(p, N, K)) <==> forall a :: ValidAddress(N, K, a) ==> LaneAt(p, a) != 0
  {
    UnpackedTwoBit(p, N, K);
    hide ValidAddress, LaneAt, Unpack, Ternary, TwoBit, ByteAt, Area;
    var W := Unpack(p, N, K);
    forall i | 0 <= i < |p| ensures Pack(W, N, K)[i] == p[i] {
      assert i / 4 < Slots(N, K);
      UnpackedByte(p, N, K, i / 4, i % 4);
    }
    UnpackedTernary(p, N, K);
  }

  lemma UnpackedTwoBit(p: seq<bv8>, N: nat, K: nat)
    requires ValidShape(N, K) && |p| == 4 * Slots(N, K)
    ensures TwoBit(Unpack(p, N, K))
  {
    hide AddressOf, Lane, Dec, Area;
    forall i | 0 <= i < Area(N, K) ensures -2 <= Unpack(p, N, K)[i] <= 1 {
      IndexWeight(N, K, i);
      var w := Weight(High(i, K), Low(i, K));
      WeightAtAddress(N, K, w);
      var a := AddressOf(K, w);
      ByteOfLanes(p[4 * a.slot + a.byte]);
      DecEnc(LaneAt(p, a));
    }
  }

  /** What is read for a weight is what its lane holds. */
  lemma UnpackedAt(p: seq<bv8>, N: nat, K: nat, a: Address)
    requires ValidShape(N, K) && |p| == 4 * Slots(N, K) && ValidAddress(N, K, a)
    ensures K > 0 && ValidWeight(N, K, WeightOf(K, a))
    ensures At(Unpack(p, N, K), N, K, WeightOf(K, a)) == Dec(LaneAt(p, a))
  {
    hide AddressOf, WeightOf, LaneAt, Dec, Join, Area, High, Low;
    AddressOfWeight(N, K, a);
    var w := WeightOf(K, a);
    SplitJoin(w.n, w.k, K);
    JoinBelow(w.n, w.k, K, N);
  }

  lemma UnpackedByte(p: seq<bv8>, N: nat, K: nat, slot: nat, byte: nat)
    requires ValidShape(N, K) && |p| == 4 * Slots(N, K) && slot < Slots(N, K) && byte < 4
    requires TwoBit(Unpack(p, N, K))
    ensures ByteAt(Unpack(p, N, K), N, K, slot, byte) == p[4 * slot + byte]
  {
    hide Lane, Byte4, Unpack, TwoBit, Enc, Dec, WeightOf, At, Area;
    var x := p[4 * slot + byte];
    ByteOfLanes(x);
    forall j | 0 <= j < 4 ensures EncAt(Unpack(p, N, K), N, K, Address(slot, byte, j)) == Lane(x, j) {
      UnpackedAt(p, N, K, Address(slot, byte, j));
      DecEnc(Lane(x, j));
    }
  }

  lemma UnpackedTernary(p: seq<bv8>, N: nat, K: nat)
    requires ValidShape(N, K) && |p| == 4 * Slots(N, K) && TwoBit(Unpack(p, N, K))
    ensures Ternary(Unpack(p, N, K)) <==> forall a :: ValidAddress(N, K, a) ==> LaneAt(p, a) != 0
  {
    hide AddressOf, WeightOf, LaneAt, Dec, Join, Area, Unpack;
    var W := Unpack(p, N, K);
    if Ternary(W) {
      forall a | ValidAddress(N, K, a) ensures LaneAt(p, a) != 0 {
        LaneZero(p, N, K, a);
      }
    }
    if forall a :: ValidAddress(N, K, a) ==> LaneAt(p, a) != 0 {
      forall i | 0 <= i < |W| ensures -1 <= W[i] <= 1 {
        IndexWeight(N, K, i);
        var w := Weight(High(i, K), Low(i, K));
        WeightAtAddress(N, K, w);
        JoinSplit(i, K);
        LaneZero(p, N, K, AddressOf(K, w));
      }
    }
  }

  lemma LaneZero(p: seq<bv8>, N: nat, K: nat, a: Address)
    requires ValidShape(N, K) && |p| == 4 * Slots(N, K) && ValidAddress(N, K, a)
    ensures K > 0 && ValidWeight(N, K, WeightOf(K, a))
    ensures LaneAt(p, a) == 0 <==> At(Unpack(p, N, K), N, K, WeightOf(K, a)) == -2
  {
    hide Lane, WeightOf, Unpack, At, Area;
    UnpackedAt(p, N, K, a);
    ByteOfLanes(p[4 * a.slot + a.byte]);
    var e := LaneAt(p, a);
    assert e == 0 || e == 1 || e == 2 || e == 3;
  }

  // ---------- what the kernel reads ----------

  /** The byte at which column block `x` starts. */
  function BlockBytes(K: nat, x: nat): nat {
    x * 16 * K / 4
  }

  /** The byte at which thread (tx, ty) of column block `x` loads its word of chunk
      `k0`. */
  function KernelOffset(K: nat, x: nat, k0: nat, tx: nat, ty: nat): nat {
    BlockBytes(K, x) + k0 * 8 * 16 * 16 / 4 + tx / 2 * 32 * 16 / 4 + ty / 8 * (32 * 16 / 2) / 4
    + tx % 2 * (32 * 16 / 4) / 4 + ty % 8 * (32 / 2) / 4
  }

  /** The `i`th value the thread decodes from its word: byte `i % 4`, shifted by twice
      `i / 4`. */
  function KernelValue(p: seq<bv8>, offset: nat, i: nat): int
    requires i < 16 && offset + 4 <= |p|
  {
    Dec(Lane(p[offset + i % 4], i / 4))
  }

  lemma KernelSlot(K: nat, x: nat, k0: nat, tx: nat, ty: nat)
    requires tx < 8 && ty < 16
    ensures KernelOffset(K, x, k0, tx, ty) == 4 * Join(x, InBlock(16 * x + ty, k0 * 128 + 16 * tx), K)
  {
    KernelBytes(K, x, k0, tx, ty);
    KernelBlock(x, k0, tx, ty);
    hide KernelOffset, InBlock;
  }

  lemma KernelBytes(K: nat, x: nat, k0: nat, tx: nat, ty: nat)
    ensures KernelOffset(K, x, k0, tx, ty)
            == 4 * (x * K + k0 * 128 + tx / 2 * 32 + ty / 8 * 16 + tx % 2 * 8 + ty % 8)
  {
    BlockStart(K, x);
    hide BlockBytes;
    var A := x * K;
    assert k0 * 8 * 16 * 16 / 4 == 512 * k0 && tx / 2 * 32 * 16 / 4 == 128 * (tx / 2);
    assert ty / 8 * (32 * 16 / 2) / 4 == 64 * (ty / 8) && tx % 2 * (32 * 16 / 4) / 4 == 32 * (tx % 2);
    assert ty % 8 * (32 / 2) / 4 == 4 * (ty % 8);
    assert 4 * (A + k0 * 128 + tx / 2 * 32 + ty / 8 * 16 + tx % 2 * 8 + ty % 8)
        == 4 * A + 512 * k0 + 128 * (tx / 2) + 64 * (ty / 8) + 32 * (tx % 2) + 4 * (ty % 8);
  }

  lemma BlockStart(K: nat, x: nat)
    ensures BlockBytes(K, x) == 4 * (x * K)
  {
    var b := x * 16 * K;
    assert b == 4 * (4 * (x * K));
    assert b / 4 == 4 * (x * K);
  }

  lemma KernelBlock(x: nat, k0: nat, tx: nat, ty: nat)
    requires tx < 8 && ty < 16
    ensures InBlock(16 * x + ty, k0 * 128 + 16 * tx) == k0 * 128 + tx / 2 * 32 + ty / 8 * 16 + tx % 2 * 8 + ty % 8
  {
    var n := 16 * x + ty;
    SameChunk(k0, tx, 0);
    DivUnique(n / 16, n % 16, x, ty, 16);
    DivUnique(n / 8, n % 8, 2 * x + ty / 8, ty % 8, 8);
  }

  /** Every thread of the kernel decodes, from the packed matrix, the sixteen weights it
      is meant to multiply: row 16x + ty, entries 128 k0 + 16 tx onwards. */
  lemma KernelReadsMatrix(W: seq<int>, N: nat, K: nat, x: nat, k0: nat, tx: nat, ty: nat, i: nat)
    requires ValidShape(N, K) && Matrix(W, N, K) && TwoBit(W)
    requires x < N / 16 && k0 < K / 128 && tx < 8 && ty < 16 && i < 16
    ensures var offset := KernelOffset(K, x, k0, tx, ty);
            var w := Weight(16 * x + ty, k0 * 128 + 16 * tx + i);
            && offset + 4 <= 4 * Slots(N, K) && ValidWeight(N, K, w)
            && KernelValue(Pack(W, N, K), offset, i) == At(W, N, K, w)
  {
    hide KernelOffset, Pack, Lane, Dec, Enc, WeightOf, Join, Area, Matrix, TwoBit, InBlock, At, EncAt;
    KernelSlot(K, x, k0, tx, ty);
    KernelInside(N, K, x, k0, tx, ty, i);
    var w := Weight(16 * x + ty, k0 * 128 + 16 * tx + i);
    KernelLane(x, k0, tx, ty, i);
    WeightAtAddress(N, K, w);
    PackedLane(W, N, K, AddressOf(K, w));
    EncodesWeight(W, N, K, w);
  }

  lemma EncodesWeight(W: seq<int>, N: nat, K: nat, w: Weight)
    requires ValidShape(N, K) && Matrix(W, N, K) && TwoBit(W) && ValidWeight(N, K, w)
    ensures ValidAddress(N, K, AddressOf(K, w)) && Dec(EncAt(W, N, K, AddressOf(K, w))) == At(W, N, K, w)
  {
    hide WeightOf, AddressOf, At, Enc, Dec, Area, Matrix, TwoBit;
    WeightAtAddress(N, K, w);
    EncDec(At(W, N, K, w));
  }

  lemma KernelInside(N: nat, K: nat, x: nat, k0: nat, tx: nat, ty: nat, i: nat)
    requires ValidShape(N, K) && x < N / 16 && k0 < K / 128 && tx < 8 && ty < 16 && i < 16
    ensures ValidWeight(N, K, Weight(16 * x + ty, k0 * 128 + 16 * tx + i))
  {
  }

  lemma KernelLane(x: nat, k0: nat, tx: nat, ty: nat, i: nat)
    requires tx < 8 && ty < 16 && i < 16
    ensures var k := k0 * 128 + 16 * tx + i;
            InBlock(16 * x + ty, k) == InBlock(16 * x + ty, k0 * 128 + 16 * tx)
            && k % 4 == i % 4 && k % 16 / 4 == i / 4 && (16 * x + ty) / 16 == x
  {
    var k, m := k0 * 128 + 16 * tx + i, k0 * 128 + 16 * tx;
    SameChunk(k0, tx, i);
    SameChunk(k0, tx, 0);
    DivUnique(k / 16, k % 16, k0 * 8 + tx, i, 16);
    DivUnique(k / 4, k % 4, k0 * 32 + tx * 4 + i / 4, i % 4, 4);
  }

  lemma SameChunk(k0: nat, tx: nat, i: nat)
    requires tx < 8 && i < 16
    ensures var k := k0 * 128 + 16 * tx + i;
            k / 128 == k0 && k % 128 / 32 == tx / 2 && k % 32 / 16 == tx % 2
  {
    var k := k0 * 128 + 16 * tx + i;
    DivUnique(k / 128, k % 128, k0, 16 * tx + i, 128);
    DivUnique(k / 32, k % 32, k0 * 4 + tx / 2, 16 * (tx % 2) + i, 32);
  }

  // ---------- the loops ----------

  /** The byte after `j` of its lanes are set. */
  function Partial(e: seq<bv8>, j: nat): bv8
    requires j <= |e| && j <= 4
  {
    if j == 0 then 0 else Partial(e, j - 1) | ((e[j - 1] & 3) << (2 * (j - 1)))
  }

  lemma WholeByte(e: seq<bv8>)
    requires |e| == 4
    ensures Partial(e, 4) == Byte4(e[0], e[1], e[2], e[3])
  {
    assert Partial(e, 1) == e[0] & 3;
    assert Partial(e, 2) == (e[0] & 3) | ((e[1] & 3) << 2);
    assert Partial(e, 3) == (e[0] & 3) | ((e[1] & 3) << 2) | ((e[2] & 3) << 4);
  }

  /** One byte of a slot, lane after lane. */
  method AssembleByte(W: seq<int>, N: nat, K: nat, slot: nat, byte: nat) returns (b: bv8)
    requires ValidShape(N, K) && Matrix(W, N, K) && TwoBit(W) && slot < Slots(N, K) && byte < 4
    ensures b == ByteAt(W, N, K, slot, byte)
  {
    hide WeightOf, Area, Matrix, TwoBit, At, Enc, Byte4;
    b := 0;
    ghost var e: seq<bv8> := [];
    for j := 0 to 4
      invariant |e| == j && b == Partial(e, j)
      invariant forall i :: 0 <= i < j ==> e[i] == EncAt(W, N, K, Address(slot, byte, i))
    {
      AddressOfWeight(N, K, Address(slot, byte, j));
      var enc := Enc(At(W, N, K, WeightOf(K, Address(slot, byte, j))));
      b := b | ((enc & 3) << (2 * j));
      SamePartial(e, enc, j);
      e := e + [enc];
    }
    WholeByte(e);
  }

  lemma {:induction false} SamePartial(e: seq<bv8>, x: bv8, j: nat)
    requires j <= |e| && j <= 4
    ensures Partial(e + [x], j) == Partial(e, j)
  {
    if j > 0 {
      SamePartial(e, x, j - 1);
    }
  }

  lemma SlotCount(N: nat, K: nat)
    requires ValidShape(N, K)
    ensures N * K / 16 == Slots(N, K)
  {
    assert N == 16 * (N / 16);
    assert N * K == 16 * (N / 16 * K);
  }

  method CountSlots(N: nat, K: nat) returns (n: nat)
    requires ValidShape(N, K)
    ensures n == Slots(N, K)
  {
    SlotCount(N, K);
    n := N * K / 16;
  }

  lemma PackedByte(W: seq<int>, N: nat, K: nat, slot: nat, byte: nat)
    requires ValidShape(N, K) && Matrix(W, N, K) && TwoBit(W) && slot < Slots(N, K) && byte < 4
    ensures Pack(W, N, K)[4 * slot + byte] == ByteAt(W, N, K, slot, byte)
  {
    hide ByteAt, Area, TwoBit, Matrix;
    var i := 4 * slot + byte;
    assert i / 4 == slot && i % 4 == byte;
  }

  /** Stores the four bytes of a slot. */
  method PackSlot(W: seq<int>, N: nat, K: nat, slot: nat, out: array<bv8>)
    requires ValidShape(N, K) && Matrix(W, N, K) && TwoBit(W) && Ternary(W)
    requires slot < Slots(N, K) && out.Length == 4 * Slots(N, K)
    requires forall i :: 0 <= i < 4 * slot ==> out[i] == Pack(W, N, K)[i]
    modifies out
    ensures forall i :: 0 <= i < 4 * slot + 4 ==> out[i] == Pack(W, N, K)[i]
  {
    hide Area, Matrix, TwoBit, ByteAt, ValidShape, Pack, Slots, Ternary;
    for byte := 0 to 4
      invariant forall i :: 0 <= i < 4 * slot + byte ==> out[i] == Pack(W, N, K)[i]
    {
      var b := AssembleByte(W, N, K, slot, byte);
      PackedByte(W, N, K, slot, byte);
      out[4 * slot + byte] := b;
    }
  }

  /** Packs a matrix, slot after slot. */
  method PackLadder(W: seq<int>, N: nat, K: nat) returns (out: array<bv8>)
    requires ValidShape(N, K) && Matrix(W, N, K) && Ternary(W)
    ensures fresh(out) && out[..] == Pack(W, N, K)
  {
    assert TwoBit(W);
    hide Area, Matrix, TwoBit, ByteAt, ValidShape, Pack, Slots, Ternary;
    var slots := CountSlots(N, K);
    out := new bv8[4 * slots];
    for s := 0 to slots
      invariant forall i :: 0 <= i < 4 * s ==> out[i] == Pack(W, N, K)[i]
    {
      PackSlot(W, N, K, s, out);
    }
  }
}
