/** The weight loader's tables: padded and rebuilt tensors, fused groups, and what is
    read for each. */
module WeightLoader {
  import opened Options
  import opened Vectors
  import opened MixedRadix
  import opened RowMajor
  import opened PadMlp

  datatype Kind = F32 | F16 | BF16 | I8 | Quantized(format: nat)

  /** A tensor of the file: its four extents, and all its rows of values. */
  datatype FileTensor = FileTensor(kind: Kind, ne0: nat, ne1: nat, ne2: nat, ne3: nat, rows: seq<Vec>) {
    predicate Valid(): (r: bool)
      ensures r ==> ne0 > 0 && ne1 > 0 && ne1 <= |rows| && Rows(rows, ne0)
      ensures r ==> (|rows| == ne1 <==> Dims() <= 2)
    {
      RowCount(ne1, ne2, ne3);
      ne0 > 0 && ne1 > 0 && ne2 > 0 && ne3 > 0 && |rows| == Area(ne1, Area(ne2, ne3)) && Rows(rows, ne0)
    }

    /** Trailing extents of one do not count. */
    function Dims(): nat {
      if ne3 > 1 then 4 else if ne2 > 1 then 3 else if ne1 > 1 then 2 else 1
    }
  }

  lemma RowCount(a: nat, b: nat, c: nat)
    ensures a > 0 && b > 0 && c > 0 ==>
              Area(a, Area(b, c)) >= a && (Area(a, Area(b, c)) == a <==> b == 1 && c == 1)
  {
    if a > 0 && b > 0 && c > 0 {
      AreaLarger(1, 1, b, c);
      AreaLarger(a, 1, a, Area(b, c));
      assert a * 1 == a;
    }
  }

  datatype Size = Size(ne0: nat, ne1: nat)

  /** Rows rebuilt as floats, in place of the file's: the size announced, and what the
      rebuilding makes, should it succeed. */
  datatype Rebuilt = Rebuilt(K: nat, N: nat, made: Option<seq<Vec>>) {
    predicate Succeeds() {
      made.Some? && |made.value| == N
    }
  }

  /** A tensor as fusing sees it. */
  datatype View = View(file: Kind, resident: Kind, ne0: nat, ne1: nat, dims: nat)

  datatype Group = Group(kind: Kind, size: nat, srcs: seq<string>)

  function FloatKind(want: Kind): Kind {
    if want == F32 || want == F16 || want == BF16 then want else F32
  }

  predicate ValidFile(file: map<string, FileTensor>) {
    forall name | name in file :: file[name].Valid()
  }

  predicate ValidRebuilt(asFloat: map<string, Rebuilt>) {
    forall name | name in asFloat && asFloat[name].made.Some? :: Rows(asFloat[name].made.value, asFloat[name].K)
  }

  /** Every padded tensor fits its padded size, as declaring it checks. */
  predicate PadsFit(file: map<string, FileTensor>, pads: map<string, Size>) {
    forall name | name in pads && name in file ::
      file[name].ne0 <= pads[name].ne0 && file[name].ne1 <= pads[name].ne1
  }

  datatype Read = Read(ne0: nat, rows: seq<Vec>)

  // ---------- what the tables mean ----------

  /** What is resident for a name: the rebuilt rows if rebuilding succeeds, the first
      plane's rows padded, or all of the file's. */
  function Resident(file: map<string, FileTensor>, asFloat: map<string, Rebuilt>, pads: map<string, Size>,
                    name: string): (r: Option<Read>)
    requires ValidFile(file) && ValidRebuilt(asFloat) && PadsFit(file, pads)
    ensures r.Some? ==> Rows(r.value.rows, r.value.ne0)
  {
    if name in asFloat then
      if asFloat[name].Succeeds() then Some(Read(asFloat[name].K, asFloat[name].made.value)) else None
    else if name !in file then None
    else if name !in pads then Some(Read(file[name].ne0, file[name].rows))
    else
      var t, p := file[name], pads[name];
      Some(Read(p.ne0, PadRows(t.rows[..t.ne1], t.ne0, p.ne0, p.ne1)))
  }

  /** The conditions under which an MLP is widened. */
  predicate Widens(file: map<string, FileTensor>, gemm: Kind, hexagon: bool, w1: string, w2: string) {
    && w1 in file && w2 in file
    && !gemm.Quantized? && !file[w1].kind.Quantized? && !file[w2].kind.Quantized?
    && GemmWidth(file[w1].ne1, hexagon) != file[w1].ne1 && file[w2].ne0 == file[w1].ne1
  }

  function PadsAfter(file: map<string, FileTensor>, gemm: Kind, hexagon: bool, pads: map<string, Size>,
                     w1: string, b1: string, w2: string): map<string, Size>
  {
    if Widens(file, gemm, hexagon, w1, w2) then
      var width := GemmWidth(file[w1].ne1, hexagon);
      pads[w1 := Size(file[w1].ne0, width)][b1 := Size(width, 1)][w2 := Size(width, file[w2].ne1)]
    else pads
  }

  /** The MLP of three tensors; the second layer's bias is never padded. */
  function NetOf(w1: Read, b1: Read, f: real -> real, w2: Read, b2: Vec, x: Vec): (r: Vec)
    requires Rows(w1.rows, |x|) && |b1.rows| == 1 && |b1.rows[0]| == |w1.rows|
    requires Rows(w2.rows, |w1.rows|) && |b2| == |w2.rows|
  {
    Mlp(w1.rows, b1.rows[0], f, w2.rows, b2, x)
  }

  /** Two layers, matrices and a vector, that fit together. */
  predicate Layers(file: map<string, FileTensor>, w1: string, b1: string, w2: string) {
    && w1 in file && b1 in file && w2 in file && w1 != b1 && w1 != w2 && b1 != w2
    && file[w1].Dims() <= 2 && file[w2].Dims() <= 2 && file[b1].Dims() == 1
    && file[b1].ne0 == file[w1].ne1 && file[w2].ne0 == file[w1].ne1
  }

  /** What a matrix or vector of the file reads as. */
  lemma ReadsAs(file: map<string, FileTensor>, asFloat: map<string, Rebuilt>, pads: map<string, Size>, name: string)
    requires ValidFile(file) && ValidRebuilt(asFloat) && PadsFit(file, pads)
    requires name in file && name !in asFloat && file[name].Dims() <= 2
    ensures var f := file[name];
            && |f.rows| == f.ne1 && Rows(f.rows, f.ne0)
            && (name in pads ==> f.ne0 <= pads[name].ne0 && f.ne1 <= pads[name].ne1)
            && Resident(file, asFloat, pads, name)
               == Some(if name in pads then
                         Read(pads[name].ne0, PadRows(f.rows, f.ne0, pads[name].ne0, pads[name].ne1))
                       else Read(f.ne0, f.rows))
  {
    var f := file[name];
    assert f.Valid();
    assert f.rows[..f.ne1] == f.rows;
  }

  /** The padded sizes of a widened MLP hold its tensors. */
  lemma WidenedFits(file: map<string, FileTensor>, pads: map<string, Size>, gemm: Kind, hexagon: bool, w1: string,
                    b1: string, w2: string)
    requires ValidFile(file) && PadsFit(file, pads) && Layers(file, w1, b1, w2)
    ensures PadsFit(file, PadsAfter(file, gemm, hexagon, pads, w1, b1, w2))
  {
    GemmWidthLeast(file[w1].ne1, hexagon, 0);
    hide GemmWidth, FileTensor.Valid;
  }

  /** Widening preserves the network: whatever else is padded or rebuilt, what is
      resident afterwards outputs what the file's tensors do, for every input and
      activation. */
  lemma WideningPreserves(file: map<string, FileTensor>, asFloat: map<string, Rebuilt>, pads: map<string, Size>,
                          gemm: Kind, hexagon: bool, w1: string, b1: string, w2: string,
                          f: real -> real, b2: Vec, x: Vec)
    requires ValidFile(file) && ValidRebuilt(asFloat) && PadsFit(file, pads) && Layers(file, w1, b1, w2)
    requires forall name | name in {w1, b1, w2} :: name !in asFloat && name !in pads && file[name].Valid()
    requires |x| == file[w1].ne0 && |b2| == |file[w2].rows|
    ensures PadsFit(file, PadsAfter(file, gemm, hexagon, pads, w1, b1, w2))
    ensures var now := PadsAfter(file, gemm, hexagon, pads, w1, b1, w2);
            var r1, r2, r3 := Resident(file, asFloat, now, w1), Resident(file, asFloat, now, b1),
                              Resident(file, asFloat, now, w2);
            && r1.Some? && r2.Some? && r3.Some?
            && Rows(r1.value.rows, |x|) && |r2.value.rows| == 1 && |r2.value.rows[0]| == |r1.value.rows|
            && Rows(r3.value.rows, |r1.value.rows|) && |b2| == |r3.value.rows|
            && NetOf(r1.value, r2.value, f, r3.value, b2, x)
               == Mlp(file[w1].rows, file[b1].rows[0], f, file[w2].rows, b2, x)
  {
    hide Mlp, GemmWidth, PadVec, Resident, ValidFile, ValidRebuilt, PadsFit, FileTensor.Valid, FileTensor.Dims;
    var now := PadsAfter(file, gemm, hexagon, pads, w1, b1, w2);
    var ff := file[w1].ne1;
    var width := GemmWidth(ff, hexagon);
    GemmWidthLeast(ff, hexagon, 0);
    WidenedFits(file, pads, gemm, hexagon, w1, b1, w2);
    ReadsAs(file, asFloat, now, w1);
    ReadsAs(file, asFloat, now, b1);
    ReadsAs(file, asFloat, now, w2);
    VectorRow(file[b1]);
    if Widens(file, gemm, hexagon, w1, w2) {
      var b := file[b1].rows;
      assert PadRows(b, ff, width, 1)[0] == PadVec(b[0], width);
      PaddingPreserves(file[w1].rows, b[0], f, file[w2].rows, b2, x, width);
    }
  }

  lemma VectorRow(f: FileTensor)
    requires f.Dims() == 1
    ensures f.Dims() <= 2 && f.ne1 <= 1
  {
  }

  // ---------- fusing ----------

  /** The loader's tables at one moment. */
  datatype Tables = Tables(file: map<string, FileTensor>, asFloat: map<string, Rebuilt>, pads: map<string, Size>)
  {
    predicate Valid() {
      ValidFile(file) && ValidRebuilt(asFloat) && PadsFit(file, pads)
    }

    /** The values resident for a name, end to end. */
    function Flat(name: string): (v: Option<Vec>)
      requires Valid()
    {
      var r := Resident(file, asFloat, pads, name);
      if r.Some? then Some(Stack(r.value.rows, r.value.ne0)) else None
    }
  }

  function ViewOf(t: Tables, resident: (Kind, Kind) -> Kind, want: Kind, name: string): View
    requires name in t.file
  {
    if name in t.asFloat then View(F32, FloatKind(want), t.asFloat[name].K, t.asFloat[name].N, 2)
    else
      var f := t.file[name];
      View(f.kind, resident(f.kind, want), f.ne0, f.ne1, f.Dims())
  }

  /** A source that can follow the first. */
  predicate Follows(v: View, first: View) {
    && v.resident == first.resident && (first.resident == first.file ==> v.file == first.file)
    && (first.dims == 1 || v.ne0 == first.ne0) && v.dims == first.dims
  }

  predicate Fuses(t: Tables, resident: (Kind, Kind) -> Kind, want: Kind, srcs: seq<string>) {
    && |srcs| > 0 && srcs[0] in t.file
    && forall i :: 0 <= i < |srcs| ==>
         srcs[i] in t.file && Follows(ViewOf(t, resident, want, srcs[i]), ViewOf(t, resident, want, srcs[0]))
  }

  /** Entries of a vector, of any other source the rows of one plane. */
  function Extent(v: View, flat: bool): nat {
    if flat then v.ne0 else v.ne1
  }

  function Extents(t: Tables, resident: (Kind, Kind) -> Kind, want: Kind, srcs: seq<string>, flat: bool): nat
    requires forall i :: 0 <= i < |srcs| ==> srcs[i] in t.file
  {
    if |srcs| == 0 then 0
    else
      Extents(t, resident, want, srcs[..|srcs| - 1], flat)
      + Extent(ViewOf(t, resident, want, srcs[|srcs| - 1]), flat)
  }

  /** The values a fused tensor has room for. */
  function FusedSize(t: Tables, resident: (Kind, Kind) -> Kind, want: Kind, srcs: seq<string>): nat
    requires Fuses(t, resident, want, srcs)
  {
    var first := ViewOf(t, resident, want, srcs[0]);
    var n := Extents(t, resident, want, srcs, first.dims == 1);
    if first.dims == 1 then n else Area(n, first.ne0)
  }

  /** What is read for every source, end to end, if all can be read. */
  function Parts(t: Tables, srcs: seq<string>): Option<Vec>
    requires t.Valid()
  {
    if |srcs| == 0 then Some([])
    else
      var a, b := Parts(t, srcs[..|srcs| - 1]), t.Flat(srcs[|srcs| - 1]);
      if a.Some? && b.Some? then Some(a.value + b.value) else None
  }

  /** Values of one plane of a source as the file, or its rebuilding, has them. */
  function Entries(t: Tables, resident: (Kind, Kind) -> Kind, want: Kind, name: string): nat
    requires name in t.file
  {
    var v := ViewOf(t, resident, want, name);
    Area(v.ne1, v.ne0)
  }

  /** No rebuilding fails. */
  predicate Readable(t: Tables, name: string) {
    name in t.asFloat ==> t.asFloat[name].Succeeds()
  }

  /** One plane is read and no more: the source is rebuilt, or it is a matrix that is not
      padded, or one whose padding adds nothing. */
  predicate OnePlane(t: Tables, name: string)
    requires name in t.file
  {
    var f := t.file[name];
    name in t.asFloat || if name in t.pads then t.pads[name] == Size(f.ne0, f.ne1) else f.Dims() <= 2
  }

  /** Padding and further planes are all that changes how many values are resident. */
  lemma FlatSize(t: Tables, resident: (Kind, Kind) -> Kind, want: Kind, name: string)
    requires t.Valid() && name in t.file
    ensures t.Flat(name).Some? <==> Readable(t, name)
    ensures t.Flat(name).Some? ==> |t.Flat(name).value| >= Entries(t, resident, want, name)
    ensures t.Flat(name).Some? ==>
              (|t.Flat(name).value| == Entries(t, resident, want, name) <==> OnePlane(t, name))
  {
    hide Area, Stack;
    if name !in t.asFloat {
      var f := t.file[name];
      assert f.Valid();
      if name in t.pads {
        AreaLarger(f.ne1, f.ne0, t.pads[name].ne1, t.pads[name].ne0);
      } else {
        AreaLarger(f.ne1, f.ne0, |f.rows|, f.ne0);
      }
    }
  }

  lemma AreaLarger(a: nat, b: nat, c: nat, d: nat)
    requires a <= c && b <= d
    ensures Area(a, b) <= Area(c, d)
    ensures a > 0 && b > 0 && (a < c || b < d) ==> Area(a, b) < Area(c, d)
  {
    assert (c - a) * b >= 0 && (d - b) * c >= 0;
    assert (c - a) * b == c * b - a * b && (d - b) * c == c * d - c * b;
    if a > 0 && b > 0 {
      AreaGrows(c, a, b);
      AreaGrows(d, b, c);
    }
  }

  function EntriesOf(t: Tables, resident: (Kind, Kind) -> Kind, want: Kind, srcs: seq<string>): nat
    requires forall i :: 0 <= i < |srcs| ==> srcs[i] in t.file
  {
    if |srcs| == 0 then 0
    else
      EntriesOf(t, resident, want, srcs[..|srcs| - 1]) + Entries(t, resident, want, srcs[|srcs| - 1])
  }

  lemma {:induction false} PartsSize(t: Tables, resident: (Kind, Kind) -> Kind, want: Kind, srcs: seq<string>)
    requires t.Valid() && forall i :: 0 <= i < |srcs| ==> srcs[i] in t.file
    ensures Parts(t, srcs).Some? <==> forall i :: 0 <= i < |srcs| ==> Readable(t, srcs[i])
    ensures Parts(t, srcs).Some? ==> |Parts(t, srcs).value| >= EntriesOf(t, resident, want, srcs)
    ensures Parts(t, srcs).Some? ==>
              (|Parts(t, srcs).value| == EntriesOf(t, resident, want, srcs)
               <==> forall i :: 0 <= i < |srcs| ==> OnePlane(t, srcs[i]))
    decreases |srcs|
  {
    hide Entries, Resident, ValidFile, ValidRebuilt, PadsFit, Stack, Readable, OnePlane;
    if |srcs| > 0 {
      var m := |srcs| - 1;
      PartsSize(t, resident, want, srcs[..m]);
      FlatSize(t, resident, want, srcs[m]);
      assert srcs == srcs[..m] + [srcs[m]];
      assert forall i :: 0 <= i < m ==> srcs[i] == srcs[..m][i];
    }
  }

  /** Room and sources agree: rows of one length, or vectors. */
  lemma {:induction false} RoomIsEntries(t: Tables, resident: (Kind, Kind) -> Kind, want: Kind, srcs: seq<string>,
                                        first: View)
    requires t.Valid() && forall i :: 0 <= i < |srcs| ==>
               srcs[i] in t.file && Follows(ViewOf(t, resident, want, srcs[i]), first)
    ensures EntriesOf(t, resident, want, srcs)
            == if first.dims == 1 then Extents(t, resident, want, srcs, true)
               else Area(Extents(t, resident, want, srcs, false), first.ne0)
    decreases |srcs|
  {
    hide Area;
    AreaZero(first.ne0);
    if |srcs| > 0 {
      var m := |srcs| - 1;
      RoomIsEntries(t, resident, want, srcs[..m], first);
      var v := ViewOf(t, resident, want, srcs[m]);
      if first.dims == 1 {
        assert t.file[srcs[m]].Valid();
        AreaOne(v.ne0);
      } else {
        AreaAdds(Extents(t, resident, want, srcs[..m], false), v.ne1, first.ne0);
      }
    }
  }

  lemma AreaZero(a: nat)
    ensures Area(0, a) == 0
  {
  }

  lemma AreaOne(a: nat)
    ensures Area(1, a) == a
  {
  }

  lemma AreaAdds(a: nat, b: nat, c: nat)
    ensures Area(a + b, c) == Area(a, c) + Area(b, c)
  {
  }

  /** What a fused tensor with room for `size` values is filled with, if it is. */
  function Fill(t: Tables, srcs: seq<string>, size: nat): Option<Vec>
    requires t.Valid()
  {
    var parts := Parts(t, srcs);
    if parts.Some? && |parts.value| == size then parts else None
  }

  /** A declared group is filled exactly if every source that is to be rebuilt can be, and
      every other is a matrix or vector without a padded size of its own. */
  lemma FillsExactly(t: Tables, resident: (Kind, Kind) -> Kind, want: Kind, srcs: seq<string>)
    requires t.Valid() && Fuses(t, resident, want, srcs)
    ensures Fill(t, srcs, FusedSize(t, resident, want, srcs)).Some?
            <==> forall i :: 0 <= i < |srcs| ==> Readable(t, srcs[i]) && OnePlane(t, srcs[i])
  {
    hide Parts, Area, Extents, EntriesOf, ViewOf, Readable, OnePlane, ValidFile, ValidRebuilt, PadsFit;
    PartsSize(t, resident, want, srcs);
    RoomIsEntries(t, resident, want, srcs, ViewOf(t, resident, want, srcs[0]));
  }

  /** A group of one padded matrix is declared, and filling it fails. */
  lemma PaddedSourceFails(resident: (Kind, Kind) -> Kind)
    ensures var t := Tables(map["w" := FileTensor(F32, 1, 2, 1, 1, [[0.0], [0.0]])], map[],
                            map["w" := Size(1, 32)]);
            t.Valid() && t.file["w"].Dims() == 2 && Fuses(t, resident, F32, ["w"])
            && Fill(t, ["w"], FusedSize(t, resident, F32, ["w"])).None?
  {
    var t := Tables(map["w" := FileTensor(F32, 1, 2, 1, 1, [[0.0], [0.0]])], map[], map["w" := Size(1, 32)]);
    assert t.Valid() && Fuses(t, resident, F32, ["w"]);
    hide Fill, FusedSize;
    FillsExactly(t, resident, F32, ["w"]);
    assert !OnePlane(t, ["w"][0]);
  }

  /** So is a group of one tensor of two planes, and filling that fails too. */
  lemma PlanesFail(resident: (Kind, Kind) -> Kind)
    ensures var t := Tables(map["w" := FileTensor(F32, 1, 1, 2, 1, [[0.0], [0.0]])], map[], map[]);
            t.Valid() && t.file["w"].Dims() == 3 && Fuses(t, resident, F32, ["w"])
            && Fill(t, ["w"], FusedSize(t, resident, F32, ["w"])).None?
  {
    var t := Tables(map["w" := FileTensor(F32, 1, 1, 2, 1, [[0.0], [0.0]])], map[], map[]);
    assert t.Valid() && Fuses(t, resident, F32, ["w"]);
    hide Fill, FusedSize;
    FillsExactly(t, resident, F32, ["w"]);
    assert !OnePlane(t, ["w"][0]);
  }

  // ---------- the loader ----------

  class Loader {
    const file: map<string, FileTensor>
    const gemm: Kind
    const hexagon: bool
    const resident: (Kind, Kind) -> Kind
    var asFloat: map<string, Rebuilt>
    var pads: map<string, Size>
    var fused: seq<Group>
    var ok: bool

    constructor (file: map<string, FileTensor>, gemm: Kind, hexagon: bool, resident: (Kind, Kind) -> Kind)
      ensures this.file == file && this.gemm == gemm && this.hexagon == hexagon && this.resident == resident
      ensures asFloat == map[] && pads == map[] && fused == [] && ok
    {
      this.file, this.gemm, this.hexagon, this.resident := file, gemm, hexagon, resident;
      asFloat, pads, fused, ok := map[], map[], [], true;
    }

    function Now(): Tables
      reads this
    {
      Tables(file, asFloat, pads)
    }

    method Pad(name: string, ne0: nat, ne1: nat)
      modifies this`pads
      ensures pads == old(pads)[name := Size(ne0, ne1)]
    {
      pads := pads[name := Size(ne0, ne1)];
    }

    /** Widens an MLP where the backend wants it wider and it can be padded. */
    method PadMlp(fc1: string, fc2: string)
      modifies this`pads
      ensures pads == PadsAfter(file, gemm, hexagon, old(pads), fc1 + ".weight", fc1 + ".bias", fc2 + ".weight")
    {
      var w1, w2 := fc1 + ".weight", fc2 + ".weight";
      if w1 !in file || w2 !in file || gemm.Quantized? || file[w1].kind.Quantized? || file[w2].kind.Quantized? {
        return;
      }
      var ff := file[w1].ne1;
      var fp := GemmWidth(ff, hexagon);
      if fp == ff || file[w2].ne0 != ff {
        return;
      }
      Pad(w1, file[w1].ne0, fp);
      Pad(fc1 + ".bias", fp, 1);
      Pad(w2, fp, file[w2].ne1);
    }

    /** Reads what is resident for a name. */
    method ReadResident(name: string) returns (out: Option<array<real>>)
      requires Now().Valid()
      ensures out.Some? <==> Now().Flat(name).Some?
      ensures out.Some? ==> fresh(out.value) && Some(out.value[..]) == Now().Flat(name)
    {
      hide Stack, PadRows;
      if name in asFloat {
        var a := asFloat[name];
        if !a.Succeeds() {
          return None;
        }
        var rows := CopyPadded(a.made.value, a.K, a.K, a.N);
        PadsNothing(a.made.value, a.K);
        return Some(rows);
      }
      if name !in file {
        return None;
      }
      var t := file[name];
      assert t.Valid();
      var all := name !in pads;
      var p := if all then Size(t.ne0, |t.rows|) else pads[name];
      var rows := CopyPadded(if all then t.rows else t.rows[..t.ne1], t.ne0, p.ne0, p.ne1);
      PadsNothing(t.rows, t.ne0);
      return Some(rows);
    }

    /** Declares a tensor of the sources end to end. */
    method Fuse(want: Kind, srcs: seq<string>) returns (r: Option<Group>)
      requires Now().Valid()
      modifies this`fused, this`ok
      ensures r.Some? <==> Fuses(Now(), resident, want, srcs)
      ensures r.Some? ==> fused == old(fused) + [r.value] && ok == old(ok) && r.value.srcs == srcs
                          && r.value.size == FusedSize(Now(), resident, want, srcs)
      ensures r.None? ==> fused == old(fused) && !ok
    {
      hide ValidFile, ValidRebuilt, PadsFit, Area;
      if |srcs| == 0 || srcs[0] !in file {
        ok := false;
        return None;
      }
      var v0 := ViewOf(Now(), resident, want, srcs[0]);
      var rows := 0;
      for i := 0 to |srcs|
        invariant forall j :: 0 <= j < i ==>
                    srcs[j] in file && Follows(ViewOf(Now(), resident, want, srcs[j]), v0)
        invariant forall j :: 0 <= j < |srcs[..i]| ==> srcs[..i][j] in file
        invariant rows == Extents(Now(), resident, want, srcs[..i], v0.dims == 1)
      {
        if srcs[i] !in file || !Follows(ViewOf(Now(), resident, want, srcs[i]), v0) {
          ok := false;
          return None;
        }
        assert srcs[..i + 1][..i] == srcs[..i] && srcs[..i + 1][i] == srcs[i];
        rows := rows + Extent(ViewOf(Now(), resident, want, srcs[i]), v0.dims == 1);
      }
      assert srcs[..|srcs|] == srcs;
      var size := if v0.dims == 1 then rows else Area(rows, v0.ne0);
      var g := Group(v0.resident, size, srcs);
      fused := fused + [g];
      return Some(g);
    }

    /** Fills a declared group, or fails on a source that cannot be read or a total of
        another size. */
    method FillFused(g: Group) returns (r: Option<Vec>)
      requires Now().Valid()
      ensures r == Fill(Now(), g.srcs, g.size)
    {
      hide ValidFile, ValidRebuilt, PadsFit, Resident, Stack;
      var parts: Vec := [];
      for i := 0 to |g.srcs|
        invariant Parts(Now(), g.srcs[..i]) == Some(parts)
      {
        assert g.srcs[..i + 1][..i] == g.srcs[..i];
        var b := ReadResident(g.srcs[i]);
        if b.None? {
          Unreadable(Now(), g.srcs, i);
          return None;
        }
        parts := parts + b.value[..];
      }
      assert g.srcs[..|g.srcs|] == g.srcs;
      r := if |parts| == g.size then Some(parts) else None;
    }
  }

  lemma PadsNothing(rows: seq<Vec>, K: nat)
    requires Rows(rows, K)
    ensures PadRows(rows, K, K, |rows|) == rows
  {
    forall n | 0 <= n < |rows| ensures PadRows(rows, K, K, |rows|)[n] == rows[n] {
      assert rows[n] + Zeros(0) == rows[n];
    }
  }

  lemma {:induction false} Unreadable(t: Tables, srcs: seq<string>, i: nat)
    requires t.Valid() && i < |srcs| && t.Flat(srcs[i]).None?
    ensures Parts(t, srcs).None?
    decreases |srcs|
  {
    hide ValidFile, ValidRebuilt, PadsFit, Resident, Stack;
    if i < |srcs| - 1 {
      Unreadable(t, srcs[..|srcs| - 1], i);
    }
  }
}
