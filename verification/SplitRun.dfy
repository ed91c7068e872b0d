/** What one run on the CPU does to device memory, and when that is what running
    the same nodes on the device does.

    A run works on host copies.  A tensor from outside the run is read where the
    host can see it, and otherwise copied once, at the start; a view gets its own
    copy.  A node of the run has its own host storage unless it is a view, which
    lies in the storage of its source.  Results go back in node order. */
module SplitRun {
  import opened Options
  import opened Graphs

  /** Where a run starting at node `i0` finds a tensor: in the host storage of an
      owner, or in device memory itself. */
  datatype Place = Own(owner: TensorId, offs: nat) | Dev(addr: nat)

  predicate Copied(g: Graph, i0: nat, t: TensorId)
    requires t < |g.tensors|
  {
    t < i0 && g.tensors[t].buffer.Device?
  }

  function Home(g: Graph, i0: nat, t: TensorId): Place
    requires t < |g.tensors|
  {
    var x := g.tensors[t];
    if Copied(g, i0, t) then Own(t, 0)
    else if t < i0 || (x.viewSrc.Some? && x.viewSrc.value < i0 && !x.buffer.Device?) then Dev(x.data)
    else if x.viewSrc.Some? then Own(x.viewSrc.value, x.viewOffs)
    else Own(t, 0)
  }

  /** Device memory and the host storage of every owner. */
  datatype State = State(dev: Mem, own: seq<Mem>)

  ghost predicate StateOk(g: Graph, s: State) {
    && |s.dev| == g.size
    && |s.own| == |g.tensors|
    && forall t :: 0 <= t < |g.tensors| ==> |s.own[t]| == g.tensors[t].nbytes
  }

  lemma HomeInBounds(g: Graph, i0: nat, t: TensorId)
    requires g.Valid() && t < |g.tensors|
    ensures match Home(g, i0, t)
            case Own(o, offs) => o < |g.tensors| && offs + g.tensors[t].nbytes <= g.tensors[o].nbytes
            case Dev(a) => a == g.tensors[t].data && a + g.tensors[t].nbytes <= g.size
  {
    assert g.ValidTensor(t);
  }

  ghost function Load(g: Graph, i0: nat, s: State, t: TensorId): (r: Mem)
    requires g.Valid() && StateOk(g, s) && t < |g.tensors|
    ensures |r| == g.tensors[t].nbytes
  {
    HomeInBounds(g, i0, t);
    match Home(g, i0, t)
    case Own(o, offs) => Read(s.own[o], offs, g.tensors[t].nbytes)
    case Dev(a) => Read(s.dev, a, g.tensors[t].nbytes)
  }

  ghost function Store(g: Graph, i0: nat, s: State, t: TensorId, v: Mem): (r: State)
    requires g.Valid() && StateOk(g, s)
    requires t < |g.tensors| && |v| == g.tensors[t].nbytes
    ensures StateOk(g, r)
  {
    HomeInBounds(g, i0, t);
    match Home(g, i0, t)
    case Own(o, offs) => s.(own := s.own[o := Write(s.own[o], offs, v)])
    case Dev(a) => s.(dev := Write(s.dev, a, v))
  }

  ghost function LoadAll(g: Graph, i0: nat, s: State, src: seq<TensorId>): (r: seq<Mem>)
    requires g.Valid() && StateOk(g, s)
    requires forall i :: 0 <= i < |src| ==> src[i] < |g.tensors|
    ensures |r| == |src|
    ensures forall i :: 0 <= i < |src| ==> r[i] == Load(g, i0, s, src[i])
  {
    seq(|src|, i requires 0 <= i < |src| => Load(g, i0, s, src[i]))
  }

  /** Host storage at the start: the device's bytes, which is what the copied
      tensors get; the others are written before they are read. */
  ghost function Start(g: Graph, mem: Mem): (r: State)
    requires g.Valid() && |mem| == g.size
    ensures StateOk(g, r) && r.dev == mem
  {
    assert forall t :: 0 <= t < |g.tensors| ==> g.ValidTensor(t);
    State(mem, seq(|g.tensors|, t requires 0 <= t < |g.tensors| =>
      assert g.ValidTensor(t); Read(mem, g.tensors[t].data, g.tensors[t].nbytes)))
  }

  ghost function HostResult(g: Graph, i0: nat, s: State, k: TensorId): (r: Mem)
    requires g.Valid() && g.Fits() && StateOk(g, s) && k < |g.tensors|
    ensures |r| == g.tensors[k].nbytes
  {
    assert g.ValidTensor(k);
    assert forall i :: 0 <= i < |g.tensors[k].src| ==> g.tensors[k].src[i] in g.tensors[k].src;
    g.kernel(k, LoadAll(g, i0, s, g.tensors[k].src),
      if g.tensors[k].viewSrc.Some? then Load(g, i0, s, k) else [])
  }

  /** Node `k` computed on host copies. */
  ghost function HostStep(g: Graph, i0: nat, s: State, k: TensorId): (r: State)
    requires g.Valid() && g.Fits() && StateOk(g, s) && k < |g.tensors|
    ensures StateOk(g, r)
  {
    if IsViewOp(g.tensors[k].op) then s
    else Store(g, i0, s, k, HostResult(g, i0, s, k))
  }

  /** Nodes `i0` to `k` of a run computed on host copies. */
  ghost function Compute(g: Graph, mem: Mem, i0: nat, k: nat): (r: State)
    requires g.Valid() && |mem| == g.size && g.Fits() && i0 <= k <= |g.tensors|
    ensures StateOk(g, r)
    decreases k
  {
    if k == i0 then Start(g, mem)
    else HostStep(g, i0, Compute(g, mem, i0, k - 1), k - 1)
  }

  /** The results of nodes `i0` to `k` copied back, in node order. */
  ghost function WriteBack(g: Graph, i0: nat, s: State, k: nat): (r: State)
    requires g.Valid() && StateOk(g, s) && i0 <= k <= |g.tensors|
    ensures StateOk(g, r) && r.own == s.own
    decreases k
  {
    if k == i0 then s
    else
      var p := WriteBack(g, i0, s, k - 1);
      assert g.ValidTensor(k - 1);
      if IsViewOp(g.tensors[k - 1].op) then p
      else p.(dev := Write(p.dev, g.tensors[k - 1].data, Load(g, i0, p, k - 1)))
  }

  /** Device memory after a run of nodes `i0` to `i1` on the CPU. */
  ghost function CpuRun(g: Graph, mem: Mem, i0: nat, i1: nat): (r: Mem)
    requires g.Valid() && |mem| == g.size && g.Fits() && i0 <= i1 <= |g.tensors|
    ensures |r| == |mem|
  {
    WriteBack(g, i0, Compute(g, mem, i0, i1), i1).dev
  }

  // ---------- when a CPU run is what the device would have done ----------

  /** Node `j` is computed directly in device memory. */
  predicate InPlaceOnDevice(g: Graph, i0: nat, j: TensorId)
    requires j < |g.tensors|
  {
    Home(g, i0, j).Dev?
  }

  /** Node `k` of the run that starts at node `i0` reads the copied view `t` after
      node `j` of the run wrote address `a` of it. */
  predicate StaleAt(g: Graph, i0: nat, k: TensorId, t: TensorId, j: TensorId, a: int) {
    && g.leafs <= i0 <= j < k < |g.tensors| && t < k
    && t in g.tensors[k].src && !IsViewOp(g.tensors[k].op) && g.tensors[k].nbytes > 0
    && Copied(g, i0, t) && g.tensors[t].viewSrc.Some?
    && g.Writes(j, a) && g.Covers(t, a)
  }

  ghost predicate NoStaleRead(g: Graph, i0: nat, i1: nat) {
    forall k: TensorId, t: TensorId, j: TensorId, a: int :: k < i1 ==> !StaleAt(g, i0, k, t, j, a)
  }

  /** At time `k` the run's storage for `t` is up to date at address `a`. */
  ghost predicate Current(g: Graph, i0: nat, k: nat, t: TensorId, a: int)
    requires k <= |g.tensors| && t < |g.tensors|
  {
    forall j :: i0 <= j < k && g.Base(t) <= j && g.Writes(j, a) ==>
      && g.Base(j) == g.Base(t)
      && !(Copied(g, i0, t) && g.tensors[t].viewSrc.Some?)
  }

  /** The byte of `t` at address `a`, as the run sees it. */
  ghost function Cell(g: Graph, i0: nat, s: State, t: TensorId, a: int): Byte
    requires g.Valid() && StateOk(g, s) && t < |g.tensors| && g.Covers(t, a)
  {
    HomeInBounds(g, i0, t);
    match Home(g, i0, t)
    case Own(o, offs) => s.own[o][offs + a - g.tensors[t].data]
    case Dev(d) => s.dev[a]
  }

  /** Everything current at time `k` agrees with device memory `m`. */
  ghost predicate Agrees(g: Graph, i0: nat, k: nat, s: State, m: Mem)
    requires g.Valid() && StateOk(g, s) && |m| == g.size && i0 <= k <= |g.tensors|
  {
    forall t, a :: 0 <= t < k && g.Covers(t, a) && Current(g, i0, k, t, a) ==>
      assert g.ValidTensor(t);
      Cell(g, i0, s, t, a) == m[a]
  }

  /** Device memory is up to date wherever only in-place nodes wrote. */
  ghost predicate DevAgrees(g: Graph, i0: nat, k: nat, s: State, m: Mem)
    requires |s.dev| == |m| && k <= |g.tensors|
  {
    forall a :: 0 <= a < |m| && OnlyInPlace(g, i0, k, a) ==> s.dev[a] == m[a]
  }

  ghost predicate OnlyInPlace(g: Graph, i0: nat, k: nat, a: int)
    requires k <= |g.tensors|
  {
    forall j :: i0 <= j < k && g.Writes(j, a) ==> InPlaceOnDevice(g, i0, j)
  }

  /** `t` lies in the same storage as node `k` of the run. */
  predicate Shares(g: Graph, i0: nat, t: TensorId, k: TensorId)
    requires t < |g.tensors| && k < |g.tensors|
  {
    g.Base(t) == g.Base(k) && !(Copied(g, i0, t) && g.tensors[t].viewSrc.Some?)
  }

  /** Tensors that share storage lie in it at the distance they have on the
      device; tensors that do not have different owners. */
  lemma HomesOf(g: Graph, i0: nat, t: TensorId, k: TensorId)
    requires g.Valid() && g.leafs <= i0 <= k < |g.tensors| && t <= k
    ensures match (Home(g, i0, t), Home(g, i0, k))
            case (Own(o, x), Own(p, y)) =>
              if Shares(g, i0, t, k) then o == p && x - g.tensors[t].data == y - g.tensors[k].data else o != p
            case (Dev(_), Dev(_)) => true
            case _ => !Shares(g, i0, t, k)
  {
    assert g.ValidTensor(t) && g.ValidTensor(k);
  }

  /** Storing node `k` changes exactly the cells it covers, in every tensor that
      shares its storage. */
  lemma CellAfterStore(g: Graph, i0: nat, s: State, k: TensorId, v: Mem, t: TensorId, a: int)
    requires g.Valid() && StateOk(g, s) && g.leafs <= i0 <= k < |g.tensors| && t <= k
    requires |v| == g.tensors[k].nbytes && g.Covers(t, a)
    ensures g.Covers(k, a) && Shares(g, i0, t, k) ==>
              Cell(g, i0, Store(g, i0, s, k, v), t, a) == v[a - g.tensors[k].data]
    ensures !g.Covers(k, a) ==> Cell(g, i0, Store(g, i0, s, k, v), t, a) == Cell(g, i0, s, t, a)
  {
    HomesOf(g, i0, t, k);
    HomeInBounds(g, i0, k);
    HomeInBounds(g, i0, t);
  }

  lemma LoadIsCell(g: Graph, i0: nat, s: State, t: TensorId, a: int)
    requires g.Valid() && StateOk(g, s) && t < |g.tensors| && g.Covers(t, a)
    ensures Load(g, i0, s, t)[a - g.tensors[t].data] == Cell(g, i0, s, t, a)
  {
    HomeInBounds(g, i0, t);
  }

  /** What a node of the run reads is what it would read on the device. */
  lemma LoadsFresh(g: Graph, i0: nat, i1: nat, k: nat, s: State, m: Mem, t: TensorId)
    requires g.Valid() && StateOk(g, s) && |m| == g.size && g.leafs <= i0 <= k < i1 <= |g.tensors|
    requires g.Live() && NoStaleRead(g, i0, i1) && Agrees(g, i0, k, s, m)
    requires t < k && t in g.tensors[k].src && !IsViewOp(g.tensors[k].op) && g.tensors[k].nbytes > 0
    ensures g.tensors[t].data + g.tensors[t].nbytes <= |m|
    ensures Load(g, i0, s, t) == Read(m, g.tensors[t].data, g.tensors[t].nbytes)
  {
    assert g.ValidTensor(t) && g.Reads(k, t);
    var x := g.tensors[t];
    forall i | 0 <= i < x.nbytes
      ensures Load(g, i0, s, t)[i] == m[x.data + i]
    {
      var a := x.data + i;
      LoadIsCell(g, i0, s, t, a);
      assert g.Covers(t, a);
      forall j | i0 <= j < k && g.Base(t) <= j && g.Writes(j, a)
        ensures g.Base(j) == g.Base(t) && !(Copied(g, i0, t) && x.viewSrc.Some?)
      {
        assert !g.Clobbers(k, t, j, a) && !StaleAt(g, i0, k, t, j, a);
      }
      assert Current(g, i0, k, t, a);
    }
  }

  /** An operation that writes through a view finds there what the device has. */
  lemma OldContentsFresh(g: Graph, i0: nat, k: nat, s: State, m: Mem)
    requires g.Valid() && StateOk(g, s) && |m| == g.size && g.leafs <= i0 <= k < |g.tensors|
    requires g.Live() && Agrees(g, i0, k, s, m)
    requires g.tensors[k].viewSrc.Some? && !IsViewOp(g.tensors[k].op)
    ensures g.tensors[k].data + g.tensors[k].nbytes <= |m|
    ensures Load(g, i0, s, k) == Read(m, g.tensors[k].data, g.tensors[k].nbytes)
  {
    assert g.ValidTensor(k) && g.Reads(k, k);
    var x, b := g.tensors[k], g.Base(k);
    HomesOf(g, i0, b, k);
    forall i | 0 <= i < x.nbytes
      ensures Load(g, i0, s, k)[i] == m[x.data + i]
    {
      var a := x.data + i;
      LoadIsCell(g, i0, s, k, a);
      assert g.Covers(k, a) && g.Covers(b, a);
      forall j | i0 <= j < k && b <= j && g.Writes(j, a)
        ensures g.Base(j) == b
      {
        assert !g.Clobbers(k, k, j, a);
      }
      assert Current(g, i0, k, b, a);
    }
  }

  lemma SameResult(g: Graph, i0: nat, i1: nat, k: nat, s: State, m: Mem)
    requires g.Valid() && g.Fits() && StateOk(g, s) && |m| == g.size && g.leafs <= i0 <= k < i1 <= |g.tensors|
    requires g.Live() && NoStaleRead(g, i0, i1) && Agrees(g, i0, k, s, m)
    requires !IsViewOp(g.tensors[k].op)
    ensures Step(g, m, k) ==
            (assert g.ValidTensor(k); Write(m, g.tensors[k].data, HostResult(g, i0, s, k)))
  {
    assert g.ValidTensor(k);
    var x := g.tensors[k];
    if x.nbytes == 0 {
      return;
    }
    forall i | 0 <= i < |x.src|
      ensures x.src[i] < |g.tensors|
      ensures g.tensors[x.src[i]].data + g.tensors[x.src[i]].nbytes <= |m|
      ensures Load(g, i0, s, x.src[i]) == Read(m, g.tensors[x.src[i]].data, g.tensors[x.src[i]].nbytes)
    {
      assert x.src[i] in x.src;
      LoadsFresh(g, i0, i1, k, s, m, x.src[i]);
    }
    assert LoadAll(g, i0, s, x.src) == ReadAll(g, m, x.src);
    if x.viewSrc.Some? {
      OldContentsFresh(g, i0, k, s, m);
    }
  }

  /** What is up to date after node `k` was so before, or is written by it. */
  lemma CurrentBefore(g: Graph, i0: nat, k: nat, s: State, m: Mem, t: TensorId, a: nat)
    requires g.Valid() && StateOk(g, s) && |m| == g.size && g.leafs <= i0 <= k < |g.tensors| && Agrees(g, i0, k, s, m)
    requires t < k + 1 && g.Covers(t, a) && Current(g, i0, k + 1, t, a) && (t < k || g.tensors[k].viewSrc.Some?)
    ensures g.ValidTensor(t) && Cell(g, i0, s, t, a) == m[a]
  {
    hide Agrees;
    assert g.ValidTensor(t) && g.ValidTensor(k);
    if t < k {
      assert Current(g, i0, k, t, a);
      Agreed(g, i0, k, s, m, t, a);
    } else {
      assert Current(g, i0, k, g.Base(k), a) && g.Covers(g.Base(k), a);
      Agreed(g, i0, k, s, m, g.Base(k), a);
      HomesOf(g, i0, g.Base(k), k);
    }
  }

  lemma Agreed(g: Graph, i0: nat, k: nat, s: State, m: Mem, t: TensorId, a: nat)
    requires g.Valid() && StateOk(g, s) && |m| == g.size && i0 <= k <= |g.tensors| && Agrees(g, i0, k, s, m)
    requires t < k && g.Covers(t, a) && Current(g, i0, k, t, a)
    ensures g.ValidTensor(t) && Cell(g, i0, s, t, a) == m[a]
  {
    hide Current, Cell;
    assert g.ValidTensor(t);
  }

  /** One byte after node `k` stored `v` in both memories. */
  lemma StoredCell(g: Graph, i0: nat, k: nat, s: State, m: Mem, v: Mem, t: TensorId, a: nat)
    requires g.Valid() && StateOk(g, s) && |m| == g.size && g.leafs <= i0 <= k < |g.tensors| && Agrees(g, i0, k, s, m)
    requires |v| == g.tensors[k].nbytes && g.tensors[k].data + |v| <= |m| && !IsViewOp(g.tensors[k].op)
    requires t < k + 1 && g.Covers(t, a) && Current(g, i0, k + 1, t, a)
    ensures g.ValidTensor(t) && Cell(g, i0, Store(g, i0, s, k, v), t, a) == Write(m, g.tensors[k].data, v)[a]
  {
    hide Agrees, Cell, Store;
    assert g.ValidTensor(t) && g.ValidTensor(k);
    CellAfterStore(g, i0, s, k, v, t, a);
    if g.Covers(k, a) {
      assert g.Writes(k, a);
    } else {
      CurrentBefore(g, i0, k, s, m, t, a);
    }
  }

  /** One byte after the step. */
  lemma StepCell(g: Graph, i0: nat, i1: nat, k: nat, s: State, m: Mem, t: TensorId, a: nat)
    requires g.Valid() && g.Fits() && StateOk(g, s) && |m| == g.size && g.leafs <= i0 <= k < i1 <= |g.tensors|
    requires g.Live() && NoStaleRead(g, i0, i1) && Agrees(g, i0, k, s, m)
    requires t < k + 1 && g.Covers(t, a) && Current(g, i0, k + 1, t, a)
    ensures g.ValidTensor(t) && Cell(g, i0, HostStep(g, i0, s, k), t, a) == Step(g, m, k)[a]
  {
    assert g.ValidTensor(t) && g.ValidTensor(k);
    hide Agrees, Cell, Store, NoStaleRead, HostResult, Current;
    if IsViewOp(g.tensors[k].op) {
      CurrentBefore(g, i0, k, s, m, t, a);
    } else {
      SameResult(g, i0, i1, k, s, m);
      StoredCell(g, i0, k, s, m, HostResult(g, i0, s, k), t, a);
    }
  }

  lemma StepAgrees(g: Graph, i0: nat, i1: nat, k: nat, s: State, m: Mem)
    requires g.Valid() && g.Fits() && StateOk(g, s) && |m| == g.size && g.leafs <= i0 <= k < i1 <= |g.tensors|
    requires g.Live() && NoStaleRead(g, i0, i1) && Agrees(g, i0, k, s, m)
    ensures Agrees(g, i0, k + 1, HostStep(g, i0, s, k), Step(g, m, k))
  {
    var s', m' := HostStep(g, i0, s, k), Step(g, m, k);
    assert Agrees(g, i0, k + 1, s', m') by {
      forall t, a | 0 <= t < k + 1 && g.Covers(t, a) && Current(g, i0, k + 1, t, a)
        ensures (assert g.ValidTensor(t); Cell(g, i0, s', t, a) == m'[a])
      {
        hide HostStep, Step, Cell, Agrees, NoStaleRead;
        StepCell(g, i0, i1, k, s, m, t, a);
      }
    }
  }

  lemma StepDevAgrees(g: Graph, i0: nat, i1: nat, k: nat, s: State, m: Mem)
    requires g.Valid() && g.Fits() && StateOk(g, s) && |m| == g.size && g.leafs <= i0 <= k < i1 <= |g.tensors|
    requires g.Live() && NoStaleRead(g, i0, i1) && Agrees(g, i0, k, s, m) && DevAgrees(g, i0, k, s, m)
    ensures DevAgrees(g, i0, k + 1, HostStep(g, i0, s, k), Step(g, m, k))
  {
    var s', m' := HostStep(g, i0, s, k), Step(g, m, k);
    HomeInBounds(g, i0, k);
    forall a | 0 <= a < |m| && OnlyInPlace(g, i0, k + 1, a)
      ensures s'.dev[a] == m'[a]
    {
      assert OnlyInPlace(g, i0, k, a);
      if !IsViewOp(g.tensors[k].op) {
        SameResult(g, i0, i1, k, s, m);
        assert g.Covers(k, a) ==> g.Writes(k, a);
      }
    }
  }

  lemma StartAgrees(g: Graph, mem: Mem, i0: nat)
    requires g.Valid() && |mem| == g.size && i0 <= |g.tensors|
    ensures Agrees(g, i0, i0, Start(g, mem), mem) && DevAgrees(g, i0, i0, Start(g, mem), mem)
  {
    forall t, a | 0 <= t < i0 && g.Covers(t, a)
      ensures (assert g.ValidTensor(t); Cell(g, i0, Start(g, mem), t, a) == mem[a])
    {
      assert g.ValidTensor(t);
      HomeInBounds(g, i0, t);
    }
  }

  lemma {:induction false} RunsInSteps(g: Graph, mem: Mem, i0: nat, k: nat)
    requires g.Valid() && g.Fits() && |mem| == g.size && g.leafs <= i0 <= k <= |g.tensors|
    ensures k == i0 ==> Compute(g, mem, i0, k) == Start(g, mem) && Eval(g, mem, i0, k) == mem
    ensures k > i0 ==>
              && Compute(g, mem, i0, k) == HostStep(g, i0, Compute(g, mem, i0, k - 1), k - 1)
              && Eval(g, mem, i0, k) == Step(g, Eval(g, mem, i0, k - 1), k - 1)
  {
    hide HostStep, Step, Start;
  }

  /** At every time of a run, the run and the device agree. */
  lemma {:induction false} ComputeAgrees(g: Graph, mem: Mem, i0: nat, i1: nat, k: nat)
    requires g.Valid() && g.Fits() && |mem| == g.size && g.leafs <= i0 <= k <= i1 <= |g.tensors|
    requires g.Live() && NoStaleRead(g, i0, i1)
    ensures Agrees(g, i0, k, Compute(g, mem, i0, k), Eval(g, mem, i0, k))
    ensures DevAgrees(g, i0, k, Compute(g, mem, i0, k), Eval(g, mem, i0, k))
    decreases k
  {
    hide *;
    RunsInSteps(g, mem, i0, k);
    if k == i0 {
      StartAgrees(g, mem, i0);
    } else {
      ComputeAgrees(g, mem, i0, i1, k - 1);
      var s, m := Compute(g, mem, i0, k - 1), Eval(g, mem, i0, k - 1);
      StepAgrees(g, i0, i1, k - 1, s, m);
      StepDevAgrees(g, i0, i1, k - 1, s, m);
    }
  }

  /** Node `k` is the last of the run to write `a`, and computed it in host storage. */
  ghost predicate LastHostWriter(g: Graph, i0: nat, i1: nat, k: nat, a: int)
    requires k < i1 <= |g.tensors|
  {
    && g.Writes(k, a) && !InPlaceOnDevice(g, i0, k)
    && forall j :: k < j < i1 ==> !g.Writes(j, a)
  }

  /** Write-back from node `k` on changes nothing at `a` for good. */
  ghost predicate Settled(g: Graph, i0: nat, i1: nat, k: nat, a: int)
    requires i1 <= |g.tensors|
  {
    forall j :: k <= j < i1 ==> !LastHostWriter(g, i0, i1, j, a)
  }

  /** If the last writer of an address computed in place, so did all of them. */
  lemma {:induction false} InPlaceToTheEnd(g: Graph, i0: nat, i1: nat, k: nat, n: nat, a: int)
    requires g.Valid() && g.Live() && g.leafs <= i0 <= k <= n <= i1 <= |g.tensors|
    requires Settled(g, i0, i1, k, a)
    requires forall j :: n <= j < i1 ==> !g.Writes(j, a)
    requires exists j :: k <= j < n && g.Writes(j, a)
    ensures OnlyInPlace(g, i0, i1, a)
    decreases n
  {
    if g.Writes(n - 1, a) {
      var l := n - 1;
      assert !LastHostWriter(g, i0, i1, l, a);
      assert g.ValidTensor(l) && g.Reads(l, l);
      forall j | i0 <= j < i1 && g.Writes(j, a)
        ensures InPlaceOnDevice(g, i0, j)
      {
        assert g.ValidTensor(j) && g.Covers(l, a) && !g.Clobbers(l, l, j, a);
      }
    } else {
      InPlaceToTheEnd(g, i0, i1, k, n - 1, a);
    }
  }

  lemma WriteBackStep(g: Graph, mem: Mem, i0: nat, i1: nat, k: nat, a: nat)
    requires g.Valid() && g.Fits() && |mem| == g.size && g.leafs <= i0 <= k < i1 <= |g.tensors|
    requires g.Live() && NoStaleRead(g, i0, i1) && a < |mem|
    requires Settled(g, i0, i1, k, a) ==>
      WriteBack(g, i0, Compute(g, mem, i0, i1), k).dev[a] == Eval(g, mem, i0, i1)[a]
    requires Settled(g, i0, i1, k + 1, a)
    ensures WriteBack(g, i0, Compute(g, mem, i0, i1), k + 1).dev[a] == Eval(g, mem, i0, i1)[a]
  {
    var s := Compute(g, mem, i0, i1);
    var p := WriteBack(g, i0, s, k);
    assert g.ValidTensor(k);
    if g.Writes(k, a) {
      LoadIsCell(g, i0, p, k, a);
      HomeInBounds(g, i0, k);
      if InPlaceOnDevice(g, i0, k) {
        assert Settled(g, i0, i1, k, a);
      } else if LastHostWriter(g, i0, i1, k, a) {
        LastWriterCurrent(g, i0, i1, k, a);
        ComputeAgrees(g, mem, i0, i1, i1);
        assert Cell(g, i0, p, k, a) == Cell(g, i0, s, k, a);
      } else {
        InPlaceToTheEnd(g, i0, i1, k + 1, i1, a);
        assert false;
      }
    } else {
      assert Settled(g, i0, i1, k, a);
    }
  }

  lemma LastWriterCurrent(g: Graph, i0: nat, i1: nat, k: nat, a: int)
    requires g.Valid() && g.Live() && g.leafs <= i0 <= k < i1 <= |g.tensors|
    requires LastHostWriter(g, i0, i1, k, a)
    ensures Current(g, i0, i1, k, a)
  {
    assert g.ValidTensor(k) && g.Covers(k, a);
    forall j | i0 <= j < i1 && g.Base(k) <= j && g.Writes(j, a)
      ensures g.Base(j) == g.Base(k)
    {
      assert g.ValidTensor(j) && !g.Clobbers(k, k, j, a);
    }
  }

  lemma {:induction false} WriteBackAgrees(g: Graph, mem: Mem, i0: nat, i1: nat, k: nat, a: nat)
    requires g.Valid() && g.Fits() && |mem| == g.size && g.leafs <= i0 <= k <= i1 <= |g.tensors|
    requires g.Live() && NoStaleRead(g, i0, i1) && a < |mem|
    requires Settled(g, i0, i1, k, a)
    ensures WriteBack(g, i0, Compute(g, mem, i0, i1), k).dev[a] == Eval(g, mem, i0, i1)[a]
    decreases k
  {
    hide Compute, Eval, NoStaleRead, Agrees, Current, Load;
    if k == i0 {
      ComputeAgrees(g, mem, i0, i1, i1);
      if exists j :: i0 <= j < i1 && g.Writes(j, a) {
        InPlaceToTheEnd(g, i0, i1, i0, i1, a);
      }
      assert OnlyInPlace(g, i0, i1, a);
    } else {
      if Settled(g, i0, i1, k - 1, a) {
        WriteBackAgrees(g, mem, i0, i1, k - 1, a);
      }
      WriteBackStep(g, mem, i0, i1, k - 1, a);
    }
  }

  /** A run on the CPU leaves device memory as the device itself would have. */
  lemma CpuRunIsEval(g: Graph, mem: Mem, i0: nat, i1: nat)
    requires g.Valid() && g.Fits() && |mem| == g.size && g.leafs <= i0 <= i1 <= |g.tensors|
    requires g.Live() && NoStaleRead(g, i0, i1)
    ensures CpuRun(g, mem, i0, i1) == Eval(g, mem, i0, i1)
  {
    forall a | 0 <= a < |mem|
      ensures CpuRun(g, mem, i0, i1)[a] == Eval(g, mem, i0, i1)[a]
    {
      WriteBackAgrees(g, mem, i0, i1, i1, a);
    }
  }
}
