/** Tensors, graphs and plain in-order evaluation on one device memory.

    A graph's tensors are numbered leafs first, then nodes in execution order, so
    a node's number is also the time at which it runs.  Storage is explicit: every
    tensor names the address it occupies, and a view occupies part of its source. */
module Graphs {
  import opened Options

  type Byte = b: int | 0 <= b < 256
  type Mem = seq<Byte>
  type TensorId = nat

  /** The operations the executor tells apart; every other one is `Other`. */
  datatype Op = NoOp | View | Reshape | Permute | Transpose | Cpy | Cont | Dup | Other(code: nat)

  /** Where a tensor's storage lives: accelerator-only memory, memory the host can
      address, or one of the model's weights. */
  datatype Buffer = Device | Host | Weights(weight: nat)

  datatype Tensor = Tensor(
    op: Op,
    src: seq<TensorId>,
    viewSrc: Option<TensorId>,
    viewOffs: nat,
    data: nat,
    nbytes: nat,
    buffer: Buffer)

  /** What the model knows about a weight: its place in device memory. */
  datatype Span = Span(data: nat, nbytes: nat)

  /** What an operation computes: the bytes of its sources and, for an operation
      that writes through a view, the bytes already there. */
  type Kernel = (TensorId, seq<Mem>, Mem) -> Mem

  predicate IsViewOp(op: Op) {
    op.NoOp? || op.View? || op.Reshape? || op.Permute? || op.Transpose?
  }

  predicate IsCopyOp(op: Op) {
    op.Cpy? || op.Cont? || op.Dup?
  }

  /** A graph on a device of `size` bytes holding the weights of `model`. */
  datatype Graph = Graph(
    tensors: seq<Tensor>,
    leafs: nat,
    kernel: Kernel,
    model: map<nat, Span>,
    size: nat)
  {

    ghost predicate ValidTensor(t: TensorId)
      requires t < |tensors|
    {
      var x := tensors[t];
      && (forall s :: s in x.src ==> s < t)
      && x.data + x.nbytes <= size
      && (t < leafs ==> x.op.NoOp?)
      && (leafs <= t && IsViewOp(x.op) ==> x.viewSrc.Some?)
      && (x.viewSrc.Some? ==>
            var b := x.viewSrc.value;
            && b < t
            && tensors[b].viewSrc.None?
            && (t < leafs ==> b < leafs)
            && x.data == tensors[b].data + x.viewOffs
            && x.viewOffs + x.nbytes <= tensors[b].nbytes
            && x.buffer == tensors[b].buffer)
      && (x.buffer.Weights? ==> x.buffer.weight in model)
      && (x.buffer.Weights? && x.viewSrc.None? ==>
            t < leafs && model[x.buffer.weight] == Span(x.data, x.nbytes))
    }

    /** Sources precede their readers, a view's source is not itself a view and
        contains it, and all storage fits in `size` bytes. */
    ghost predicate Valid() {
      && leafs <= |tensors|
      && forall t :: 0 <= t < |tensors| ==> ValidTensor(t)
    }

    function Base(t: TensorId): TensorId
      requires t < |tensors|
    {
      if tensors[t].viewSrc.Some? then tensors[t].viewSrc.value else t
    }

    /** Node `j` writes address `a` when it runs. */
    predicate Writes(j: TensorId, a: int)
      requires j < |tensors|
    {
      && leafs <= j
      && !IsViewOp(tensors[j].op)
      && tensors[j].data <= a < tensors[j].data + tensors[j].nbytes
    }

    /** Address `a` belongs to tensor `t`. */
    predicate Covers(t: TensorId, a: int)
      requires t < |tensors|
    {
      tensors[t].data <= a < tensors[t].data + tensors[t].nbytes
    }

    /** Node `k` reads `t` when it runs; an operation that writes through a view
        also reads what the view held. */
    predicate Reads(k: TensorId, t: TensorId)
      requires k < |tensors|
    {
      && leafs <= k
      && !IsViewOp(tensors[k].op)
      && (t in tensors[k].src || (t == k && tensors[k].viewSrc.Some?))
    }

    /** Node `j`, of other storage, writes address `a` of `t` between the definition
        of `t`'s storage and node `k`'s read of it. */
    predicate Clobbers(k: TensorId, t: TensorId, j: TensorId, a: int) {
      && t <= k < |tensors| && Reads(k, t)
      && Base(t) < j < k && Writes(j, a) && Covers(t, a)
      && Base(j) != Base(t)
    }

    /** The allocator's promise: storage is not reused before its last read. */
    ghost predicate Live() {
      forall k: TensorId, t: TensorId, j: TensorId, a: int :: !Clobbers(k, t, j, a)
    }

    /** Weights are never written. */
    ghost predicate KeepsWeights() {
      && (forall j :: leafs <= j < |tensors| && !IsViewOp(tensors[j].op) ==> !tensors[j].buffer.Weights?)
      && forall j, w, a ::
           && 0 <= j < |tensors| && w in model && Writes(j, a)
           ==> !(model[w].data <= a < model[w].data + model[w].nbytes)
    }

    /** The graph cut after its first `n` nodes. */
    function Prefix(n: nat): Graph
      requires leafs + n <= |tensors|
    {
      this.(tensors := tensors[..leafs + n])
    }

    /** Every operation computes as many bytes as its result has. */
    ghost predicate Fits() {
      forall k, ins, was :: 0 <= k < |tensors| ==> |kernel(k, ins, was)| == tensors[k].nbytes
    }
  }

  /** `mem` with `v` stored at address `a`. */
  function Write(mem: Mem, a: nat, v: Mem): (r: Mem)
    requires a + |v| <= |mem|
    ensures |r| == |mem|
    ensures forall i :: 0 <= i < |mem| ==> r[i] == if a <= i < a + |v| then v[i - a] else mem[i]
  {
    seq(|mem|, i requires 0 <= i < |mem| => if a <= i < a + |v| then v[i - a] else mem[i])
  }

  function Read(mem: Mem, a: nat, n: nat): (r: Mem)
    requires a + n <= |mem|
    ensures |r| == n
    ensures forall i :: 0 <= i < n ==> r[i] == mem[a + i]
  {
    seq(n, i requires 0 <= i < n => mem[a + i])
  }

  /** The device bytes of every source in `src`. */
  function ReadAll(g: Graph, mem: Mem, src: seq<TensorId>): (r: seq<Mem>)
    requires forall i :: 0 <= i < |src| ==>
      src[i] < |g.tensors| && g.tensors[src[i]].data + g.tensors[src[i]].nbytes <= |mem|
    ensures |r| == |src|
    ensures forall i :: 0 <= i < |src| ==> r[i] == Read(mem, g.tensors[src[i]].data, g.tensors[src[i]].nbytes)
  {
    seq(|src|, i requires 0 <= i < |src| => Read(mem, g.tensors[src[i]].data, g.tensors[src[i]].nbytes))
  }

  lemma SourcesInBounds(g: Graph, k: TensorId)
    requires g.Valid() && k < |g.tensors|
    ensures g.tensors[k].data + g.tensors[k].nbytes <= g.size
    ensures forall i :: 0 <= i < |g.tensors[k].src| ==>
      && g.tensors[k].src[i] < k
      && g.tensors[g.tensors[k].src[i]].data + g.tensors[g.tensors[k].src[i]].nbytes <= g.size
  {
    assert g.ValidTensor(k);
    forall i | 0 <= i < |g.tensors[k].src|
      ensures g.tensors[k].src[i] < k
      ensures g.tensors[g.tensors[k].src[i]].data + g.tensors[g.tensors[k].src[i]].nbytes <= g.size
    {
      assert g.tensors[k].src[i] in g.tensors[k].src;
      assert g.ValidTensor(g.tensors[k].src[i]);
    }
  }

  /** Node `k` run in place on the device. */
  function Step(g: Graph, mem: Mem, k: TensorId): (r: Mem)
    requires g.Valid() && |mem| == g.size && g.Fits() && k < |g.tensors|
    ensures |r| == |mem|
    ensures forall a :: 0 <= a < |mem| && !g.Writes(k, a) ==> r[a] == mem[a]
  {
    SourcesInBounds(g, k);
    var x := g.tensors[k];
    if k < g.leafs || IsViewOp(x.op) then mem
    else
      Write(mem, x.data,
        g.kernel(k, ReadAll(g, mem, x.src), if x.viewSrc.Some? then Read(mem, x.data, x.nbytes) else []))
  }

  /** Nodes `lo` to `hi` run in order on the device. */
  function Eval(g: Graph, mem: Mem, lo: nat, hi: nat): (r: Mem)
    requires g.Valid() && |mem| == g.size && g.Fits() && lo <= hi <= |g.tensors|
    ensures |r| == |mem|
    decreases hi
  {
    if hi == lo then mem else Step(g, Eval(g, mem, lo, hi - 1), hi - 1)
  }

  lemma {:induction false} EvalSplit(g: Graph, mem: Mem, lo: nat, mid: nat, hi: nat)
    requires g.Valid() && |mem| == g.size && g.Fits() && lo <= mid <= hi <= |g.tensors|
    ensures Eval(g, Eval(g, mem, lo, mid), mid, hi) == Eval(g, mem, lo, hi)
    decreases hi
  {
    if mid < hi {
      EvalSplit(g, mem, lo, mid, hi - 1);
    }
  }

  /** Weights keep their bytes through any stretch of nodes. */
  lemma {:induction false} EvalKeepsWeights(g: Graph, mem: Mem, lo: nat, hi: nat, w: nat, a: nat)
    requires g.Valid() && |mem| == g.size && g.Fits() && lo <= hi <= |g.tensors|
    requires g.KeepsWeights() && w in g.model
    requires g.model[w].data <= a < g.model[w].data + g.model[w].nbytes && a < |mem|
    ensures Eval(g, mem, lo, hi)[a] == mem[a]
    decreases hi
  {
    if lo < hi {
      EvalKeepsWeights(g, mem, lo, hi - 1, w, a);
    }
  }
}
