/** The no-stale-view condition is exact: a labelled graph meets it if and only if
    the split executor agrees with plain evaluation for all operations, all memory
    contents and after every node. */
module StaleViews {
  import opened Options
  import opened Sequences
  import opened Graphs
  import opened SplitRun
  import opened SplitGraph

  lemma {:induction false} RunEndOfPrefix(where: seq<Where>, p: nat, i: nat)
    requires i < p <= |where|
    ensures RunEnd(where[..p], i) == if RunEnd(where, i) < p then RunEnd(where, i) else p
    decreases p - i
  {
    if i + 1 < p && where[i + 1] == where[i] {
      RunEndOfPrefix(where, p, i + 1);
    }
  }

  /** Neither cutting a graph short nor changing what its operations compute loses
      the allocator's promise or freshness. */
  lemma PrefixFresh(g: Graph, kernel: Kernel, where: seq<Where>, p: nat)
    requires g.Valid() && g.Live() && Labelled(g, where) && p <= |where| && NoStale(g, where)
    ensures g.(kernel := kernel).Prefix(p).Live() && NoStale(g.(kernel := kernel).Prefix(p), where[..p])
  {
    var h := g.(kernel := kernel).Prefix(p);
    assert forall x :: 0 <= x < |h.tensors| ==> h.tensors[x] == g.tensors[x];
    forall k: nat, t: nat, j: nat, a: int ensures !h.Clobbers(k, t, j, a) {
      assert !g.Clobbers(k, t, j, a);
    }
    forall i | 0 <= i < p && where[i].Cpu? && StartsRun(where[..p], i)
      ensures NoStaleRead(h, g.leafs + i, g.leafs + RunEnd(where[..p], i))
    {
      RunEndOfPrefix(where, p, i);
      assert StartsRun(where, i);
      var i0, i1 := g.leafs + i, g.leafs + RunEnd(where, i);
      forall k: nat, t: nat, j: nat, a: int ensures k < i1 ==> !StaleAt(h, i0, k, t, j, a) {
        assert k < i1 ==> !StaleAt(g, i0, k, t, j, a);
      }
    }
  }

  lemma FreshIsFaithful(g: Graph, where: seq<Where>)
    requires g.Valid() && g.Live() && Labelled(g, where) && NoStale(g, where)
    ensures Faithful(g, where)
  {
    forall kernel: Kernel, mem: Mem, p: nat |
      p <= |where| && |mem| == g.size && g.(kernel := kernel).Fits()
      ensures (WithKernelValid(g, kernel); SameAfter(g.(kernel := kernel), where, mem, p))
    {
      var h := g.(kernel := kernel);
      WithKernelValid(g, kernel);
      PrefixFresh(g, kernel, where, p);
      PrefixValid(h, p);
      SplitIsEval(h.Prefix(p), where[..p], mem);
    }
  }

  // ---------- a stale read can be seen ----------

  /** Every byte of `m` is one of `bs`. */
  ghost predicate Only(m: Mem, bs: set<Byte>) {
    forall i :: 0 <= i < |m| ==> m[i] in bs
  }

  ghost predicate OnlyState(g: Graph, s: State, bs: set<Byte>)
    requires StateOk(g, s)
  {
    Only(s.dev, bs) && forall t :: 0 <= t < |g.tensors| ==> Only(s.own[t], bs)
  }

  /** The run's nodes compute only bytes of `bs`, whatever they read. */
  ghost predicate Computes(g: Graph, lo: nat, hi: nat, bs: set<Byte>)
    requires hi <= |g.tensors|
  {
    forall k, ins, was :: lo <= k < hi ==> Only(g.kernel(k, ins, was), bs)
  }

  lemma {:induction false} EvalOnly(g: Graph, mem: Mem, lo: nat, hi: nat, bs: set<Byte>)
    requires g.Valid() && g.Fits() && |mem| == g.size && lo <= hi <= |g.tensors|
    requires Only(mem, bs) && Computes(g, lo, hi, bs)
    ensures Only(Eval(g, mem, lo, hi), bs)
    decreases hi
  {
    if lo < hi {
      EvalOnly(g, mem, lo, hi - 1, bs);
      assert g.ValidTensor(hi - 1);
    }
  }

  lemma HostStepOnly(g: Graph, i0: nat, s: State, k: nat, bs: set<Byte>)
    requires g.Valid() && g.Fits() && StateOk(g, s) && k < |g.tensors| && OnlyState(g, s, bs)
    requires !IsViewOp(g.tensors[k].op) ==> Only(HostResult(g, i0, s, k), bs)
    ensures OnlyState(g, HostStep(g, i0, s, k), bs)
  {
    HomeInBounds(g, i0, k);
  }

  lemma {:induction false} ComputeOnly(g: Graph, mem: Mem, i0: nat, k: nat, bs: set<Byte>)
    requires g.Valid() && g.Fits() && |mem| == g.size && i0 <= k <= |g.tensors|
    requires Only(mem, bs) && Computes(g, i0, k, bs)
    ensures OnlyState(g, Compute(g, mem, i0, k), bs)
    decreases k
  {
    if k == i0 {
      forall t | 0 <= t < |g.tensors| ensures Only(Start(g, mem).own[t], bs) {
        assert g.ValidTensor(t);
      }
    } else {
      ComputeOnly(g, mem, i0, k - 1, bs);
      HostStepOnly(g, i0, Compute(g, mem, i0, k - 1), k - 1, bs);
    }
  }

  lemma LoadOnly(g: Graph, i0: nat, s: State, t: TensorId, bs: set<Byte>)
    requires g.Valid() && StateOk(g, s) && t < |g.tensors| && OnlyState(g, s, bs)
    ensures Only(Load(g, i0, s, t), bs)
  {
    HomeInBounds(g, i0, t);
  }

  lemma {:induction false} WriteBackOnly(g: Graph, i0: nat, s: State, k: nat, bs: set<Byte>)
    requires g.Valid() && StateOk(g, s) && i0 <= k <= |g.tensors| && OnlyState(g, s, bs)
    ensures OnlyState(g, WriteBack(g, i0, s, k), bs)
    decreases k
  {
    hide Load;
    if i0 < k {
      WriteBackOnly(g, i0, s, k - 1, bs);
      LoadOnly(g, i0, WriteBack(g, i0, s, k - 1), k - 1, bs);
    }
  }

  lemma RunOnly(g: Graph, where: seq<Where>, mem: Mem, i: nat, bs: set<Byte>)
    requires g.Valid() && g.Fits() && |mem| == g.size && Labelled(g, where) && i < |where|
    requires Only(mem, bs) && Computes(g, g.leafs + i, g.leafs + RunEnd(where, i), bs)
    ensures Only(RunFrom(g, where, mem, i), bs)
  {
    hide Compute, WriteBack, Only, Computes;
    var lo, hi := g.leafs + i, g.leafs + RunEnd(where, i);
    if where[i].Cpu? {
      ComputeOnly(g, mem, lo, hi, bs);
      WriteBackOnly(g, lo, Compute(g, mem, lo, hi), hi, bs);
    } else {
      EvalOnly(g, mem, lo, hi, bs);
    }
  }

  /** Up to a run's start, operations that compute only zeros leave only zeros,
      and the rest of the execution starts there. */
  lemma {:induction false} SplitZeros(g: Graph, where: seq<Where>, mem: Mem, from: nat, i: nat) returns (at: Mem)
    requires g.Valid() && g.Fits() && |mem| == g.size && Labelled(g, where) && from <= i < |where|
    requires StartsRun(where, from) && StartsRun(where, i)
    requires Only(mem, {0}) && Computes(g, g.leafs, g.leafs + i, {0})
    ensures |at| == g.size && Only(at, {0})
    ensures Split(g, where, mem, from) == Split(g, where, at, i)
    decreases i - from
  {
    if from == i {
      at := mem;
    } else {
      hide RunFrom, Only;
      var j := RunEnd(where, from);
      assert j <= i;
      RunOnly(g, where, mem, from, {0});
      at := SplitZeros(g, where, RunFrom(g, where, mem, from), j, i);
    }
  }

  lemma ViewCopyUntouched(g: Graph, i0: nat, s: State, k: nat, t: TensorId)
    requires g.Valid() && g.Fits() && StateOk(g, s) && g.leafs <= i0 <= k < |g.tensors|
    requires t < i0 && Copied(g, i0, t) && g.tensors[t].viewSrc.Some?
    ensures Load(g, i0, HostStep(g, i0, s, k), t) == Load(g, i0, s, t)
  {
    HomesOf(g, i0, t, k);
    HomeInBounds(g, i0, k);
  }

  lemma ViewCopyAtStart(g: Graph, mem: Mem, i0: nat, t: TensorId)
    requires g.Valid() && g.Fits() && |mem| == g.size && g.leafs <= i0 <= |g.tensors|
    requires t < i0 && Copied(g, i0, t)
    ensures g.tensors[t].data + g.tensors[t].nbytes <= g.size
    ensures Load(g, i0, Start(g, mem), t) == Read(mem, g.tensors[t].data, g.tensors[t].nbytes)
  {
    assert g.ValidTensor(t);
  }

  /** A copied view keeps, all through the run, the bytes it had at the start. */
  lemma {:induction false} ViewCopyUnchanged(g: Graph, mem: Mem, i0: nat, k: nat, t: TensorId)
    requires g.Valid() && g.Fits() && |mem| == g.size && g.leafs <= i0 <= k <= |g.tensors|
    requires t < i0 && Copied(g, i0, t) && g.tensors[t].viewSrc.Some?
    ensures g.tensors[t].data + g.tensors[t].nbytes <= g.size
    ensures Load(g, i0, Compute(g, mem, i0, k), t) == Read(mem, g.tensors[t].data, g.tensors[t].nbytes)
    decreases k
  {
    assert g.ValidTensor(t);
    if k == i0 {
      ViewCopyAtStart(g, mem, i0, t);
    } else {
      hide HostStep, Load, Start;
      ViewCopyUnchanged(g, mem, i0, k - 1, t);
      ViewCopyUntouched(g, i0, Compute(g, mem, i0, k - 1), k - 1, t);
    }
  }

  /** On the device, an address some node has written holds one of the bytes that
      nodes compute. */
  lemma {:induction false} WrittenOnly(g: Graph, mem: Mem, i0: nat, k: nat, j: nat, a: nat, b: Byte)
    requires g.Valid() && g.Fits() && |mem| == g.size && g.leafs <= i0 <= j < k <= |g.tensors|
    requires Computes(g, i0, k, {b}) && g.Writes(j, a) && a < g.size
    ensures Eval(g, mem, i0, k)[a] == b
    decreases k
  {
    assert g.ValidTensor(k - 1);
    if j < k - 1 {
      WrittenOnly(g, mem, i0, k - 1, j, a, b);
    }
  }

  /** Operations under which a stale read of source `n` of node `k`, byte `o`,
      shows: nodes before `i0` compute zeros, nodes from there ones, and `k` twos
      or threes according to that byte. */
  function Probe(g: Graph, i0: nat, k: nat, n: nat, o: nat): Kernel {
    (x: TensorId, ins: seq<Mem>, was: Mem) =>
      if x < |g.tensors| then Repeat(g.tensors[x].nbytes, ProbeByte(i0, k, n, o, x, ins)) else []
  }

  function ProbeByte(i0: nat, k: nat, n: nat, o: nat, x: nat, ins: seq<Mem>): Byte {
    if x < i0 then 0
    else if x < k then 1
    else if n < |ins| && o < |ins[n]| && ins[n][o] == 1 then 2
    else 3
  }

  lemma ReadsByte(g: Graph, m: Mem, k: nat, n: nat, a: nat)
    requires g.Valid() && |m| == g.size && k < |g.tensors| && n < |g.tensors[k].src|
    requires g.tensors[k].src[n] in g.tensors[k].src && g.tensors[k].src[n] < |g.tensors|
    requires g.Covers(g.tensors[k].src[n], a)
    ensures a < |m|
    ensures forall i :: 0 <= i < |g.tensors[k].src| ==>
      && g.tensors[k].src[i] < |g.tensors|
      && g.tensors[g.tensors[k].src[i]].data + g.tensors[g.tensors[k].src[i]].nbytes <= |m|
    ensures |ReadAll(g, m, g.tensors[k].src)[n]| == g.tensors[g.tensors[k].src[n]].nbytes
    ensures ReadAll(g, m, g.tensors[k].src)[n][a - g.tensors[g.tensors[k].src[n]].data] == m[a]
  {
    assert g.ValidTensor(k);
    assert forall i :: 0 <= i < |g.tensors[k].src| ==>
      g.tensors[k].src[i] in g.tensors[k].src && g.ValidTensor(g.tensors[k].src[i]);
  }

  /** The operations of `g` tell a stale read of byte `a` of `t` from a fresh one. */
  ghost predicate IsProbe(g: Graph, i0: nat, k: nat, t: nat, j: nat, a: nat, n: nat) {
    && g.Valid() && g.Fits() && k + 1 == |g.tensors|
    && StaleAt(g, i0, k, t, j, a) && n < |g.tensors[k].src| && g.tensors[k].src[n] == t
    && Computes(g, g.leafs, i0, {0}) && Computes(g, i0, k, {1})
    && Detects(g, k, n, a - g.tensors[t].data)
  }

  /** Node `k` computes twos if byte `o` of its source `n` is one, and else threes. */
  ghost predicate Detects(g: Graph, k: nat, n: nat, o: nat) {
    forall ins: seq<Mem>, was: Mem :: n < |ins| && o < |ins[n]| ==>
      Only(g.kernel(k, ins, was), if ins[n][o] == 1 then {2} else {3})
  }

  /** The probe run on the device: node `k` computes twos. */
  lemma ProbeOnDevice(g: Graph, mem: Mem, i0: nat, k: nat, t: nat, j: nat, a: nat, n: nat)
    requires IsProbe(g, i0, k, t, j, a, n) && |mem| == g.size
    ensures g.tensors[k].data < g.size && Eval(g, mem, g.leafs, k + 1)[g.tensors[k].data] == 2
  {
    var m := Eval(g, mem, g.leafs, k);
    EvalSplit(g, mem, g.leafs, i0, k);
    ReadsByte(g, m, k, n, a);
    WrittenOnly(g, Eval(g, mem, g.leafs, i0), i0, k, j, a, 1);
    StepComputes(g, m, k, 2);
  }

  lemma StepComputes(g: Graph, m: Mem, k: nat, b: Byte)
    requires g.Valid() && g.Fits() && |m| == g.size && g.leafs <= k < |g.tensors|
    requires !IsViewOp(g.tensors[k].op) && g.tensors[k].nbytes > 0
    requires forall i :: 0 <= i < |g.tensors[k].src| ==>
      && g.tensors[k].src[i] < |g.tensors|
      && g.tensors[g.tensors[k].src[i]].data + g.tensors[g.tensors[k].src[i]].nbytes <= |m|
    requires forall was :: Only(g.kernel(k, ReadAll(g, m, g.tensors[k].src), was), {b})
    ensures g.tensors[k].data < g.size && Step(g, m, k)[g.tensors[k].data] == b
  {
    assert g.ValidTensor(k);
  }

  /** The probe run on the CPU, from zeroed memory: no byte is two. */
  lemma ProbeIsFooled(g: Graph, mem: Mem, i0: nat, k: nat, t: nat, j: nat, a: nat, n: nat)
    requires IsProbe(g, i0, k, t, j, a, n) && |mem| == g.size && Only(mem, {0})
    ensures Only(HostResult(g, i0, Compute(g, mem, i0, k), k), {3})
  {
    hide Load, Compute, Computes;
    ViewCopyUnchanged(g, mem, i0, k, t);
    assert Load(g, i0, Compute(g, mem, i0, k), t)[a - g.tensors[t].data] == 0;
  }

  lemma ProbeComputes(g: Graph, i0: nat, k: nat, t: nat, j: nat, a: nat, n: nat)
    requires IsProbe(g, i0, k, t, j, a, n)
    ensures Computes(g, i0, k, {0, 1, 3})
  {
    forall x, ins, was | i0 <= x < k ensures Only(g.kernel(x, ins, was), {0, 1, 3}) {
      assert Only(g.kernel(x, ins, was), {1});
    }
  }

  lemma OnlyMore(m: Mem, bs: set<Byte>, cs: set<Byte>)
    requires Only(m, bs) && bs <= cs
    ensures Only(m, cs)
  {
  }

  /** Before node `k`, the run's state holds only zeros, ones and threes... */
  lemma {:induction false} ProbeBefore(g: Graph, mem: Mem, i0: nat, k: nat, t: nat, j: nat, a: nat, n: nat)
    requires IsProbe(g, i0, k, t, j, a, n) && |mem| == g.size && Only(mem, {0})
    ensures OnlyState(g, Compute(g, mem, i0, k), {0, 1, 3})
  {
    ProbeComputes(g, i0, k, t, j, a, n);
    hide Compute, Only, OnlyState, Detects, Computes, StaleAt;
    OnlyMore(mem, {0}, {0, 1, 3});
    ComputeOnly(g, mem, i0, k, {0, 1, 3});
  }

  /** ...and after it... */
  lemma {:induction false} ProbeAfter(g: Graph, mem: Mem, i0: nat, k: nat, t: nat, j: nat, a: nat, n: nat)
    requires IsProbe(g, i0, k, t, j, a, n) && |mem| == g.size && Only(mem, {0})
    ensures OnlyState(g, Compute(g, mem, i0, k + 1), {0, 1, 3})
  {
    hide HostStep, HostResult, Only, OnlyState, Detects, Computes;
    ProbeBefore(g, mem, i0, k, t, j, a, n);
    ProbeIsFooled(g, mem, i0, k, t, j, a, n);
    OnlyMore(HostResult(g, i0, Compute(g, mem, i0, k), k), {3}, {0, 1, 3});
    HostStepOnly(g, i0, Compute(g, mem, i0, k), k, {0, 1, 3});
  }

  /** ...and after write-back. */
  lemma {:induction false} ProbeOnCpu(g: Graph, mem: Mem, i0: nat, k: nat, t: nat, j: nat, a: nat, n: nat)
    requires IsProbe(g, i0, k, t, j, a, n) && |mem| == g.size && Only(mem, {0})
    ensures Only(CpuRun(g, mem, i0, k + 1), {0, 1, 3})
  {
    ProbeAfter(g, mem, i0, k, t, j, a, n);
    hide Compute, WriteBack, Only, Detects, Computes;
    WriteBackOnly(g, i0, Compute(g, mem, i0, k + 1), k + 1, {0, 1, 3});
  }

  lemma LastRun(g: Graph, w: seq<Where>, mem: Mem, i: nat)
    requires g.Valid() && g.Fits() && |mem| == g.size && Labelled(g, w)
    requires i < |w| && w[i].Cpu? && RunEnd(w, i) == |w|
    ensures Split(g, w, mem, i) == CpuRun(g, mem, g.leafs + i, |g.tensors|)
  {
    hide CpuRun, Eval;
    var r := RunFrom(g, w, mem, i);
    assert Split(g, w, r, |w|) == r;
  }

  lemma ProbeSplit(g: Graph, w: seq<Where>, i: nat, k: nat, t: nat, j: nat, a: nat, n: nat)
    requires IsProbe(g, g.leafs + i, k, t, j, a, n)
    requires i < |w| == k + 1 - g.leafs && w[i].Cpu? && StartsRun(w, i) && RunEnd(w, i) == |w|
    ensures Only(Split(g, w, Repeat(g.size, 0), 0), {0, 1, 3})
  {
    hide Split, CpuRun, StaleAt, Detects;
    var at := SplitZeros(g, w, Repeat(g.size, 0), 0, i);
    ProbeOnCpu(g, at, g.leafs + i, k, t, j, a, n);
    LastRun(g, w, at, i);
  }

  /** On the probe the two executions differ. */
  lemma ProbeDiffers(g: Graph, w: seq<Where>, i: nat, k: nat, t: nat, j: nat, a: nat, n: nat)
    requires IsProbe(g, g.leafs + i, k, t, j, a, n)
    requires i < |w| == k + 1 - g.leafs && w[i].Cpu? && StartsRun(w, i) && RunEnd(w, i) == |w|
    ensures Split(g, w, Repeat(g.size, 0), 0) != Eval(g, Repeat(g.size, 0), g.leafs, k + 1)
  {
    ProbeSplit(g, w, i, k, t, j, a, n);
    ProbeOnDevice(g, Repeat(g.size, 0), g.leafs + i, k, t, j, a, n);
  }

  /** Operations `kernel` that make the graph up to node `k` a probe refute faithfulness. */
  lemma ProbeRefutes(g: Graph, where: seq<Where>, i: nat, k: nat, t: nat, j: nat, a: nat, n: nat, kernel: Kernel)
    requires g.Valid() && Labelled(g, where) && g.(kernel := kernel).Fits()
    requires g.leafs <= k < |g.tensors| && i < k + 1 - g.leafs && where[i].Cpu? && StartsRun(where, i)
    requires RunEnd(where[..k + 1 - g.leafs], i) == k + 1 - g.leafs
    requires IsProbe(g.(kernel := kernel).Prefix(k + 1 - g.leafs), g.leafs + i, k, t, j, a, n)
    ensures !Faithful(g, where)
  {
    hide Detects, StaleAt, Split, Eval;
    ProbeDiffers(g.(kernel := kernel).Prefix(k + 1 - g.leafs), where[..k + 1 - g.leafs], i, k, t, j, a, n);
    NotFaithful(g, where, kernel, Repeat(g.size, 0), k + 1 - g.leafs);
  }

  lemma NotFaithful(g: Graph, where: seq<Where>, kernel: Kernel, mem: Mem, p: nat)
    requires g.Valid() && Labelled(g, where) && p <= |where| && |mem| == g.size && g.(kernel := kernel).Fits()
    requires (var h := g.(kernel := kernel).Prefix(p);
      h.Valid() && h.Fits() && Split(h, where[..p], mem, 0) != Eval(h, mem, g.leafs, g.leafs + p))
    ensures !Faithful(g, where)
  {
    hide Split, Eval;
    WithKernelValid(g, kernel);
    assert !SameAfter(g.(kernel := kernel), where, mem, p);
  }

  lemma ProbeFacts(g: Graph, i0: nat, k: nat, t: nat, j: nat, a: nat, n: nat, kernel: Kernel)
    requires g.Valid() && StaleAt(g, i0, k, t, j, a)
    requires n < |g.tensors[k].src| && g.tensors[k].src[n] == t
    requires kernel == Probe(g, i0, k, n, a - g.tensors[t].data)
    ensures g.(kernel := kernel).Fits()
    ensures IsProbe(g.(kernel := kernel).Prefix(k + 1 - g.leafs), i0, k, t, j, a, n)
  {
    WithKernelValid(g, kernel);
    PrefixValid(g.(kernel := kernel), k + 1 - g.leafs);
  }

  lemma StaleReadShows(g: Graph, where: seq<Where>, i: nat, k: nat, t: nat, j: nat, a: nat)
    requires g.Valid() && Labelled(g, where) && i < |where| && where[i].Cpu? && StartsRun(where, i)
    requires StaleAt(g, g.leafs + i, k, t, j, a) && k < g.leafs + RunEnd(where, i)
    ensures !Faithful(g, where)
  {
    hide IsProbe, Faithful;
    var n :| 0 <= n < |g.tensors[k].src| && g.tensors[k].src[n] == t;
    var kernel := Probe(g, g.leafs + i, k, n, a - g.tensors[t].data);
    ProbeFacts(g, g.leafs + i, k, t, j, a, n, kernel);
    RunEndOfPrefix(where, k + 1 - g.leafs, i);
    ProbeRefutes(g, where, i, k, t, j, a, n, kernel);
  }

  /** For every graph the allocator laid out and every labelling, the split executor
      agrees with plain evaluation, for all operations and memories and after every
      node, if and only if no CPU run reads a copied view it has written over. */
  lemma ExactlyWhenFresh(g: Graph, where: seq<Where>)
    requires g.Valid() && g.Live() && Labelled(g, where)
    ensures Faithful(g, where) <==> NoStale(g, where)
  {
    if NoStale(g, where) {
      FreshIsFaithful(g, where);
    } else {
      var i :| 0 <= i < |where| && where[i].Cpu? && StartsRun(where, i)
               && !NoStaleRead(g, g.leafs + i, g.leafs + RunEnd(where, i));
      var k: nat, t: nat, j: nat, a: int :|
        k < g.leafs + RunEnd(where, i) && StaleAt(g, g.leafs + i, k, t, j, a);
      StaleReadShows(g, where, i, k, t, j, a);
    }
  }
}
