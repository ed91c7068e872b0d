/** A whole graph, cut into runs by its labels: what the split executor leaves in
    device memory, and exactly when that is plain in-order evaluation. */
module SplitGraph {
  import opened Graphs
  import opened SplitRun

  datatype Where = Accel | Cpu | Either

  /** The end of the run that starts at node `i`. */
  function RunEnd(where: seq<Where>, i: nat): (j: nat)
    requires i < |where|
    ensures i < j <= |where|
    ensures forall m :: i <= m < j ==> where[m] == where[i]
    ensures j < |where| ==> where[j] != where[i]
    decreases |where| - i
  {
    if i + 1 < |where| && where[i + 1] == where[i] then RunEnd(where, i + 1) else i + 1
  }

  predicate StartsRun(where: seq<Where>, i: nat)
    requires i < |where|
  {
    i == 0 || where[i - 1] != where[i]
  }

  ghost predicate Labelled(g: Graph, where: seq<Where>) {
    g.leafs + |where| == |g.tensors|
  }

  /** Device memory after the run that starts at node `i`. */
  ghost function RunFrom(g: Graph, where: seq<Where>, mem: Mem, i: nat): (r: Mem)
    requires g.Valid() && g.Fits() && |mem| == g.size && Labelled(g, where) && i < |where|
    ensures |r| == |mem|
  {
    var lo, hi := g.leafs + i, g.leafs + RunEnd(where, i);
    if where[i].Cpu? then CpuRun(g, mem, lo, hi) else Eval(g, mem, lo, hi)
  }

  /** Device memory after the runs from node `i` on. */
  ghost function Split(g: Graph, where: seq<Where>, mem: Mem, i: nat): (r: Mem)
    requires g.Valid() && g.Fits() && |mem| == g.size && Labelled(g, where) && i <= |where|
    ensures |r| == |mem|
    decreases |where| - i
  {
    if i == |where| then mem else Split(g, where, RunFrom(g, where, mem, i), RunEnd(where, i))
  }

  /** No CPU run reads a copied view after writing over what it covers. */
  ghost predicate NoStale(g: Graph, where: seq<Where>)
    requires Labelled(g, where)
  {
    forall i {:trigger StartsRun(where, i)} :: 0 <= i < |where| && where[i].Cpu? && StartsRun(where, i) ==>
      NoStaleRead(g, g.leafs + i, g.leafs + RunEnd(where, i))
  }

  lemma RunIsEval(g: Graph, where: seq<Where>, mem: Mem, i: nat)
    requires g.Valid() && g.Fits() && |mem| == g.size && Labelled(g, where) && i < |where|
    requires g.Live() && NoStale(g, where) && StartsRun(where, i)
    ensures RunFrom(g, where, mem, i) == Eval(g, mem, g.leafs + i, g.leafs + RunEnd(where, i))
  {
    var lo, hi := g.leafs + i, g.leafs + RunEnd(where, i);
    if where[i].Cpu? {
      assert NoStaleRead(g, lo, hi);
      CpuRunIsEval(g, mem, lo, hi);
    }
  }

  lemma {:induction false} SplitIsEvalFrom(g: Graph, where: seq<Where>, mem: Mem, i: nat)
    requires g.Valid() && g.Fits() && |mem| == g.size && Labelled(g, where) && i <= |where|
    requires g.Live() && NoStale(g, where)
    requires i < |where| ==> StartsRun(where, i)
    ensures Split(g, where, mem, i) == Eval(g, mem, g.leafs + i, |g.tensors|)
    decreases |where| - i
  {
    hide CpuRun, Step, NoStale;
    if i < |where| {
      RunIsEval(g, where, mem, i);
      SplitIsEvalFrom(g, where, RunFrom(g, where, mem, i), RunEnd(where, i));
      EvalSplit(g, mem, g.leafs + i, g.leafs + RunEnd(where, i), |g.tensors|);
    }
  }

  /** For every graph, labelling, operations and initial memory: the split executor
      leaves device memory as plain in-order evaluation does. */
  lemma SplitIsEval(g: Graph, where: seq<Where>, mem: Mem)
    requires g.Valid() && g.Fits() && |mem| == g.size && Labelled(g, where)
    requires g.Live() && NoStale(g, where)
    ensures Split(g, where, mem, 0) == Eval(g, mem, g.leafs, |g.tensors|)
  {
    hide Split, Eval, NoStale;
    SplitIsEvalFrom(g, where, mem, 0);
  }

  // ---------- the hypothesis is exact ----------

  /** Whatever the operations compute and the memory holds, the split executor
      agrees with plain evaluation after every node. */
  ghost predicate Faithful(g: Graph, where: seq<Where>)
    requires g.Valid() && Labelled(g, where)
  {
    forall kernel: Kernel, mem: Mem, p: nat ::
      p <= |where| && |mem| == g.size && g.(kernel := kernel).Fits() ==>
        (WithKernelValid(g, kernel); SameAfter(g.(kernel := kernel), where, mem, p))
  }

  ghost predicate SameAfter(g: Graph, where: seq<Where>, mem: Mem, p: nat)
    requires g.Valid() && g.Fits() && Labelled(g, where) && p <= |where| && |mem| == g.size
  {
    PrefixValid(g, p);
    Split(g.Prefix(p), where[..p], mem, 0) == Eval(g.Prefix(p), mem, g.leafs, g.leafs + p)
  }

  lemma WithKernelValid(g: Graph, kernel: Kernel)
    requires g.Valid()
    ensures g.(kernel := kernel).Valid()
  {
    forall t | 0 <= t < |g.tensors| ensures g.(kernel := kernel).ValidTensor(t) {
      assert g.ValidTensor(t);
    }
  }

  lemma PrefixValid(g: Graph, p: nat)
    requires g.Valid() && g.Fits() && g.leafs + p <= |g.tensors|
    ensures g.Prefix(p).Valid() && g.Prefix(p).Fits()
  {
    forall t | 0 <= t < g.leafs + p ensures g.Prefix(p).ValidTensor(t) {
      assert g.ValidTensor(t);
    }
  }
}
