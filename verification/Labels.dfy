/** Labelling a graph's nodes: the pull-back of copies that feed the CPU, and the
    filling-in of nodes that may run anywhere. */
module Labels {
  import opened Options
  import opened Graphs
  import opened SplitGraph

  /** The label node `i` gets from the accelerator's verdict. */
  function Verdict(g: Graph, accepts: TensorId -> bool, i: nat): Where
    requires g.leafs + i < |g.tensors|
  {
    var x := g.tensors[g.leafs + i];
    if IsViewOp(x.op) || x.nbytes == 0 then Either else if accepts(g.leafs + i) then Accel else Cpu
  }

  function Verdicts(g: Graph, accepts: TensorId -> bool): seq<Where>
    requires g.leafs <= |g.tensors|
  {
    seq(|g.tensors| - g.leafs, i requires 0 <= i < |g.tensors| - g.leafs => Verdict(g, accepts, i))
  }

  // ---------- pull-back ----------

  /** The tensor whose memory `t` reads, looking through views; none if a view has
      no source. */
  function Producer(g: Graph, t: TensorId): Option<TensorId>
    requires g.Valid() && t < |g.tensors|
    decreases t
  {
    var x := g.tensors[t];
    if x.op.NoOp? || !IsViewOp(x.op) then Some(t)
    else if |x.src| == 0 then None
    else (assert g.ValidTensor(t) && x.src[0] in x.src; Producer(g, x.src[0]))
  }

  /** Node `p` is a copy that node `i` reads, directly or through views. */
  predicate FedBy(g: Graph, i: nat, p: nat)
    requires g.Valid() && g.leafs + i < |g.tensors| && g.leafs + p < |g.tensors|
  {
    && IsCopyOp(g.tensors[g.leafs + p].op)
    && exists s :: 0 <= s < |g.tensors[g.leafs + i].src| && FedThrough(g, i, s, p)
  }

  predicate FedThrough(g: Graph, i: nat, s: nat, p: nat)
    requires g.Valid() && g.leafs + i < |g.tensors| && s < |g.tensors[g.leafs + i].src|
  {
    assert g.ValidTensor(g.leafs + i) && g.tensors[g.leafs + i].src[s] in g.tensors[g.leafs + i].src;
    Producer(g, g.tensors[g.leafs + i].src[s]) == Some(g.leafs + p)
  }

  lemma ProducerNotLater(g: Graph, t: TensorId)
    requires g.Valid() && t < |g.tensors|
    ensures Producer(g, t).Some? ==>
              var p := Producer(g, t).value; p <= t && (g.tensors[p].op.NoOp? || !IsViewOp(g.tensors[p].op))
    decreases t
  {
    var x := g.tensors[t];
    if !(x.op.NoOp? || !IsViewOp(x.op)) && |x.src| > 0 {
      assert g.ValidTensor(t) && x.src[0] in x.src;
      ProducerNotLater(g, x.src[0]);
    }
  }

  /** `ns` holds every CPU node and, with any node, each accelerator copy that feeds it. */
  ghost predicate ClosedUnderPull(g: Graph, where: seq<Where>, ns: set<nat>)
    requires g.Valid() && Labelled(g, where)
  {
    && (forall i :: 0 <= i < |where| && where[i].Cpu? ==> i in ns)
    && forall i, p :: 0 <= i < |where| && 0 <= p < |where| && i in ns && where[p].Accel? && FedBy(g, i, p) ==> p in ns
  }

  /** `after` is `before` with exactly the least closed set of nodes on the CPU. */
  ghost predicate Pulled(g: Graph, before: seq<Where>, after: seq<Where>)
    requires g.Valid() && Labelled(g, before)
  {
    && |after| == |before|
    && Changed(before, after)
    && ClosedAbove(g, after, 0)
    && Forced(g, before, after)
  }

  function OnCpu(where: seq<Where>): set<nat> {
    set i: nat | i < |where| && where[i].Cpu?
  }

  /** Only accelerator nodes have moved, and only to the CPU. */
  ghost predicate Changed(before: seq<Where>, after: seq<Where>)
    requires |after| == |before|
  {
    forall i :: 0 <= i < |before| ==> after[i] == before[i] || (before[i].Accel? && after[i].Cpu?)
  }

  /** No CPU node from `i` on is fed by a copy on the accelerator. */
  ghost predicate ClosedAbove(g: Graph, where: seq<Where>, i: nat)
    requires g.Valid() && Labelled(g, where)
  {
    forall m, p :: i <= m < |where| && 0 <= p < |where| && where[m].Cpu? && FedBy(g, m, p) ==> !where[p].Accel?
  }

  /** Every closed set holds all CPU nodes of `after`. */
  ghost predicate Forced(g: Graph, before: seq<Where>, after: seq<Where>)
    requires g.Valid() && Labelled(g, before)
  {
    forall ns :: ClosedUnderPull(g, before, ns) ==> OnCpu(after) <= ns
  }

  /** The pull-back has one answer. */
  lemma PulledUnique(g: Graph, before: seq<Where>, a: seq<Where>, b: seq<Where>)
    requires g.Valid() && Labelled(g, before) && Pulled(g, before, a) && Pulled(g, before, b)
    ensures a == b
  {
    PulledIsClosed(g, before, a);
    PulledIsClosed(g, before, b);
    forall i | 0 <= i < |before| ensures a[i] == b[i] {
      assert i in OnCpu(a) <==> i in OnCpu(b);
    }
  }

  lemma PulledIsClosed(g: Graph, before: seq<Where>, after: seq<Where>)
    requires g.Valid() && Labelled(g, before) && Pulled(g, before, after)
    ensures ClosedUnderPull(g, before, OnCpu(after))
  {
    forall i, p | 0 <= i < |before| && 0 <= p < |before| && i in OnCpu(after) && before[p].Accel? && FedBy(g, i, p)
      ensures p in OnCpu(after)
    {
      assert !after[p].Accel?;
    }
  }

  // ---------- filling in ----------

  /** Undecided nodes take the label before them. */
  function Fill(prev: Where, where: seq<Where>): (r: seq<Where>)
    ensures |r| == |where|
    decreases where
  {
    if where == [] then []
    else
      var x := if where[0].Either? then prev else where[0];
      [x] + Fill(x, where[1..])
  }

  /** How often the label changes, starting from `prev`. */
  function Switches(prev: Where, where: seq<Where>): nat
    decreases where
  {
    if where == [] then 0
    else (if where[0] == prev then 0 else 1) + Switches(where[0], where[1..])
  }

  /** `v` decides every node and leaves the decided ones of `where` alone. */
  ghost predicate FillsIn(where: seq<Where>, v: seq<Where>) {
    && |v| == |where|
    && forall i :: 0 <= i < |v| ==> !v[i].Either? && (where[i].Either? || v[i] == where[i])
  }

  lemma {:induction false} FillFillsIn(prev: Where, where: seq<Where>)
    requires !prev.Either?
    ensures FillsIn(where, Fill(prev, where))
    decreases where
  {
    if where != [] {
      var x := if where[0].Either? then prev else where[0];
      FillFillsIn(x, where[1..]);
    }
  }

  lemma {:induction false} FillAt(prev: Where, where: seq<Where>, i: nat)
    requires i < |where|
    ensures Fill(prev, where)[i] ==
            if !where[i].Either? then where[i] else if i == 0 then prev else Fill(prev, where)[i - 1]
    decreases where
  {
    if i > 0 {
      var x := if where[0].Either? then prev else where[0];
      FillAt(x, where[1..], i - 1);
    }
  }

  lemma {:induction false} FillFromEither(p: Where, q: Where, where: seq<Where>, v: seq<Where>)
    requires FillsIn(where, v)
    ensures Switches(p, Fill(p, where)) <= Switches(q, v) + if p == q then 0 else 1
    decreases where
  {
    if where != [] {
      var x := if where[0].Either? then p else where[0];
      FillFromEither(x, v[0], where[1..], v[1..]);
    }
  }

  /** Among all ways to decide the undecided nodes, following the previous label
      switches least, counted from an accelerator that is current at the start. */
  lemma FillSwitchesLeast(where: seq<Where>, v: seq<Where>)
    requires FillsIn(where, v)
    ensures Switches(Accel, Fill(Accel, where)) <= Switches(Accel, v)
  {
    FillFromEither(Accel, Accel, where, v);
  }

  // ---------- runs ----------

  /** The runs from node `i` on, as half-open intervals. */
  function Runs(where: seq<Where>, i: nat): (r: seq<(nat, nat)>)
    requires i <= |where|
    decreases |where| - i
  {
    if i == |where| then [] else [(i, RunEnd(where, i))] + Runs(where, RunEnd(where, i))
  }

  /** `r` cuts the nodes from `i` on into contiguous, non-empty runs of one label,
      each as long as it can be. */
  ghost predicate IsCut(where: seq<Where>, i: nat, r: seq<(nat, nat)>) {
    && (if r == [] then i == |where| else r[0].0 == i && r[|r| - 1].1 == |where|)
    && (forall m :: 0 <= m < |r| ==> IsRun(where, r[m]))
    && (forall m, n :: 0 <= m < n == m + 1 < |r| ==> r[m].1 == r[n].0)
  }

  /** `run` has one label, and the node after it, if any, has another. */
  ghost predicate IsRun(where: seq<Where>, run: (nat, nat)) {
    && run.0 < run.1 <= |where|
    && (forall x :: run.0 <= x < run.1 ==> where[x] == where[run.0])
    && (run.1 < |where| ==> where[run.1] != where[run.0])
  }

  lemma {:induction false} RunsCut(where: seq<Where>, i: nat)
    requires i <= |where|
    ensures IsCut(where, i, Runs(where, i))
    decreases |where| - i
  {
    if i < |where| {
      var j := RunEnd(where, i);
      RunsCut(where, j);
      var rest := Runs(where, j);
      var r := [(i, j)] + rest;
      forall m | 0 <= m < |r| ensures IsRun(where, r[m]) {
        assert m > 0 ==> r[m] == rest[m - 1];
      }
      forall m, n | 0 <= m < n == m + 1 < |r| ensures r[m].1 == r[n].0 {
        assert r[n] == rest[m] && (m > 0 ==> r[m] == rest[m - 1]);
      }
    }
  }

  lemma {:induction false} SwitchesWithin(where: seq<Where>, i: nat, j: nat)
    requires i < j <= |where| && forall m :: i <= m < j ==> where[m] == where[i]
    ensures Switches(where[i], where[i..]) == Switches(where[i], where[j..])
    decreases j - i
  {
    if i + 1 < j {
      SwitchesWithin(where, i + 1, j);
      assert where[i..][1..] == where[i + 1..];
    } else {
      assert where[i..][1..] == where[j..];
    }
  }

  /** There is one run more than there are label changes between nodes. */
  lemma {:induction false} RunsAreSwitches(where: seq<Where>, i: nat)
    requires i < |where|
    ensures |Runs(where, i)| == 1 + Switches(where[i], where[i..])
    decreases |where| - i
  {
    var j := RunEnd(where, i);
    SwitchesWithin(where, i, j);
    if j < |where| {
      RunsAreSwitches(where, j);
      assert where[j..][1..] == where[j + 1..];
    }
  }

  /** The graph opens with undecided nodes, and the first decided one is on the CPU. */
  predicate OpensTowardsCpu(where: seq<Where>) {
    where != [] && where[0].Either? && FirstDecided(where).Cpu?
  }

  function FirstDecided(where: seq<Where>): Where {
    if where == [] then Either else if where[0].Either? then FirstDecided(where[1..]) else where[0]
  }

  /** Following the previous label gives the fewest runs... */
  ghost predicate FewestRuns(where: seq<Where>) {
    forall v :: FillsIn(where, v) ==> |Runs(Fill(Accel, where), 0)| <= |Runs(v, 0)|
  }

  lemma RunsFrom(where: seq<Where>)
    requires where != []
    ensures |Runs(where, 0)| == Switches(Accel, where) + if where[0].Accel? then 1 else 0
  {
    RunsAreSwitches(where, 0);
    assert where[0..] == where;
  }

  lemma {:induction false} FillThroughCpu(prev: Where, where: seq<Where>)
    requires !prev.Cpu? && FirstDecided(where).Cpu?
    ensures Switches(prev, Fill(prev, where)) == Switches(Cpu, Fill(Cpu, where)) + 1
    decreases where
  {
    if where[0].Either? {
      FillThroughCpu(prev, where[1..]);
    }
  }

  /** Where the first decided node is not on the CPU, no filling does better, even
      one that starts from another label. */
  lemma {:induction false} FillNotThroughCpu(where: seq<Where>, q: Where, v: seq<Where>)
    requires FillsIn(where, v) && !FirstDecided(where).Cpu?
    ensures Switches(Accel, Fill(Accel, where)) <= Switches(q, v)
    decreases where
  {
    if where != [] {
      if where[0].Either? {
        FillNotThroughCpu(where[1..], v[0], v[1..]);
      } else {
        FillFromEither(Accel, Accel, where[1..], v[1..]);
      }
    }
  }

  /** ...if and only if the graph does not open with views that lead to the CPU. */
  lemma FewestRunsExactly(where: seq<Where>)
    ensures FewestRuns(where) <==> !OpensTowardsCpu(where)
  {
    if where == [] {
    } else if OpensTowardsCpu(where) {
      var v := Fill(Cpu, where);
      FillFillsIn(Cpu, where);
      FillThroughCpu(Accel, where);
      RunsFrom(v);
      RunsFrom(Fill(Accel, where));
      assert |Runs(v, 0)| < |Runs(Fill(Accel, where), 0)|;
    } else {
      forall v | FillsIn(where, v)
        ensures |Runs(Fill(Accel, where), 0)| <= |Runs(v, 0)|
      {
        RunsFrom(v);
        RunsFrom(Fill(Accel, where));
        FillSwitchesLeast(where, v);
        if where[0].Either? {
          FillNotThroughCpu(where[1..], v[0], v[1..]);
        }
      }
    }
  }

  /** A view before two nodes on the CPU: following the accelerator costs a run. */
  lemma ViewFirstNotFewest()
    ensures !FewestRuns([Either, Cpu, Cpu])
  {
    var where := [Either, Cpu, Cpu];
    assert where[1..] == [Cpu, Cpu];
    assert FirstDecided(where[1..]).Cpu?;
    FewestRunsExactly(where);
  }
}
