/** The backend that hands the operations an accelerator rejects to the CPU. */
module FallbackBackend {
  import opened Options
  import opened Graphs
  import opened SplitRun
  import opened SplitGraph
  import opened PoolUse
  import opened HostShadow
  import opened Labels
  import opened StaleViews

  datatype Status = Success | Failed

  /** What becomes of a run: it works, it cannot be set up, or its backend fails once it
      has computed some nodes. */
  datatype Health = Works | Refuses | Stops(after: nat)

  /** The lengths of the pool's buffers. */
  function Lens(pool: seq<Mem>): (r: seq<nat>)
    ensures |r| == |pool|
  {
    seq(|pool|, s requires 0 <= s < |pool| => |pool[s]|)
  }

  class FallbackCtx {
    const size: nat
    const model: map<nat, Span>

    var dev: Mem                // the accelerator's memory
    var pool: seq<Mem>          // host storage for one CPU run, kept for the next
    var poolUsed: nat
    var weights: map<nat, Mem>  // host copies of weights, made once
    var where: seq<Where>

    function Mems(): Memories
      reads this
    {
      Memories(dev, pool, weights)
    }

    /** The pool while a run's shadow is built. */
    function InUse(shadow: Shadow): Use
      reads this
    {
      Use(shadow.Keys, Lens(pool), poolUsed)
    }

    ghost predicate Valid()
      reads this
    {
      && |dev| == size
      && poolUsed <= |pool|
      && (forall w :: w in model ==> model[w].data + model[w].nbytes <= size)
      && Mirrored(dev, weights, model)
    }

    /** The graph is laid out for this device and leaves the weights alone. */
    ghost predicate Runs(g: Graph) {
      && g.size == size && g.model == model
      && g.Valid() && g.Fits() && g.KeepsWeights()
    }

    constructor (mem: Mem, spans: map<nat, Span>)
      requires forall w :: w in spans ==> spans[w].data + spans[w].nbytes <= |mem|
      ensures Valid() && size == |mem| && model == spans && dev == mem
    {
      size, model := |mem|, spans;
      dev, pool, poolUsed, weights, where := mem, [], 0, map[], [];
    }

    /** A client stores `v` at address `a`, away from the weights. */
    method SetTensor(a: nat, v: Mem)
      requires Valid() && a + |v| <= size
      requires forall w :: w in model ==> a + |v| <= model[w].data || model[w].data + model[w].nbytes <= a
      modifies this`dev
      ensures Valid() && dev == Write(old(dev), a, v)
    {
      dev := Write(dev, a, v);
      assert forall w :: w in weights ==>
        Read(dev, model[w].data, model[w].nbytes) == Read(old(dev), model[w].data, model[w].nbytes);
    }

    /** A host buffer of at least `n` bytes, different from every one handed out
        since the run began, all of which stay as they are. */
    method Take(n: nat, ghost shadow: Shadow) returns (slot: nat)
      requires poolUsed <= |pool|
      modifies this`pool, this`poolUsed
      ensures slot == old(poolUsed) && poolUsed == old(poolUsed) + 1 <= |pool|
      ensures Took(old(Mems()), Mems(), slot, n)
      ensures InUse(shadow) == Claim(old(InUse(shadow)), n)
    {
      if poolUsed == |pool| {
        pool := pool + [[]];
      }
      slot := poolUsed;
      poolUsed := poolUsed + 1;
      if |pool[slot]| < n {
        var grown := pool[slot] + seq(n - |pool[slot]|, _ => 0);
        pool := pool[slot := grown];
      }
    }

    /** A host pointer to what `t` holds on the device, for the CPU to read. */
    method HostInput(g: Graph, i0: nat, shadow0: Shadow, t: TensorId) returns (shadow: Shadow)
      requires Valid() && Runs(g) && t < |g.tensors| && (t in shadow0 || t < i0)
      requires Placed(g, i0, Mems(), poolUsed, shadow0)
      requires Holds(g, i0, i0, Mems(), shadow0, Start(g, dev))
      modifies this`pool, this`poolUsed, this`weights
      ensures Valid() && shadow.Keys == shadow0.Keys + {t}
      ensures InUse(shadow) == UseInput(g, old(InUse(shadow0)), t)
      ensures Placed(g, i0, Mems(), poolUsed, shadow)
      ensures Holds(g, i0, i0, Mems(), shadow, Start(g, dev))
    {
      hide Placed, Holds, Start, PointsTo, Claim;
      shadow := shadow0;
      if t in shadow {
        return;
      }
      var x := g.tensors[t];
      assert g.ValidTensor(t);
      if x.buffer.Host? {
        HostPointer(g, i0, Mems(), shadow, t);
        AddPointer(g, i0, i0, Mems(), poolUsed, shadow, Start(g, dev), t, DevAt(x.data));
        shadow := shadow[t := DevAt(x.data)];
      } else if x.buffer.Weights? {
        MirrorWeight(x.buffer.weight);
        MirrorMore(g, i0, old(Mems()), Mems(), poolUsed, shadow, Start(g, dev));
        var p := Mirror(x.buffer.weight, if x.viewSrc.Some? then x.viewOffs else 0);
        WeightPointer(g, i0, Mems(), shadow, t);
        AddPointer(g, i0, i0, Mems(), poolUsed, shadow, Start(g, dev), t, p);
        shadow := shadow[t := p];
      } else {
        var slot := Take(x.nbytes, shadow);
        AddCopy(g, i0, old(Mems()), Mems(), slot, shadow, t);
        shadow := shadow[t := Slot(slot, 0)];
        pool := pool[slot := Write(pool[slot], 0, Read(dev, x.data, x.nbytes))];
      }
    }

    /** Fills the host copy of weight `w` the first time it is asked for. */
    method MirrorWeight(w: nat)
      requires Valid() && w in model
      modifies this`weights
      ensures Valid() && weights.Keys == old(weights).Keys + {w}
      ensures weights[w] == Read(dev, model[w].data, model[w].nbytes)
      ensures forall v :: v in old(weights) && v != w ==> weights[v] == old(weights)[v]
      ensures w in old(weights) && old(weights)[w] != [] ==> weights == old(weights)
    {
      if w !in weights {
        weights := weights[w := []];
      }
      if weights[w] == [] {
        weights := weights[w := Read(dev, model[w].data, model[w].nbytes)];
      }
    }

    /** Host pointers for the sources of node `k` of a run. */
    method ShadowSources(g: Graph, i0: nat, k: nat, shadow0: Shadow) returns (shadow: Shadow)
      requires Valid() && Runs(g) && i0 <= k < |g.tensors|
      requires forall t :: t in shadow0 ==> t < k
      requires forall t :: i0 <= t < k ==> t in shadow0
      requires Placed(g, i0, Mems(), poolUsed, shadow0)
      requires Holds(g, i0, i0, Mems(), shadow0, Start(g, dev))
      modifies this`pool, this`poolUsed, this`weights
      ensures Valid() && shadow0.Keys <= shadow.Keys && (forall t :: t in shadow ==> t < k)
      ensures SourcesIn(g, shadow, k) && SourcesExist(g, k)
      ensures InUse(shadow) == UseInputs(g, old(InUse(shadow0)), g.tensors[k].src)
      ensures Placed(g, i0, Mems(), poolUsed, shadow)
      ensures Holds(g, i0, i0, Mems(), shadow, Start(g, dev))
    {
      hide Placed, Holds, Start, PointsTo, UseInput, Mirrored;
      var src := g.tensors[k].src;
      SourcesInBounds(g, k);
      shadow := shadow0;
      for j := 0 to |src|
        invariant Valid() && shadow0.Keys <= shadow.Keys && (forall t :: t in shadow ==> t < k)
        invariant forall i :: 0 <= i < j ==> src[i] in shadow
        invariant InUse(shadow) == UseInputs(g, old(InUse(shadow0)), src[..j])
        invariant Placed(g, i0, Mems(), poolUsed, shadow)
        invariant Holds(g, i0, i0, Mems(), shadow, Start(g, dev))
      {
        assert src[..j + 1][..j] == src[..j];
        shadow := HostInput(g, i0, shadow, src[j]);
      }
      assert src[..|src|] == src;
    }

    /** Host storage for node `k` of a run, its sources and what it writes through. */
    method ShadowNode(g: Graph, i0: nat, k: nat, shadow0: Shadow) returns (shadow: Shadow)
      requires Valid() && Runs(g) && g.leafs <= i0 <= k < |g.tensors|
      requires Upto(g, shadow0, i0, k)
      requires Placed(g, i0, Mems(), poolUsed, shadow0)
      requires Holds(g, i0, i0, Mems(), shadow0, Start(g, dev))
      modifies this`pool, this`poolUsed, this`weights
      ensures Valid() && Upto(g, shadow, i0, k + 1)
      ensures InUse(shadow) == UseNode(g, old(InUse(shadow0)), k)
      ensures Placed(g, i0, Mems(), poolUsed, shadow)
      ensures Holds(g, i0, i0, Mems(), shadow, Start(g, dev))
    {
      hide Placed, Holds, Start, PointsTo, UseInput, UseInputs, Claim, Mirrored;
      var x := g.tensors[k];
      assert g.ValidTensor(k);
      shadow := ShadowSources(g, i0, k, shadow0);
      if x.viewSrc.Some? {
        shadow := HostInput(g, i0, shadow, x.viewSrc.value);
        var p := Shift(shadow[x.viewSrc.value], x.viewOffs);
        ViewPointer(g, i0, Mems(), poolUsed, shadow, k);
        AddPointer(g, i0, i0, Mems(), poolUsed, shadow, Start(g, dev), k, p);
        shadow := shadow[k := p];
      } else {
        ghost var before := Mems();
        var slot := Take(x.nbytes, shadow);
        AddNode(g, i0, before, Mems(), slot, shadow, Start(g, dev), k);
        shadow := shadow[k := Slot(slot, 0)];
      }
      UptoNext(g, shadow0, shadow, i0, k);
    }

    /** Host storage for a whole run. */
    method BuildShadow(g: Graph, i0: nat, i1: nat) returns (shadow: Shadow)
      requires Valid() && Runs(g) && g.leafs <= i0 <= i1 <= |g.tensors|
      modifies this`pool, this`poolUsed, this`weights
      ensures Valid() && Upto(g, shadow, i0, i1)
      ensures InUse(shadow) == UseRun(g, i0, i1, old(Lens(pool)))
      ensures Placed(g, i0, Mems(), poolUsed, shadow)
      ensures Holds(g, i0, i0, Mems(), shadow, Start(g, dev))
    {
      hide Placed, Holds, Start, PointsTo, Mirrored, UseNode;
      poolUsed := 0;
      shadow := map[];
      ghost var lens := Lens(pool);
      assert Upto(g, shadow, i0, i0);
      assert InUse(shadow) == Use({}, lens, 0);
      assert g.Valid() && g.Fits() && |dev| == g.size;
      NothingPlaced(g, i0, Mems(), Start(g, dev));
      hide *;
      RunUseStarts(g, i0, lens);
      for k := i0 to i1
        invariant Valid() && Upto(g, shadow, i0, k)
        invariant InUse(shadow) == UseRun(g, i0, k, lens)
        invariant Placed(g, i0, Mems(), poolUsed, shadow)
        invariant |dev| == g.size && Holds(g, i0, i0, Mems(), shadow, Start(g, dev))
      {
        RunUseNext(g, i0, k, lens);
        shadow := ShadowNode(g, i0, k, shadow);
      }
    }

    /** The CPU backend computes the run's nodes, up to `k`, on their host storage. */
    method ComputeOnHost(g: Graph, i0: nat, k: nat, i1: nat, shadow: Shadow)
      requires Valid() && Runs(g) && g.leafs <= i0 <= k <= i1 <= |g.tensors|
      requires Upto(g, shadow, i0, i1)
      requires Placed(g, i0, Mems(), poolUsed, shadow) && Holds(g, i0, i0, Mems(), shadow, Start(g, dev))
      modifies this`pool, this`weights, this`dev
      ensures Valid() && Placed(g, i0, Mems(), poolUsed, shadow) && Lens(pool) == old(Lens(pool))
      ensures Holds(g, i0, k, Mems(), shadow, Compute(g, old(dev), i0, k))
    {
      hide Placed, Holds, Start, PointsTo, HostStep, Mirrored;
      for j := i0 to k
        invariant Valid() && Placed(g, i0, Mems(), poolUsed, shadow) && Lens(pool) == old(Lens(pool))
        invariant Holds(g, i0, j, Mems(), shadow, Compute(g, old(dev), i0, j))
      {
        ComputeNode(g, i0, j, shadow, Compute(g, old(dev), i0, j));
      }
    }

    method ComputeNode(g: Graph, i0: nat, k: nat, shadow: Shadow, ghost s: State)
      requires Valid() && Runs(g) && StateOk(g, s) && g.leafs <= i0 <= k < |g.tensors| && k in shadow
      requires SourcesIn(g, shadow, k)
      requires Placed(g, i0, Mems(), poolUsed, shadow) && Holds(g, i0, k, Mems(), shadow, s)
      modifies this`pool, this`weights, this`dev
      ensures Valid() && Placed(g, i0, Mems(), poolUsed, shadow) && Lens(pool) == old(Lens(pool))
      ensures Holds(g, i0, k + 1, Mems(), shadow, HostStep(g, i0, s, k))
    {
      hide Placed, Holds, PointsTo, HostResult, Store;
      if IsViewOp(g.tensors[k].op) {
        ViewHolds(g, i0, k, Mems(), shadow, s);
        return;
      }
      ResultSame(g, i0, k, Mems(), poolUsed, shadow, s);
      var v := ResultOnHost(g, Mems(), shadow, k);
      StoresSame(g, i0, k, Mems(), poolUsed, shadow, s, v);
      PlacedPointsTo(g, i0, Mems(), poolUsed, shadow, k);
      StoreKeepsMirrors(g, i0, Mems(), shadow, k, v);
      var m := StorePtr(Mems(), shadow[k], v);
      dev, pool, weights := m.dev, m.pool, m.weights;
    }

    /** Copies the results of the run back, in node order. */
    method CopyBack(g: Graph, i0: nat, i1: nat, shadow: Shadow, ghost s: State)
      requires Valid() && Runs(g) && StateOk(g, s) && g.leafs <= i0 <= i1 <= |g.tensors|
      requires Upto(g, shadow, i0, i1)
      requires Placed(g, i0, Mems(), poolUsed, shadow) && Holds(g, i0, i1, Mems(), shadow, s)
      modifies this`dev
      ensures Valid() && dev == SplitRun.WriteBack(g, i0, s, i1).dev
    {
      for k := i0 to i1
        invariant Valid() && Placed(g, i0, Mems(), poolUsed, shadow)
        invariant Holds(g, i0, i1, Mems(), shadow, SplitRun.WriteBack(g, i0, s, k))
      {
        hide Placed, PointsTo, Load;
        if !IsViewOp(g.tensors[k].op) {
          ghost var p := SplitRun.WriteBack(g, i0, s, k);
          assert g.ValidTensor(k);
          LoadsSame(g, i0, i1, Mems(), poolUsed, shadow, p, k);
          var v := LoadPtr(Mems(), shadow[k], g.tensors[k].nbytes);
          WriteKeepsMirrors(g, dev, weights, k, v);
          PlacedAnyDev(g, i0, Mems(), poolUsed, shadow, Write(dev, g.tensors[k].data, v));
          dev := Write(dev, g.tensors[k].data, v);
        }
      }
    }

    /** Nodes `i0` to `i1` on the CPU. A run that stops leaves what its nodes wrote
        directly to memory the host shares with the device; copies go back only from a run
        that works. */
    method RunOnCpu(g: Graph, i0: nat, i1: nat, health: Health) returns (st: Status)
      requires Valid() && Runs(g) && g.leafs <= i0 <= i1 <= |g.tensors|
      modifies this`pool, this`poolUsed, this`weights, this`dev
      ensures Valid() && st == if health.Works? then Success else Failed
      ensures dev == AfterCpu(g, old(dev), i0, i1, health)
      ensures Lens(pool) == if health.Refuses? then old(Lens(pool)) else UseRun(g, i0, i1, old(Lens(pool))).lens
    {
      if health.Refuses? {
        return Failed;
      }
      hide Placed, Holds, Compute, WriteBack, Start, Mirrored, UseRun;
      var shadow := BuildShadow(g, i0, i1);
      var k := Reached(i0, i1, health);
      ComputeOnHost(g, i0, k, i1, shadow);
      if !health.Works? {
        HoldsDev(g, i0, k, Mems(), shadow, Compute(g, old(dev), i0, k));
        return Failed;
      }
      CopyBack(g, i0, i1, shadow, Compute(g, old(dev), i0, i1));
      st := Success;
    }

    /** Nodes `i0` to `i1` on the accelerator, in place, as far as it gets. */
    method RunOnAccel(g: Graph, i0: nat, i1: nat, health: Health) returns (st: Status)
      requires Valid() && Runs(g) && g.leafs <= i0 <= i1 <= |g.tensors|
      modifies this`dev
      ensures Valid() && st == if health.Works? then Success else Failed
      ensures dev == AfterAccel(g, old(dev), i0, i1, health)
    {
      var end := Reached(i0, i1, health);
      for k := i0 to end
        invariant |dev| == size && dev == Eval(g, old(dev), i0, k)
      {
        dev := Step(g, dev, k);
      }
      assert forall w :: w in weights ==>
        Read(dev, model[w].data, model[w].nbytes) == Read(old(dev), model[w].data, model[w].nbytes)
      by {
        forall w, a | w in model && model[w].data <= a < model[w].data + model[w].nbytes ensures dev[a] == old(dev)[a] {
          EvalKeepsWeights(g, old(dev), i0, end, w, a);
        }
      }
      st := if health.Works? then Success else Failed;
    }

    /** Labels every node by the accelerator's verdict on it. */
    method LabelNodes(g: Graph, accepts: TensorId -> bool) returns (anyCpu: bool)
      requires Valid() && Runs(g)
      modifies this`where
      ensures Labelled(g, where) && where == Verdicts(g, accepts)
      ensures anyCpu <==> exists i :: 0 <= i < |where| && where[i].Cpu?
    {
      var n := |g.tensors| - g.leafs;
      where := seq(n, _ => Accel);
      anyCpu := false;
      for i := 0 to n
        invariant |where| == n && forall m :: 0 <= m < i ==> where[m] == Verdict(g, accepts, m)
        invariant anyCpu ==> exists m :: 0 <= m < i && where[m].Cpu?
        invariant !anyCpu ==> forall m :: 0 <= m < i ==> !where[m].Cpu?
      {
        var x := g.tensors[g.leafs + i];
        ghost var was := where;
        if IsViewOp(x.op) || x.nbytes == 0 {
          where := where[i := Either];
        } else if accepts(g.leafs + i) {
          where := where[i := Accel];
        } else {
          where := where[i := Cpu];
          anyCpu := true;
        }
        assert forall m :: 0 <= m < i ==> where[m] == was[m];
        assert where[i].Cpu? ==> anyCpu;
      }
    }

    method FindProducer(g: Graph, t: TensorId) returns (p: Option<TensorId>)
      requires g.Valid() && t < |g.tensors|
      ensures p == Producer(g, t)
    {
      var x: TensorId := t;
      while !g.tensors[x].op.NoOp? && IsViewOp(g.tensors[x].op)
        invariant x < |g.tensors| && Producer(g, x) == Producer(g, t)
        decreases x
      {
        if |g.tensors[x].src| == 0 {
          return None;
        }
        assert g.ValidTensor(x) && g.tensors[x].src[0] in g.tensors[x].src;
        x := g.tensors[x].src[0];
      }
      p := Some(x);
    }

    /** Moves to the CPU every copy that feeds it, in one backward sweep. */
    method PullBack(g: Graph)
      requires g.Valid() && Labelled(g, where)
      modifies this`where
      ensures Pulled(g, old(where), where)
    {
      var n := |where|;
      for i := n downto 0
        invariant |where| == n && Changed(old(where), where)
        invariant ClosedAbove(g, where, i)
        invariant Forced(g, old(where), where)
      {
        if where[i].Cpu? {
          PullInto(g, i, old(where));
        }
      }
    }

    /** Moves to the CPU every copy that feeds node `i`. */
    method PullInto(g: Graph, i: nat, ghost before: seq<Where>)
      requires g.Valid() && Labelled(g, where) && i < |where| && where[i].Cpu?
      requires |before| == |where| && Changed(before, where) && Forced(g, before, where)
      requires ClosedAbove(g, where, i + 1)
      modifies this`where
      ensures |where| == |old(where)| && Changed(before, where) && Forced(g, before, where)
      ensures ClosedAbove(g, where, i)
    {
      var src := g.tensors[g.leafs + i].src;
      SourcesInBounds(g, g.leafs + i);
      for s := 0 to |src|
        invariant |where| == |old(where)| && Changed(before, where) && Forced(g, before, where)
        invariant where[i].Cpu? && ClosedAbove(g, where, i + 1)
        invariant forall p, r ::
          0 <= r < s && 0 <= p < |where| && IsCopyOp(g.tensors[g.leafs + p].op) && FedThrough(g, i, r, p) ==>
          !where[p].Accel?
      {
        var p := FindProducer(g, src[s]);
        ProducerNotLater(g, src[s]);
        if p.Some? && p.value >= g.leafs {
          var m := p.value - g.leafs;
          if where[m].Accel? && IsCopyOp(g.tensors[p.value].op) {
            assert FedThrough(g, i, s, m) && FedBy(g, i, m);
            where := where[m := Cpu];
          }
        }
      }
    }

    /** Gives undecided nodes the label before them. */
    method FillViews()
      modifies this`where
      ensures where == Fill(Accel, old(where))
    {
      var prev := Accel;
      for i := 0 to |where|
        invariant |where| == |old(where)|
        invariant forall m :: 0 <= m < i ==> where[m] == Fill(Accel, old(where))[m]
        invariant forall m :: i <= m < |where| ==> where[m] == old(where)[m]
        invariant prev == if i == 0 then Accel else Fill(Accel, old(where))[i - 1]
      {
        FillAt(Accel, old(where), i);
        if where[i].Either? {
          where := where[i := prev];
        }
        prev := where[i];
      }
    }

    /** Runs a graph, split by the accelerator's verdicts.  `health` says what becomes of
        each run, by the node it starts at. */
    method GraphCompute(g: Graph, accepts: TensorId -> bool, hexagon: bool, health: nat -> Health)
      returns (st: Status, ghost labels: seq<Where>)
      requires Valid() && Runs(g)
      modifies this
      ensures Valid() && Labelled(g, labels) && LabelsOf(g, accepts, hexagon, labels)
      ensures st.Success? ==> dev == Split(g, labels, old(dev), 0)
      ensures st.Success? ==> Lens(pool) == GraphLens(g, labels, old(Lens(pool)), 0)
      ensures st.Success? <==> AllWork(labels, health)
      ensures st.Failed? ==> StoppedAt(g, labels, old(dev), dev, health)
      ensures st.Success? && g.Live() && NoStale(g, labels) ==> dev == Eval(g, old(dev), g.leafs, |g.tensors|)
    {
      var anyCpu := LabelNodes(g, accepts);
      if !anyCpu {
        NothingToPull(g, where);
        labels := Fill(Accel, where);
        FillAllAccel(Accel, where);
        AllOnAccel(g, labels, dev);
        NoPool(g, labels, Lens(pool), 0);
        st := RunOnAccel(g, g.leafs, |g.tensors|, health(0));
        LiveEval(g, labels, old(dev));
        OneRun(g, labels, old(dev), dev, health);
        return;
      }
      if hexagon {
        PullBack(g);
      }
      FillViews();
      labels := where;
      st := RunAll(g, health);
      LiveEval(g, labels, old(dev));
    }

    /** The run of nodes `i` to `j`, on the backend its label names. */
    method RunOne(g: Graph, i: nat, j: nat, health: Health) returns (st: Status)
      requires Valid() && Runs(g) && Labelled(g, where) && i < |where| && j == RunEnd(where, i)
      modifies this`pool, this`poolUsed, this`weights, this`dev
      ensures Valid() && st == if health.Works? then Success else Failed
      ensures dev == AfterRun(g, where, old(dev), i, health)
      ensures st.Success? ==> Lens(pool) == RunLens(g, where, old(Lens(pool)), i)
    {
      hide AfterCpu, AfterAccel, Mirrored, UseRun, RunEnd;
      if where[i].Cpu? {
        st := RunOnCpu(g, g.leafs + i, g.leafs + j, health);
      } else {
        st := RunOnAccel(g, g.leafs + i, g.leafs + j, health);
      }
    }

    /** Runs a labelled graph, run by run. */
    method RunAll(g: Graph, health: nat -> Health) returns (st: Status)
      requires Valid() && Runs(g) && Labelled(g, where)
      modifies this`pool, this`poolUsed, this`weights, this`dev
      ensures Valid()
      ensures st.Success? ==> dev == Split(g, where, old(dev), 0)
      ensures st.Success? ==> Lens(pool) == GraphLens(g, where, old(Lens(pool)), 0)
      ensures st.Success? <==> WorkedBefore(where, |where|, health)
      ensures st.Failed? ==> StoppedAt(g, where, old(dev), dev, health)
    {
      hide AfterRun, RunFrom, RunLens, Mirrored, StoppedAt, StartsRun;
      var i, n := 0, |where|;
      StartIsStart(where);
      while i < n
        invariant Valid() && i <= n && (i < n ==> StartsRun(where, i))
        invariant WorkedBefore(where, i, health)
        invariant dev == BeforeRun(g, where, old(dev), 0, i)
        invariant GraphLens(g, where, old(Lens(pool)), 0) == GraphLens(g, where, Lens(pool), i)
      {
        var j := i + 1;
        while j < n && where[j] == where[i]
          invariant i < j <= n && RunEnd(where, i) >= j
          invariant forall m :: i <= m < j ==> where[m] == where[i]
        {
          j := j + 1;
        }
        assert j == RunEnd(where, i);
        st := RunOne(g, i, j, health(i));
        if st.Failed? {
          Stopped(g, where, old(dev), i, health);
          return;
        }
        NextRun(g, where, old(dev), i, health);
        i := j;
      }
      AllRuns(g, where, old(dev), 0);
      st := Success;
    }

    /** The same graph twice: the second call leaves every pool buffer as long as it was
        after the first. */
    method ComputeTwice(g: Graph, accepts: TensorId -> bool, hexagon: bool, first: nat -> Health,
                        second: nat -> Health)
      returns (st: Status, ghost labels: seq<Where>)
      requires Valid() && Runs(g)
      modifies this
      ensures Valid() && Labelled(g, labels) && LabelsOf(g, accepts, hexagon, labels)
      ensures st.Success? <==> AllWork(labels, first) && AllWork(labels, second)
      ensures st.Success? ==> dev == Split(g, labels, Split(g, labels, old(dev), 0), 0)
      ensures st.Success? ==> Lens(pool) == GraphLens(g, labels, old(Lens(pool)), 0)
    {
      st, labels := GraphCompute(g, accepts, hexagon, first);
      if st.Failed? {
        return;
      }
      RunAgain(g, labels, old(Lens(pool)));
      ghost var again;
      st, again := GraphCompute(g, accepts, hexagon, second);
      LabelsUnique(g, accepts, hexagon, labels, again);
    }
  }

  // ---------- runs that fail ----------

  /** How far a run gets. */
  function Reached(i0: nat, i1: nat, health: Health): (k: nat)
    requires i0 <= i1
    ensures i0 <= k <= i1
  {
    match health
    case Works => i1
    case Refuses => i0
    case Stops(n) => if i0 + n < i1 then i0 + n else i1
  }

  ghost function AfterCpu(g: Graph, mem: Mem, i0: nat, i1: nat, health: Health): (r: Mem)
    requires g.Valid() && |mem| == g.size && g.Fits() && i0 <= i1 <= |g.tensors|
    ensures |r| == |mem|
  {
    match health
    case Works => CpuRun(g, mem, i0, i1)
    case Refuses => mem
    case Stops(_) => Compute(g, mem, i0, Reached(i0, i1, health)).dev
  }

  ghost function AfterAccel(g: Graph, mem: Mem, i0: nat, i1: nat, health: Health): (r: Mem)
    requires g.Valid() && |mem| == g.size && g.Fits() && i0 <= i1 <= |g.tensors|
    ensures |r| == |mem|
  {
    Eval(g, mem, i0, Reached(i0, i1, health))
  }

  /** Device memory after the run that starts at node `i`, however it ends. */
  ghost function AfterRun(g: Graph, where: seq<Where>, mem: Mem, i: nat, health: Health): (r: Mem)
    requires g.Valid() && g.Fits() && |mem| == g.size && Labelled(g, where) && i <= |where|
    ensures |r| == |mem|
  {
    var lo, hi := g.leafs + i, g.leafs + if i < |where| then RunEnd(where, i) else i;
    if i < |where| && where[i].Cpu? then AfterCpu(g, mem, lo, hi, health) else AfterAccel(g, mem, lo, hi, health)
  }

  /** Device memory before the run that starts at node `i`, the runs from node `j` on having
      worked. */
  ghost function BeforeRun(g: Graph, where: seq<Where>, mem: Mem, j: nat, i: nat): (r: Mem)
    requires g.Valid() && g.Fits() && |mem| == g.size && Labelled(g, where) && i <= |where|
    ensures |r| == |mem|
    decreases |where| - j
  {
    if j >= i then mem else BeforeRun(g, where, RunFrom(g, where, mem, j), RunEnd(where, j), i)
  }

  /** Every run that starts before node `i` works. */
  ghost predicate WorkedBefore(where: seq<Where>, i: nat, health: nat -> Health)
    requires i <= |where|
  {
    forall m {:trigger StartsRun(where, m)} :: 0 <= m < i && StartsRun(where, m) ==> health(m).Works?
  }

  /** Every run works; a graph without nodes is one run. */
  ghost predicate AllWork(where: seq<Where>, health: nat -> Health) {
    WorkedBefore(where, |where|, health) && (|where| == 0 ==> health(0).Works?)
  }

  /** Some run is the first that does not work, and memory is what the runs before it and
      the part of it that was computed leave. */
  ghost predicate StoppedAt(g: Graph, where: seq<Where>, before: Mem, after: Mem, health: nat -> Health)
    requires g.Valid() && g.Fits() && |before| == g.size && Labelled(g, where)
  {
    exists i :: FailsFirst(where, i, health) && after == Left(g, where, before, i, health)
  }

  ghost predicate FailsFirst(where: seq<Where>, i: nat, health: nat -> Health) {
    && (if |where| == 0 then i == 0 else i < |where| && StartsRun(where, i))
    && WorkedBefore(where, i, health) && !health(i).Works?
  }

  ghost function Left(g: Graph, where: seq<Where>, before: Mem, i: nat, health: nat -> Health): Mem
    requires g.Valid() && g.Fits() && |before| == g.size && Labelled(g, where) && i <= |where|
  {
    AfterRun(g, where, BeforeRun(g, where, before, 0, i), i, health(i))
  }

  /** There is one such run at most, so one memory. */
  lemma FirstFailureUnique(where: seq<Where>, i: nat, j: nat, health: nat -> Health)
    requires FailsFirst(where, i, health) && FailsFirst(where, j, health)
    ensures i == j && !AllWork(where, health)
  {
  }

  lemma StartIsStart(where: seq<Where>)
    ensures |where| > 0 ==> StartsRun(where, 0)
  {
  }

  /** Between a run's start and its end no run starts, and at its end one does. */
  lemma StartsAtEnd(where: seq<Where>, i: nat)
    requires i < |where|
    ensures forall m :: i < m < RunEnd(where, i) ==> !StartsRun(where, m)
    ensures RunEnd(where, i) < |where| ==> StartsRun(where, RunEnd(where, i))
  {
  }

  lemma {:induction false} BeforeNext(g: Graph, where: seq<Where>, mem: Mem, j: nat, i: nat)
    requires g.Valid() && g.Fits() && |mem| == g.size && Labelled(g, where) && j <= i < |where|
    requires StartsRun(where, i)
    ensures BeforeRun(g, where, mem, j, RunEnd(where, i))
            == RunFrom(g, where, BeforeRun(g, where, mem, j, i), i)
    decreases i - j
  {
    hide RunFrom, StartsRun;
    StartsAtEnd(where, j);
    if j < i {
      BeforeNext(g, where, RunFrom(g, where, mem, j), RunEnd(where, j), i);
    }
  }

  /** After a run that worked. */
  lemma NextRun(g: Graph, where: seq<Where>, before: Mem, i: nat, health: nat -> Health)
    requires g.Valid() && g.Fits() && |before| == g.size && Labelled(g, where) && i < |where|
    requires StartsRun(where, i) && WorkedBefore(where, i, health) && health(i).Works?
    ensures var end := RunEnd(where, i);
            && (end < |where| ==> StartsRun(where, end)) && WorkedBefore(where, end, health)
            && BeforeRun(g, where, before, 0, end)
               == AfterRun(g, where, BeforeRun(g, where, before, 0, i), i, Works)
  {
    hide RunFrom, AfterRun, StartsRun, BeforeRun;
    StartsAtEnd(where, i);
    BeforeNext(g, where, before, 0, i);
    WorkingRun(g, where, BeforeRun(g, where, before, 0, i), i);
  }

  /** Run after run is the split execution. */
  lemma {:induction false} AllRuns(g: Graph, where: seq<Where>, mem: Mem, j: nat)
    requires g.Valid() && g.Fits() && |mem| == g.size && Labelled(g, where) && j <= |where|
    ensures BeforeRun(g, where, mem, j, |where|) == Split(g, where, mem, j)
    decreases |where| - j
  {
    hide RunFrom;
    if j < |where| {
      AllRuns(g, where, RunFrom(g, where, mem, j), RunEnd(where, j));
    }
  }

  lemma HoldsDev(g: Graph, i0: nat, k: nat, m: Memories, shadow: Shadow, s: State)
    requires StateOk(g, s) && Holds(g, i0, k, m, shadow, s)
    ensures m.dev == s.dev
  {
  }

  lemma WorkingRun(g: Graph, where: seq<Where>, mem: Mem, i: nat)
    requires g.Valid() && g.Fits() && |mem| == g.size && Labelled(g, where) && i < |where|
    ensures AfterRun(g, where, mem, i, Works) == RunFrom(g, where, mem, i)
  {
    hide CpuRun, Eval, Compute, RunEnd;
  }

  lemma Stopped(g: Graph, where: seq<Where>, before: Mem, i: nat, health: nat -> Health)
    requires g.Valid() && g.Fits() && |before| == g.size && Labelled(g, where) && i < |where|
    requires StartsRun(where, i) && WorkedBefore(where, i, health) && !health(i).Works?
    ensures StoppedAt(g, where, before, AfterRun(g, where, BeforeRun(g, where, before, 0, i), i, health(i)), health)
    ensures !WorkedBefore(where, |where|, health)
  {
    hide BeforeRun, AfterRun, StartsRun;
    assert FailsFirst(where, i, health);
    assert AfterRun(g, where, BeforeRun(g, where, before, 0, i), i, health(i)) == Left(g, where, before, i, health);
  }

  /** A graph that is one run on the accelerator. */
  lemma OneRun(g: Graph, labels: seq<Where>, before: Mem, after: Mem, health: nat -> Health)
    requires g.Valid() && g.Fits() && |before| == g.size && Labelled(g, labels)
    requires forall i :: 0 <= i < |labels| ==> labels[i].Accel?
    requires after == AfterAccel(g, before, g.leafs, |g.tensors|, health(0))
    ensures AllWork(labels, health) <==> health(0).Works?
    ensures !health(0).Works? ==> StoppedAt(g, labels, before, after, health)
  {
    hide AfterAccel;
    assert |labels| > 0 ==> RunEnd(labels, 0) == |labels| && StartsRun(labels, 0);
    assert after == AfterRun(g, labels, before, 0, health(0));
    if !health(0).Works? {
      assert FailsFirst(labels, 0, health) && after == Left(g, labels, before, 0, health);
    }
  }

  /** A graph without CPU runs does not use the pool. */
  lemma {:induction false} NoPool(g: Graph, where: seq<Where>, lens: seq<nat>, i: nat)
    requires g.Valid() && Labelled(g, where) && i <= |where|
    requires forall m :: 0 <= m < |where| ==> where[m].Accel?
    ensures GraphLens(g, where, lens, i) == lens
    decreases |where| - i
  {
    hide UseRun;
    if i < |where| {
      NoPool(g, where, lens, RunEnd(where, i));
    }
  }

  /** A graph's labels are determined by the accelerator's verdicts. */
  lemma LabelsUnique(g: Graph, accepts: TensorId -> bool, hexagon: bool, a: seq<Where>, b: seq<Where>)
    requires g.Valid() && LabelsOf(g, accepts, hexagon, a) && LabelsOf(g, accepts, hexagon, b)
    ensures a == b
  {
    hide Pulled, Fill;
    var v := Verdicts(g, accepts);
    var x :| (if hexagon then Pulled(g, v, x) else x == v) && a == Fill(Accel, x);
    var y :| (if hexagon then Pulled(g, v, y) else y == v) && b == Fill(Accel, y);
    if hexagon {
      PulledUnique(g, v, x, y);
    }
  }

  /** The labels a graph gets: the least pull-back of the verdicts on Hexagon, the
      verdicts elsewhere, with the gaps filled. */
  ghost predicate LabelsOf(g: Graph, accepts: TensorId -> bool, hexagon: bool, labels: seq<Where>)
    requires g.Valid()
  {
    exists w :: (if hexagon then Pulled(g, Verdicts(g, accepts), w) else w == Verdicts(g, accepts))
      && labels == Fill(Accel, w)
  }

  lemma NothingToPull(g: Graph, where: seq<Where>)
    requires g.Valid() && Labelled(g, where)
    requires forall i :: 0 <= i < |where| ==> !where[i].Cpu?
    ensures Pulled(g, where, where)
  {
    assert OnCpu(where) == {};
  }

  lemma {:induction false} FillAllAccel(prev: Where, where: seq<Where>)
    requires prev.Accel? && forall i :: 0 <= i < |where| ==> !where[i].Cpu?
    ensures forall i :: 0 <= i < |where| ==> Fill(prev, where)[i].Accel?
    decreases where
  {
    if where != [] {
      FillAllAccel(Accel, where[1..]);
    }
  }

  lemma AllOnAccel(g: Graph, where: seq<Where>, mem: Mem)
    requires g.Valid() && g.Fits() && |mem| == g.size && Labelled(g, where)
    requires forall i :: 0 <= i < |where| ==> where[i].Accel?
    ensures Split(g, where, mem, 0) == Eval(g, mem, g.leafs, |g.tensors|)
  {
    if where != [] {
      var r := RunFrom(g, where, mem, 0);
      assert Split(g, where, r, |where|) == r;
    }
  }

  lemma LiveEval(g: Graph, where: seq<Where>, mem: Mem)
    requires g.Valid() && g.Fits() && |mem| == g.size && Labelled(g, where)
    ensures g.Live() && NoStale(g, where) ==> Split(g, where, mem, 0) == Eval(g, mem, g.leafs, |g.tensors|)
  {
    if g.Live() && NoStale(g, where) {
      SplitIsEval(g, where, mem);
    }
  }

  // ---------- a graph that is run wrongly ----------

  /** A leaf, a view of it, an operation that writes to the leaf in place, and an operation
      that reads the view. */
  function StaleGraph(): Graph {
    var leaf := Tensor(NoOp, [], None, 0, 0, 1, Device);
    var view := Tensor(View, [0], Some(0), 0, 0, 1, Device);
    var inPlace := Tensor(Other(0), [0], Some(0), 0, 0, 1, Device);
    var reader := Tensor(Other(1), [1], None, 0, 1, 1, Device);
    Graph([leaf, view, inPlace, reader], 1, (k: TensorId, ins: seq<Mem>, was: Mem) => [0], map[], 2)
  }

  lemma StaleGraphIsLaidOut()
    ensures var g := StaleGraph(); g.Valid() && g.Fits() && g.KeepsWeights() && g.Live()
  {
    var g := StaleGraph();
    forall t | 0 <= t < |g.tensors| ensures g.ValidTensor(t) {
      assert t == 0 || t == 1 || t == 2 || t == 3;
    }
    forall k: TensorId, t: TensorId, j: TensorId, a: int ensures !g.Clobbers(k, t, j, a) {
      assert k < 4 ==> k == 0 || k == 1 || k == 2 || k == 3;
    }
  }

  /** An accelerator that takes neither operation: the labels the backend computes put the
      view outside the CPU run, the run reads a stale copy, and some operations show it. */
  lemma StaleGraphFails()
    ensures var g := StaleGraph(); g.Valid() && g.Live()
    ensures LabelsOf(StaleGraph(), (t: TensorId) => false, false, [Accel, Cpu, Cpu])
    ensures Labelled(StaleGraph(), [Accel, Cpu, Cpu]) && !NoStale(StaleGraph(), [Accel, Cpu, Cpu])
    ensures !Faithful(StaleGraph(), [Accel, Cpu, Cpu])
  {
    StaleGraphIsLaidOut();
    var g, labels := StaleGraph(), [Accel, Cpu, Cpu];
    var verdicts := Verdicts(g, (t: TensorId) => false);
    assert verdicts == [Either, Cpu, Cpu];
    FilledExample();
    assert StartsRun(labels, 1) && RunEnd(labels, 1) == 3;
    assert StaleAt(g, 2, 3, 1, 2, 0);
    ExactlyWhenFresh(g, labels);
  }

  lemma FilledExample()
    ensures Fill(Accel, [Either, Cpu, Cpu]) == [Accel, Cpu, Cpu]
  {
    assert [Either, Cpu, Cpu][1..] == [Cpu, Cpu] && [Cpu, Cpu][1..] == [Cpu] && [Cpu][1..] == [];
    assert Fill(Cpu, [Cpu]) == [Cpu] && Fill(Cpu, [Cpu, Cpu]) == [Cpu, Cpu];
  }
}
