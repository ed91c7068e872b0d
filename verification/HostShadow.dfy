/** Pointers into the executor's host storage, and how they realise the places a
    run's tensors live in. */
module HostShadow {
  import opened Options
  import opened Graphs
  import opened SplitRun

  /** A slot of the buffer pool, the mirror of a weight, or host-visible memory. */
  datatype Ptr = Slot(slot: nat, offs: nat) | Mirror(weight: nat, offs: nat) | DevAt(addr: nat)

  type Shadow = map<TensorId, Ptr>

  /** The executor's memories. */
  datatype Memories = Memories(dev: Mem, pool: seq<Mem>, weights: map<nat, Mem>)

  function Shift(p: Ptr, d: nat): Ptr {
    match p
    case Slot(s, offs) => Slot(s, offs + d)
    case Mirror(w, offs) => Mirror(w, offs + d)
    case DevAt(a) => DevAt(a + d)
  }

  predicate InBounds(m: Memories, p: Ptr, n: nat) {
    match p
    case Slot(s, offs) => s < |m.pool| && offs + n <= |m.pool[s]|
    case Mirror(w, offs) => w in m.weights && offs + n <= |m.weights[w]|
    case DevAt(a) => a + n <= |m.dev|
  }

  function LoadPtr(m: Memories, p: Ptr, n: nat): (r: Mem)
    requires InBounds(m, p, n)
    ensures |r| == n
  {
    match p
    case Slot(s, offs) => Read(m.pool[s], offs, n)
    case Mirror(w, offs) => Read(m.weights[w], offs, n)
    case DevAt(a) => Read(m.dev, a, n)
  }

  function StorePtr(m: Memories, p: Ptr, v: Mem): (r: Memories)
    requires InBounds(m, p, |v|)
    ensures |r.dev| == |m.dev| && |r.pool| == |m.pool| && r.weights.Keys == m.weights.Keys
  {
    match p
    case Slot(s, offs) => m.(pool := m.pool[s := Write(m.pool[s], offs, v)])
    case Mirror(w, offs) => m.(weights := m.weights[w := Write(m.weights[w], offs, v)])
    case DevAt(a) => m.(dev := Write(m.dev, a, v))
  }

  predicate IsOwner(g: Graph, i0: nat, t: TensorId)
    requires t < |g.tensors|
  {
    Home(g, i0, t) == Own(t, 0)
  }

  /** Every mirror that has been filled holds its weight's bytes. */
  ghost predicate Mirrored(dev: Mem, weights: map<nat, Mem>, model: map<nat, Span>) {
    forall w :: w in weights ==>
      && w in model
      && model[w].data + model[w].nbytes <= |dev|
      && (weights[w] == [] || weights[w] == Read(dev, model[w].data, model[w].nbytes))
  }

  /** `p` points to where the run keeps `t`. */
  ghost predicate PointsTo(g: Graph, i0: nat, m: Memories, shadow: Shadow, t: TensorId, p: Ptr)
    requires t < |g.tensors|
  {
    match Home(g, i0, t)
    case Own(o, offs) =>
      && o in shadow && o < |g.tensors| && IsOwner(g, i0, o)
      && shadow[o].Slot? && shadow[o].offs == 0
      && p == Slot(shadow[o].slot, offs)
    case Dev(a) =>
      if g.tensors[t].buffer.Weights? then
        var w := g.tensors[t].buffer.weight;
        && w in m.weights && w in g.model && a >= g.model[w].data
        && |m.weights[w]| == g.model[w].nbytes
        && p == Mirror(w, a - g.model[w].data)
      else p == DevAt(a)
  }

  /** Every tensor met so far has its pointer; owners have slots of their own, in
      use and large enough. */
  ghost predicate Placed(g: Graph, i0: nat, m: Memories, used: nat, shadow: Shadow) {
    && used <= |m.pool|
    && (forall t :: t in shadow ==> t < |g.tensors| && PointsTo(g, i0, m, shadow, t, shadow[t]))
    && (forall o :: o in shadow && o < |g.tensors| && IsOwner(g, i0, o) ==>
          shadow[o].slot < used && |m.pool[shadow[o].slot]| >= g.tensors[o].nbytes)
    && (forall o, p ::
          o in shadow && p in shadow && o < |g.tensors| && p < |g.tensors| && o != p ==>
          IsOwner(g, i0, o) && IsOwner(g, i0, p) ==> shadow[o].slot != shadow[p].slot)
  }

  /** Owners for which `live` holds have in their slots what the run's state says. */
  ghost predicate Holds(g: Graph, i0: nat, k: nat, m: Memories, shadow: Shadow, s: State)
    requires StateOk(g, s)
  {
    && m.dev == s.dev
    && forall o :: o in shadow && o < |g.tensors| && (o < i0 || o < k) && IsOwner(g, i0, o) ==>
         HoldsOwner(g, m, shadow[o], o, s)
  }

  ghost predicate HoldsOwner(g: Graph, m: Memories, p: Ptr, o: TensorId, s: State)
    requires StateOk(g, s) && o < |g.tensors|
  {
    p.Slot? && p.slot < |m.pool| && g.tensors[o].nbytes <= |m.pool[p.slot]|
    && forall i :: 0 <= i < g.tensors[o].nbytes ==> m.pool[p.slot][i] == s.own[o][i]
  }

  lemma PointerInBounds(g: Graph, i0: nat, m: Memories, used: nat, shadow: Shadow, t: TensorId, p: Ptr)
    requires g.Valid() && |m.dev| == g.size && Placed(g, i0, m, used, shadow)
    requires t < |g.tensors| && PointsTo(g, i0, m, shadow, t, p)
    ensures InBounds(m, p, g.tensors[t].nbytes)
  {
    assert g.ValidTensor(t) && g.ValidTensor(g.Base(t));
    HomeInBounds(g, i0, t);
  }

  /** Loading through a tensor's pointer gives what the run's state has for it. */
  lemma LoadsSame(g: Graph, i0: nat, k: nat, m: Memories, used: nat, shadow: Shadow, s: State, t: TensorId)
    requires g.Valid() && StateOk(g, s) && Placed(g, i0, m, used, shadow) && Holds(g, i0, k, m, shadow, s)
    requires Mirrored(m.dev, m.weights, g.model)
    requires t in shadow && (t < i0 || t < k || (t == k && g.tensors[t].viewSrc.Some?))
    ensures t < |g.tensors| && InBounds(m, shadow[t], g.tensors[t].nbytes)
    ensures LoadPtr(m, shadow[t], g.tensors[t].nbytes) == Load(g, i0, s, t)
  {
    assert g.ValidTensor(t) && g.ValidTensor(g.Base(t));
    HomeInBounds(g, i0, t);
    PointerInBounds(g, i0, m, used, shadow, t, shadow[t]);
  }

  /** Storing through a pointer keeps every slot's length. */
  lemma StoreKeepsPlaced(g: Graph, i0: nat, m: Memories, used: nat, shadow: Shadow, k: nat, v: Mem)
    requires Placed(g, i0, m, used, shadow) && k in shadow && InBounds(m, shadow[k], |v|)
    ensures Placed(g, i0, StorePtr(m, shadow[k], v), used, shadow)
  {
  }

  /** Storing through a node's pointer does to the run's state what the run does. */
  lemma StoresSame(g: Graph, i0: nat, k: nat, m: Memories, used: nat, shadow: Shadow, s: State, v: Mem)
    requires g.Valid() && StateOk(g, s) && Placed(g, i0, m, used, shadow) && Holds(g, i0, k, m, shadow, s)
    requires i0 <= k && k in shadow && k < |g.tensors| && |v| == g.tensors[k].nbytes
    requires !g.tensors[k].buffer.Weights?
    ensures InBounds(m, shadow[k], |v|)
    ensures Placed(g, i0, StorePtr(m, shadow[k], v), used, shadow)
    ensures Holds(g, i0, k + 1, StorePtr(m, shadow[k], v), shadow, Store(g, i0, s, k, v))
  {
    assert g.ValidTensor(k);
    HomeInBounds(g, i0, k);
    PointerInBounds(g, i0, m, used, shadow, k, shadow[k]);
    StoreKeepsPlaced(g, i0, m, used, shadow, k, v);
  }

  /** `after` is `before` with slot `used` handed out, at least `n` bytes long. */
  ghost predicate Took(before: Memories, after: Memories, used: nat, n: nat) {
    && after.dev == before.dev && after.weights == before.weights
    && used <= |before.pool| && |after.pool| >= |before.pool| && used < |after.pool|
    && |after.pool[used]| >= n
    && forall s :: 0 <= s < |before.pool| && s != used ==> after.pool[s] == before.pool[s]
  }

  /** A tensor with storage of its own gets the next slot. */
  lemma AddOwner(g: Graph, i0: nat, before: Memories, after: Memories, used: nat, shadow: Shadow, t: TensorId)
    requires Placed(g, i0, before, used, shadow) && t < |g.tensors| && t !in shadow
    requires IsOwner(g, i0, t) && Took(before, after, used, g.tensors[t].nbytes)
    ensures Placed(g, i0, after, used + 1, shadow[t := Slot(used, 0)])
  {
  }

  /** A tensor that lies in storage already placed gets a pointer into it. */
  lemma AddPointer(g: Graph, i0: nat, k: nat, m: Memories, used: nat, shadow: Shadow, s: State, t: TensorId, p: Ptr)
    requires StateOk(g, s) && Placed(g, i0, m, used, shadow) && Holds(g, i0, k, m, shadow, s)
    requires t < |g.tensors| && t !in shadow && !IsOwner(g, i0, t) && PointsTo(g, i0, m, shadow, t, p)
    ensures Placed(g, i0, m, used, shadow[t := p]) && Holds(g, i0, k, m, shadow[t := p], s)
  {
    hide HoldsOwner;
  }

  /** A copied tensor gets a slot and, in it, the device's bytes. */
  lemma AddCopy(g: Graph, i0: nat, before: Memories, after: Memories, used: nat, shadow: Shadow, t: TensorId)
    requires g.Valid() && |before.dev| == g.size && t < |g.tensors| && t !in shadow
    requires Placed(g, i0, before, used, shadow) && Holds(g, i0, i0, before, shadow, Start(g, before.dev))
    requires Copied(g, i0, t) && Took(before, after, used, g.tensors[t].nbytes)
    ensures g.tensors[t].data + g.tensors[t].nbytes <= g.size
    ensures var m := StorePtr(after, Slot(used, 0), Read(after.dev, g.tensors[t].data, g.tensors[t].nbytes));
            && Placed(g, i0, m, used + 1, shadow[t := Slot(used, 0)])
            && Holds(g, i0, i0, m, shadow[t := Slot(used, 0)], Start(g, before.dev))
  {
    assert g.ValidTensor(t);
    var m := StorePtr(after, Slot(used, 0), Read(after.dev, g.tensors[t].data, g.tensors[t].nbytes));
    AddOwner(g, i0, before, m, used, shadow, t);
    forall o | o in shadow[t := Slot(used, 0)] && o < |g.tensors| && o < i0 && IsOwner(g, i0, o)
      ensures HoldsOwner(g, m, shadow[t := Slot(used, 0)][o], o, Start(g, before.dev))
    {
      assert g.ValidTensor(o);
      assert o != t ==> HoldsOwner(g, before, shadow[o], o, Start(g, before.dev));
    }
  }

  /** Filling a mirror that was empty moves nothing. */
  lemma MirrorMore(g: Graph, i0: nat, before: Memories, after: Memories, used: nat, shadow: Shadow, s: State)
    requires StateOk(g, s) && Placed(g, i0, before, used, shadow) && Holds(g, i0, i0, before, shadow, s)
    requires after.dev == before.dev && after.pool == before.pool
    requires forall w :: w in before.weights ==>
      w in after.weights && (after.weights[w] == before.weights[w] || before.weights[w] == [])
    requires forall w :: w in before.weights && w in g.model && |before.weights[w]| == g.model[w].nbytes ==>
      |after.weights[w]| == g.model[w].nbytes
    ensures Placed(g, i0, after, used, shadow) && Holds(g, i0, i0, after, shadow, s)
  {
  }

  /** A view of the run lies in its source's storage. */
  lemma ViewPointer(g: Graph, i0: nat, m: Memories, used: nat, shadow: Shadow, t: TensorId)
    requires g.Valid() && Placed(g, i0, m, used, shadow) && i0 <= t < |g.tensors|
    requires g.tensors[t].viewSrc.Some? && g.tensors[t].viewSrc.value in shadow
    ensures !IsOwner(g, i0, t)
    ensures PointsTo(g, i0, m, shadow, t, Shift(shadow[g.tensors[t].viewSrc.value], g.tensors[t].viewOffs))
  {
    assert g.ValidTensor(t);
    var b := g.tensors[t].viewSrc.value;
    assert g.ValidTensor(b);
    assert PointsTo(g, i0, m, shadow, b, shadow[b]);
  }

  /** A weight from outside the run is read from its mirror. */
  lemma WeightPointer(g: Graph, i0: nat, m: Memories, shadow: Shadow, t: TensorId)
    requires g.Valid() && t < i0 && t < |g.tensors| && g.tensors[t].buffer.Weights?
    requires g.tensors[t].buffer.weight in m.weights
    requires g.tensors[t].buffer.weight in g.model
    requires |m.weights[g.tensors[t].buffer.weight]| == g.model[g.tensors[t].buffer.weight].nbytes
    ensures !IsOwner(g, i0, t)
    ensures PointsTo(g, i0, m, shadow, t,
      Mirror(g.tensors[t].buffer.weight, if g.tensors[t].viewSrc.Some? then g.tensors[t].viewOffs else 0))
  {
    assert g.ValidTensor(t) && g.ValidTensor(g.Base(t));
  }

  /** Host-visible memory is read where it is. */
  lemma HostPointer(g: Graph, i0: nat, m: Memories, shadow: Shadow, t: TensorId)
    requires g.Valid() && t < i0 && t < |g.tensors| && g.tensors[t].buffer.Host?
    ensures !IsOwner(g, i0, t) && PointsTo(g, i0, m, shadow, t, DevAt(g.tensors[t].data))
  {
  }

  /** A node with storage of its own gets a slot; nothing is in it yet. */
  lemma AddNode(g: Graph, i0: nat, before: Memories, after: Memories, used: nat, shadow: Shadow, s: State, t: TensorId)
    requires g.Valid() && StateOk(g, s) && i0 <= t < |g.tensors| && t !in shadow
    requires Placed(g, i0, before, used, shadow) && Holds(g, i0, i0, before, shadow, s)
    requires g.tensors[t].viewSrc.None? && Took(before, after, used, g.tensors[t].nbytes)
    ensures Placed(g, i0, after, used + 1, shadow[t := Slot(used, 0)])
    ensures Holds(g, i0, i0, after, shadow[t := Slot(used, 0)], s)
  {
    AddOwner(g, i0, before, after, used, shadow, t);
    forall o | o in shadow && o < |g.tensors| && o < i0 && IsOwner(g, i0, o)
      ensures HoldsOwner(g, after, shadow[o], o, s)
    {
      assert HoldsOwner(g, before, shadow[o], o, s);
    }
  }

  /** A node stores nothing over a weight, so its mirror stays right. */
  lemma StoreKeepsMirrors(g: Graph, i0: nat, m: Memories, shadow: Shadow, k: TensorId, v: Mem)
    requires g.Valid() && g.KeepsWeights() && Mirrored(m.dev, m.weights, g.model)
    requires g.leafs <= i0 <= k < |g.tensors| && !IsViewOp(g.tensors[k].op) && |v| == g.tensors[k].nbytes
    requires k in shadow && PointsTo(g, i0, m, shadow, k, shadow[k]) && InBounds(m, shadow[k], |v|)
    ensures var r := StorePtr(m, shadow[k], v); Mirrored(r.dev, r.weights, g.model)
  {
    var r := StorePtr(m, shadow[k], v);
    if shadow[k].DevAt? {
      WriteKeepsMirrors(g, m.dev, m.weights, k, v);
    }
  }

  lemma WriteKeepsMirrors(g: Graph, dev: Mem, weights: map<nat, Mem>, k: TensorId, v: Mem)
    requires g.Valid() && g.KeepsWeights() && Mirrored(dev, weights, g.model)
    requires g.leafs <= k < |g.tensors| && !IsViewOp(g.tensors[k].op) && |v| == g.tensors[k].nbytes
    requires g.tensors[k].data + |v| <= |dev|
    ensures Mirrored(Write(dev, g.tensors[k].data, v), weights, g.model)
  {
    var r := Write(dev, g.tensors[k].data, v);
    forall w | w in weights && weights[w] != []
      ensures weights[w] == Read(r, g.model[w].data, g.model[w].nbytes)
    {
      forall a | g.model[w].data <= a < g.model[w].data + g.model[w].nbytes
        ensures r[a] == dev[a]
      {
        assert g.Writes(k, a) <==> g.Covers(k, a);
      }
    }
  }

  /** A pure view computes nothing. */
  lemma ViewHolds(g: Graph, i0: nat, k: nat, m: Memories, shadow: Shadow, s: State)
    requires g.Valid() && StateOk(g, s) && g.leafs <= i0 <= k < |g.tensors| && IsViewOp(g.tensors[k].op)
    requires Holds(g, i0, k, m, shadow, s)
    ensures Holds(g, i0, k + 1, m, shadow, s)
  {
    assert g.ValidTensor(k);
  }

  /** What the CPU computes for node `k` from its host pointers. */
  function ResultOnHost(g: Graph, m: Memories, shadow: Shadow, k: TensorId): (r: Mem)
    requires k < |g.tensors| && k in shadow
    requires forall i :: 0 <= i < |g.tensors[k].src| ==>
      && g.tensors[k].src[i] < |g.tensors| && g.tensors[k].src[i] in shadow
      && InBounds(m, shadow[g.tensors[k].src[i]], g.tensors[g.tensors[k].src[i]].nbytes)
    requires InBounds(m, shadow[k], g.tensors[k].nbytes)
  {
    var x := g.tensors[k];
    g.kernel(k,
      seq(|x.src|, i requires 0 <= i < |x.src| => LoadPtr(m, shadow[x.src[i]], g.tensors[x.src[i]].nbytes)),
      if x.viewSrc.Some? then LoadPtr(m, shadow[k], x.nbytes) else [])
  }

  lemma ResultSame(g: Graph, i0: nat, k: nat, m: Memories, used: nat, shadow: Shadow, s: State)
    requires g.Valid() && g.Fits() && StateOk(g, s) && g.leafs <= i0 <= k < |g.tensors| && k in shadow
    requires Placed(g, i0, m, used, shadow) && Holds(g, i0, k, m, shadow, s)
    requires Mirrored(m.dev, m.weights, g.model)
    requires forall i :: 0 <= i < |g.tensors[k].src| ==> g.tensors[k].src[i] in shadow
    ensures forall i :: 0 <= i < |g.tensors[k].src| ==>
      && g.tensors[k].src[i] < |g.tensors|
      && InBounds(m, shadow[g.tensors[k].src[i]], g.tensors[g.tensors[k].src[i]].nbytes)
    ensures InBounds(m, shadow[k], g.tensors[k].nbytes)
    ensures ResultOnHost(g, m, shadow, k) == HostResult(g, i0, s, k)
  {
    assert |m.dev| == g.size;
    hide Placed, Holds, Load, PointsTo, Mirrored;
    var x := g.tensors[k];
    SourcesInBounds(g, k);
    forall i | 0 <= i < |x.src|
      ensures InBounds(m, shadow[x.src[i]], g.tensors[x.src[i]].nbytes)
      ensures LoadPtr(m, shadow[x.src[i]], g.tensors[x.src[i]].nbytes) == Load(g, i0, s, x.src[i])
    {
      LoadsSame(g, i0, k, m, used, shadow, s, x.src[i]);
    }
    PlacedInBounds(g, i0, m, used, shadow, k);
    if x.viewSrc.Some? {
      LoadsSame(g, i0, k, m, used, shadow, s, k);
    }
    assert LoadAll(g, i0, s, x.src) == seq(|x.src|, i requires 0 <= i < |x.src| =>
      LoadPtr(m, shadow[x.src[i]], g.tensors[x.src[i]].nbytes));
  }

  lemma PlacedPointsTo(g: Graph, i0: nat, m: Memories, used: nat, shadow: Shadow, t: TensorId)
    requires Placed(g, i0, m, used, shadow) && t in shadow
    ensures t < |g.tensors| && PointsTo(g, i0, m, shadow, t, shadow[t])
  {
  }

  lemma PlacedInBounds(g: Graph, i0: nat, m: Memories, used: nat, shadow: Shadow, t: TensorId)
    requires g.Valid() && |m.dev| == g.size && Placed(g, i0, m, used, shadow) && t in shadow
    ensures t < |g.tensors| && InBounds(m, shadow[t], g.tensors[t].nbytes)
  {
    PointerInBounds(g, i0, m, used, shadow, t, shadow[t]);
  }

  lemma PlacedAnyDev(g: Graph, i0: nat, m: Memories, used: nat, shadow: Shadow, dev: Mem)
    requires Placed(g, i0, m, used, shadow)
    ensures Placed(g, i0, m.(dev := dev), used, shadow)
  {
  }

  lemma NothingPlaced(g: Graph, i0: nat, m: Memories, s: State)
    requires StateOk(g, s) && s.dev == m.dev
    ensures Placed(g, i0, m, 0, map[]) && Holds(g, i0, i0, m, map[], s)
  {
  }

  /** All that node `t` reads has a pointer. */
  ghost predicate SourcesIn(g: Graph, shadow: Shadow, t: TensorId) {
    t < |g.tensors| && forall i :: 0 <= i < |g.tensors[t].src| ==> g.tensors[t].src[i] in shadow
  }

  /** Nodes `i0` to `k` and all they read have pointers, and no later tensor does. */
  ghost predicate Upto(g: Graph, shadow: Shadow, i0: nat, k: nat) {
    && (forall t :: t in shadow ==> t < k)
    && (forall t :: i0 <= t < k ==> t in shadow && SourcesIn(g, shadow, t))
  }

  lemma UptoNext(g: Graph, a: Shadow, b: Shadow, i0: nat, k: nat)
    requires Upto(g, a, i0, k) && a.Keys + {k} <= b.Keys && SourcesIn(g, b, k) && forall t :: t in b ==> t <= k
    ensures Upto(g, b, i0, k + 1)
  {
    forall t | i0 <= t < k + 1 ensures t in b && SourcesIn(g, b, t) {
      if t < k {
        assert t in a.Keys && SourcesIn(g, a, t);
        forall i | 0 <= i < |g.tensors[t].src| ensures g.tensors[t].src[i] in b {
          assert g.tensors[t].src[i] in a.Keys;
        }
      }
    }
  }
}
