/** How long the pool's buffers get: what a graph's CPU runs ask of the pool, and why
    asking again changes nothing. */
module PoolUse {
  import opened Options
  import opened Graphs
  import opened SplitGraph

  /** While a run's shadow is built: the tensors that have a place in it, the lengths of
      the pool's buffers, and how many are handed out. */
  datatype Use = Use(keys: set<TensorId>, lens: seq<nat>, used: nat) {
    predicate Valid() {
      used <= |lens|
    }
  }

  /** The next buffer, grown if it is too short. */
  function Claim(u: Use, n: nat): (r: Use)
    requires u.Valid()
    ensures r.Valid()
  {
    var lens :=
      if u.used == |u.lens| then u.lens + [n]
      else if u.lens[u.used] < n then u.lens[u.used := n]
      else u.lens;
    Use(u.keys, lens, u.used + 1)
  }

  /** A host pointer for `t`: a buffer, unless it has one or lives where the host can
      read it. */
  function UseInput(g: Graph, u: Use, t: TensorId): (r: Use)
    requires u.Valid() && t < |g.tensors|
    ensures r.Valid()
  {
    var x := g.tensors[t];
    if t in u.keys then u
    else if x.buffer.Device? then Claim(u, x.nbytes).(keys := u.keys + {t})
    else u.(keys := u.keys + {t})
  }

  function UseInputs(g: Graph, u: Use, ts: seq<TensorId>): (r: Use)
    requires u.Valid() && forall i :: 0 <= i < |ts| ==> ts[i] < |g.tensors|
    ensures r.Valid()
  {
    if |ts| == 0 then u else UseInput(g, UseInputs(g, u, ts[..|ts| - 1]), ts[|ts| - 1])
  }

  predicate SourcesExist(g: Graph, k: TensorId) {
    k < |g.tensors| && forall i :: 0 <= i < |g.tensors[k].src| ==> g.tensors[k].src[i] < |g.tensors|
  }

  /** A node's sources, then what it writes through or a buffer of its own. */
  function UseNode(g: Graph, u: Use, k: TensorId): (r: Use)
    requires u.Valid() && g.Valid() && k < |g.tensors|
    ensures r.Valid()
  {
    SourcesInBounds(g, k);
    assert g.ValidTensor(k);
    var x := g.tensors[k];
    var v := UseInputs(g, u, x.src);
    var w := if x.viewSrc.Some? then UseInput(g, v, x.viewSrc.value) else Claim(v, x.nbytes);
    w.(keys := w.keys + {k})
  }

  /** The nodes `i0` to `k` of a run, on buffers of the given lengths. */
  function UseRun(g: Graph, i0: nat, k: nat, lens: seq<nat>): (r: Use)
    requires g.Valid() && i0 <= k <= |g.tensors|
    ensures r.Valid()
    decreases k
  {
    if k == i0 then Use({}, lens, 0) else UseNode(g, UseRun(g, i0, k - 1, lens), k - 1)
  }

  lemma RunUseStarts(g: Graph, i0: nat, lens: seq<nat>)
    requires g.Valid() && i0 <= |g.tensors|
    ensures UseRun(g, i0, i0, lens) == Use({}, lens, 0)
  {
  }

  lemma RunUseNext(g: Graph, i0: nat, k: nat, lens: seq<nat>)
    requires g.Valid() && i0 <= k < |g.tensors|
    ensures UseRun(g, i0, k + 1, lens) == UseNode(g, UseRun(g, i0, k, lens), k)
  {
    hide UseNode;
  }

  /** The lengths after the CPU runs from node `i` on. */
  function GraphLens(g: Graph, where: seq<Where>, lens: seq<nat>, i: nat): (r: seq<nat>)
    requires g.Valid() && Labelled(g, where) && i <= |where|
    decreases |where| - i
  {
    if i == |where| then lens
    else GraphLens(g, where, RunLens(g, where, lens, i), RunEnd(where, i))
  }

  function RunLens(g: Graph, where: seq<Where>, lens: seq<nat>, i: nat): (r: seq<nat>)
    requires g.Valid() && Labelled(g, where) && i < |where|
  {
    if where[i].Cpu? then UseRun(g, g.leafs + i, g.leafs + RunEnd(where, i), lens).lens else lens
  }

  // ---------- buffers only grow ----------

  /** At least as many buffers, each at least as long. */
  predicate AtLeast(big: seq<nat>, small: seq<nat>) {
    |small| <= |big| && forall s :: 0 <= s < |small| ==> small[s] <= big[s]
  }

  lemma AtLeastTransitive(a: seq<nat>, b: seq<nat>, c: seq<nat>)
    requires AtLeast(a, b) && AtLeast(b, c)
    ensures AtLeast(a, c)
  {
  }

  lemma ClaimGrows(u: Use, n: nat)
    requires u.Valid()
    ensures AtLeast(Claim(u, n).lens, u.lens)
  {
  }

  lemma {:induction false} InputsGrow(g: Graph, u: Use, ts: seq<TensorId>)
    requires u.Valid() && forall i :: 0 <= i < |ts| ==> ts[i] < |g.tensors|
    ensures AtLeast(UseInputs(g, u, ts).lens, u.lens)
    decreases |ts|
  {
    hide Claim;
    if |ts| > 0 {
      var v := UseInputs(g, u, ts[..|ts| - 1]);
      InputsGrow(g, u, ts[..|ts| - 1]);
      ClaimGrows(v, g.tensors[ts[|ts| - 1]].nbytes);
    }
  }

  lemma NodeGrows(g: Graph, u: Use, k: TensorId)
    requires u.Valid() && g.Valid() && k < |g.tensors|
    ensures AtLeast(UseNode(g, u, k).lens, u.lens)
  {
    hide Claim, UseInputs;
    SourcesInBounds(g, k);
    assert g.ValidTensor(k);
    var x := g.tensors[k];
    InputsGrow(g, u, x.src);
    var v := UseInputs(g, u, x.src);
    ClaimGrows(v, x.nbytes);
    if x.viewSrc.Some? {
      ClaimGrows(v, g.tensors[x.viewSrc.value].nbytes);
    }
  }

  lemma {:induction false} RunGrows(g: Graph, i0: nat, k: nat, lens: seq<nat>)
    requires g.Valid() && i0 <= k <= |g.tensors|
    ensures AtLeast(UseRun(g, i0, k, lens).lens, lens)
    decreases k
  {
    hide UseNode, AtLeast;
    if k == i0 {
      AtLeastItself(lens);
    } else {
      RunGrows(g, i0, k - 1, lens);
      NodeGrows(g, UseRun(g, i0, k - 1, lens), k - 1);
      AtLeastTransitive(UseRun(g, i0, k, lens).lens, UseRun(g, i0, k - 1, lens).lens, lens);
    }
  }

  lemma AtLeastItself(lens: seq<nat>)
    ensures AtLeast(lens, lens)
  {
  }

  lemma {:induction false} GraphGrows(g: Graph, where: seq<Where>, lens: seq<nat>, i: nat)
    requires g.Valid() && Labelled(g, where) && i <= |where|
    ensures AtLeast(GraphLens(g, where, lens, i), lens)
    decreases |where| - i
  {
    hide UseRun, AtLeast;
    AtLeastItself(lens);
    if i < |where| {
      RunGrows(g, g.leafs + i, g.leafs + RunEnd(where, i), lens);
      GraphGrows(g, where, RunLens(g, where, lens, i), RunEnd(where, i));
      AtLeastTransitive(GraphLens(g, where, lens, i), RunLens(g, where, lens, i), lens);
    }
  }

  // ---------- on buffers that are long enough nothing grows ----------

  lemma ClaimStable(u: Use, n: nat, big: seq<nat>)
    requires u.Valid() && AtLeast(big, Claim(u, n).lens)
    ensures AtLeast(big, u.lens) && Claim(u.(lens := big), n) == Claim(u, n).(lens := big)
  {
    ClaimGrows(u, n);
    assert Claim(u, n).lens[u.used] >= n;
  }

  lemma InputStable(g: Graph, u: Use, t: TensorId, big: seq<nat>)
    requires u.Valid() && t < |g.tensors| && AtLeast(big, UseInput(g, u, t).lens)
    ensures AtLeast(big, u.lens) && UseInput(g, u.(lens := big), t) == UseInput(g, u, t).(lens := big)
  {
    hide Claim, AtLeast;
    if t !in u.keys && g.tensors[t].buffer.Device? {
      ClaimStable(u, g.tensors[t].nbytes, big);
    }
    assert u.(lens := big).Valid() by {
      AtLeastLength(big, u.lens);
    }
  }

  lemma AtLeastLength(big: seq<nat>, small: seq<nat>)
    requires AtLeast(big, small)
    ensures |small| <= |big|
  {
  }

  lemma {:induction false} InputsStable(g: Graph, u: Use, ts: seq<TensorId>, big: seq<nat>)
    requires u.Valid() && (forall i :: 0 <= i < |ts| ==> ts[i] < |g.tensors|)
    requires AtLeast(big, UseInputs(g, u, ts).lens)
    ensures AtLeast(big, u.lens) && UseInputs(g, u.(lens := big), ts) == UseInputs(g, u, ts).(lens := big)
    decreases |ts|
  {
    hide UseInput, AtLeast;
    if |ts| > 0 {
      var n := |ts| - 1;
      InputStable(g, UseInputs(g, u, ts[..n]), ts[n], big);
      InputsStable(g, u, ts[..n], big);
    }
    AtLeastLength(big, u.lens);
  }

  lemma {:induction false} NodeStable(g: Graph, u: Use, k: TensorId, big: seq<nat>)
    requires u.Valid() && g.Valid() && k < |g.tensors| && AtLeast(big, UseNode(g, u, k).lens)
    ensures AtLeast(big, u.lens) && UseNode(g, u.(lens := big), k) == UseNode(g, u, k).(lens := big)
  {
    hide Claim, UseInput, UseInputs, AtLeast;
    SourcesInBounds(g, k);
    assert g.ValidTensor(k);
    var x := g.tensors[k];
    var v := UseInputs(g, u, x.src);
    if x.viewSrc.Some? {
      InputStable(g, v, x.viewSrc.value, big);
    } else {
      ClaimStable(v, x.nbytes, big);
    }
    InputsStable(g, u, x.src, big);
    AtLeastLength(big, u.lens);
  }

  lemma {:induction false} RunStable(g: Graph, i0: nat, k: nat, lens: seq<nat>, big: seq<nat>)
    requires g.Valid() && i0 <= k <= |g.tensors| && AtLeast(big, UseRun(g, i0, k, lens).lens)
    ensures UseRun(g, i0, k, big) == UseRun(g, i0, k, lens).(lens := big)
    decreases k
  {
    hide UseNode, AtLeast;
    if k > i0 {
      NodeStable(g, UseRun(g, i0, k - 1, lens), k - 1, big);
      RunStable(g, i0, k - 1, lens, big);
    }
  }

  lemma {:induction false} GraphStable(g: Graph, where: seq<Where>, lens: seq<nat>, i: nat, big: seq<nat>)
    requires g.Valid() && Labelled(g, where) && i <= |where| && AtLeast(big, GraphLens(g, where, lens, i))
    ensures GraphLens(g, where, big, i) == big
    decreases |where| - i
  {
    hide UseRun, AtLeast;
    if i < |where| {
      var next := RunLens(g, where, lens, i);
      GraphGrows(g, where, next, RunEnd(where, i));
      AtLeastTransitive(big, GraphLens(g, where, lens, i), next);
      if where[i].Cpu? {
        RunStable(g, g.leafs + i, g.leafs + RunEnd(where, i), lens, big);
      }
      GraphStable(g, where, next, RunEnd(where, i), big);
    }
  }

  /** A steady state allocates nothing: a graph run again with the same labels leaves every
      buffer as long as it was. */
  lemma {:induction false} RunAgain(g: Graph, where: seq<Where>, lens: seq<nat>)
    requires g.Valid() && Labelled(g, where)
    ensures var once := GraphLens(g, where, lens, 0);
            GraphLens(g, where, once, 0) == once
  {
    var once := GraphLens(g, where, lens, 0);
    AtLeastItself(once);
    GraphStable(g, where, lens, 0, once);
  }
}
