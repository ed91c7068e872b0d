/** The compile cache of the naive path as a state machine: two lookup levels, the
    fingerprint each decoder is bound to, and a flush. Entries are named by `Id`. */
module NaiveCache {
  import opened Options
  import opened GraphKeys

  const LIMIT := 32

  /** The graphs calls come with, what compiling one yields, the two operations a
      single node of which needs no computing, and whether caching is on. */
  datatype World<P> = World(graphs: set<Graph>, compile: Graph -> P, none: Word, view: Word, enabled: bool)

  datatype Compiled<P> = Compiled(program: P, bound: Binding)

  /** An entry is created empty and filled when its compilation succeeds. */
  datatype State<Id, P> = State(cache: map<Key, Id>, fp: map<Word, Id>, io: map<Id, Word>,
                                entries: map<Id, Option<Compiled<P>>>)

  datatype Outcome<P> = Skipped | Failed | Ran(program: P, bound: Binding)

  /** A call with a graph: whether compiling would succeed, should it come to that, and
      the entry to be allocated, should one be. `Release` drops everything. */
  datatype Call<Id> = Compute(graph: Graph, compiles: bool, slot: Id) | Release

  function Empty<Id, P>(): State<Id, P> {
    State(map[], map[], map[], map[])
  }

  // ---------- one call ----------

  predicate Skips<P>(w: World<P>, g: Graph) {
    |g.nodes| == 1 && (g.nodes[0].tensor.op == w.none || g.nodes[0].tensor.op == w.view)
  }

  /** Makes room for one more entry: a full cache is flushed. */
  function Room<Id, P>(s: State<Id, P>): State<Id, P> {
    if |s.cache| >= LIMIT then Empty() else s
  }

  /** A new, empty entry under its key and fingerprint. */
  function Insert<Id, P>(s: State<Id, P>, k: Key, f: Word, slot: Id): State<Id, P> {
    State(s.cache[k := slot], s.fp[f := slot], s.io, s.entries[slot := None])
  }

  datatype Found<Id, P> = Found(state: State<Id, P>, entry: Id)

  /** The entry for a graph: by fingerprint, else by key, else a new one. */
  function Find<Id, P>(s: State<Id, P>, g: Graph, slot: Id): Found<Id, P>
    requires ValidGraph(g)
  {
    var f := Fp(g);
    if f in s.fp then Found(s, s.fp[f])
    else
      var k := KeyOf(g);
      if k in s.cache then Found(s.(fp := s.fp[f := s.cache[k]]), s.cache[k])
      else Found(Insert(Room(s), k, f, slot), slot)
  }

  /** The fingerprint an entry's decoder is recorded to be bound to; looking one up
      that is not there finds zero. */
  function Recorded<Id, P>(s: State<Id, P>, e: Id): Word {
    if e in s.io then s.io[e] else 0
  }

  datatype Effect<Id, P> = Effect(state: State<Id, P>, outcome: Outcome<P>)

  /** The entry's decoder bound to the graph, unless it is recorded to be. */
  function Rebind<Id, P>(s: State<Id, P>, e: Id, g: Graph): State<Id, P>
    requires ValidGraph(g) && e in s.entries && s.entries[e].Some?
  {
    if Recorded(s, e) == Fp(g) then s.(io := s.io[e := Recorded(s, e)])
    else s.(io := s.io[e := Fp(g)], entries := s.entries[e := Some(s.entries[e].value.(bound := BindingOf(g)))])
  }

  /** The entry filled with what its graph compiles to. */
  function Fill<Id, P>(s: State<Id, P>, e: Id, g: Graph, p: P): State<Id, P>
    requires ValidGraph(g)
  {
    s.(io := s.io[e := Fp(g)], entries := s.entries[e := Some(Compiled(p, BindingOf(g)))])
  }

  /** Runs a graph on its entry. */
  function Use<Id, P>(w: World<P>, s: State<Id, P>, e: Id, g: Graph, compiles: bool): Effect<Id, P>
    requires ValidGraph(g) && e in s.entries
  {
    if s.entries[e].Some? then
      var s1 := Rebind(s, e, g);
      Effect(s1, Ran(s1.entries[e].value.program, s1.entries[e].value.bound))
    else if compiles then Effect(Fill(s, e, g, w.compile(g)), Ran(w.compile(g), BindingOf(g)))
    else Effect(s, Failed)
  }

  /** One call. */
  function Step<Id, P>(w: World<P>, s: State<Id, P>, g: Graph, compiles: bool, slot: Id): Effect<Id, P>
    requires ValidGraph(g) && Shaped(s)
  {
    if Skips(w, g) then Effect(s, Skipped)
    else if !w.enabled then Effect(s, if compiles then Ran(w.compile(g), BindingOf(g)) else Failed)
    else
      var r := Find(s, g, slot);
      FoundIsEntry(s, g, slot);
      Use(w, r.state, r.entry, g, compiles)
  }

  // ---------- what every call keeps, whatever the graphs ----------

  ghost predicate Cached<Id, P>(s: State<Id, P>, e: Id) {
    exists k :: k in s.cache && s.cache[k] == e
  }

  ghost predicate AllCached<Id, P>(s: State<Id, P>) {
    forall e | e in s.entries :: Cached(s, e)
  }

  ghost predicate KeysApart<Id>(cache: map<Key, Id>) {
    forall j, k | j in cache && k in cache && cache[j] == cache[k] :: j == k
  }

  /** The cache is bounded; keys have entries of their own; fingerprints lead into the
      cache; a filled entry's binding is recorded. */
  ghost predicate Shaped<Id, P>(s: State<Id, P>) {
    && |s.cache| <= LIMIT
    && KeysApart(s.cache)
    && AllCached(s)
    && (forall k | k in s.cache :: s.cache[k] in s.entries)
    && (forall f | f in s.fp :: s.fp[f] in s.entries)
    && (forall e | e in s.io :: e in s.entries)
    && (forall e | e in s.entries && s.entries[e].Some? :: e in s.io)
  }

  /** A new entry, should one be made, does not take the place of one still there. */
  predicate Fresh<Id(==), P>(s: State<Id, P>, g: Graph, slot: Id)
    requires ValidGraph(g)
  {
    Fp(g) in s.fp || KeyOf(g) in s.cache || slot !in Room(s).entries
  }

  lemma {:induction false} FoundIsEntry<Id, P>(s: State<Id, P>, g: Graph, slot: Id)
    requires ValidGraph(g) && Shaped(s)
    ensures var r := Find(s, g, slot); r.entry in r.state.entries
  {
    hide Fp, KeyOf;
  }

  lemma {:induction false} EmptyShaped<Id, P>()
    ensures Shaped(Empty<Id, P>())
  {
  }

  lemma {:induction false} InsertShaped<Id, P>(s: State<Id, P>, k: Key, f: Word, slot: Id)
    requires Shaped(s) && |s.cache| < LIMIT && k !in s.cache && slot !in s.entries
    ensures Shaped(Insert(s, k, f, slot))
  {
    InsertCached(s, k, f, slot);
    InsertApart(s.cache, k, slot);
    hide AllCached, KeysApart;
  }

  lemma InsertCached<Id, P>(s: State<Id, P>, k: Key, f: Word, slot: Id)
    requires AllCached(s) && k !in s.cache
    ensures AllCached(Insert(s, k, f, slot))
  {
    var r := Insert(s, k, f, slot);
    assert r.cache[k] == slot;
    forall e | e in r.entries ensures Cached(r, e) {
      if e != slot {
        assert Cached(s, e);
        var j :| j in s.cache && s.cache[j] == e;
        assert j in r.cache && r.cache[j] == e;
      }
    }
  }

  lemma InsertApart<Id>(cache: map<Key, Id>, k: Key, slot: Id)
    requires KeysApart(cache) && forall j | j in cache :: cache[j] != slot
    ensures KeysApart(cache[k := slot])
  {
  }

  /** Where entries are cached depends on the cache and on which entries there are. */
  lemma SameCached<Id, P>(s: State<Id, P>, r: State<Id, P>)
    requires AllCached(s) && r.cache == s.cache && r.entries.Keys == s.entries.Keys
    ensures AllCached(r)
  {
    forall e | e in r.entries ensures Cached(r, e) {
      assert Cached(s, e);
    }
  }

  lemma {:induction false} AliasShaped<Id, P>(s: State<Id, P>, f: Word, e: Id)
    requires Shaped(s) && e in s.entries
    ensures Shaped(s.(fp := s.fp[f := e]))
  {
    hide KeysApart, AllCached;
    SameCached(s, s.(fp := s.fp[f := e]));
  }

  lemma {:induction false} KeyedEntry<Id, P>(s: State<Id, P>, k: Key)
    requires Shaped(s) && k in s.cache
    ensures s.cache[k] in s.entries
  {
  }

  lemma {:induction false} FindShaped<Id, P>(s: State<Id, P>, g: Graph, slot: Id)
    requires ValidGraph(g) && Shaped(s) && Fresh(s, g, slot)
    ensures Shaped(Find(s, g, slot).state)
  {
    hide Fp, KeyOf, Shaped, Insert;
    var f, k := Fp(g), KeyOf(g);
    if f !in s.fp {
      if k in s.cache {
        KeyedEntry(s, k);
        AliasShaped(s, f, s.cache[k]);
      } else {
        EmptyShaped<Id, P>();
        InsertShaped(Room(s), k, f, slot);
      }
    }
  }

  lemma {:induction false} WriteShaped<Id, P>(s: State<Id, P>, e: Id, f: Word, c: Option<Compiled<P>>)
    requires Shaped(s) && e in s.entries
    ensures Shaped(s.(io := s.io[e := f], entries := s.entries[e := c]))
  {
    hide KeysApart, AllCached;
    SameCached(s, s.(io := s.io[e := f], entries := s.entries[e := c]));
  }

  lemma {:induction false} RecordShaped<Id, P>(s: State<Id, P>, e: Id, f: Word)
    requires Shaped(s) && e in s.entries
    ensures Shaped(s.(io := s.io[e := f]))
  {
    hide KeysApart, AllCached;
    SameCached(s, s.(io := s.io[e := f]));
  }

  lemma {:induction false} UseShaped<Id, P>(w: World<P>, s: State<Id, P>, e: Id, g: Graph, compiles: bool)
    requires ValidGraph(g) && Shaped(s) && e in s.entries
    ensures Shaped(Use(w, s, e, g, compiles).state)
  {
    hide Fp, Shaped;
    if s.entries[e].Some? {
      RecordShaped(s, e, Recorded(s, e));
      WriteShaped(s, e, Fp(g), Some(s.entries[e].value.(bound := BindingOf(g))));
    } else if compiles {
      WriteShaped(s, e, Fp(g), Some(Compiled(w.compile(g), BindingOf(g))));
    }
  }

  /** Every call keeps the cache's shape, whatever the graphs. */
  lemma {:induction false} StepShaped<Id, P>(w: World<P>, s: State<Id, P>, g: Graph, compiles: bool, slot: Id)
    requires ValidGraph(g) && Shaped(s) && Fresh(s, g, slot)
    ensures Shaped(Step(w, s, g, compiles, slot).state)
  {
    hide Fp, KeyOf, Find, Use, Shaped;
    if !Skips(w, g) && w.enabled {
      var r := Find(s, g, slot);
      FoundIsEntry(s, g, slot);
      FindShaped(s, g, slot);
      UseShaped(w, r.state, r.entry, g, compiles);
    }
  }

  // ---------- what every call keeps, when keys tell graphs apart ----------

  /** A graph calls come with that is really run. */
  predicate Runs<P>(w: World<P>, g: Graph): (r: bool)
    ensures r ==> g in w.graphs && ValidGraph(g)
  {
    g in w.graphs && ValidGraph(g) && !Skips(w, g)
  }

  /** Graphs that share a key compile alike; graphs that share a fingerprint also sit
      in the same tensors and buffers. */
  ghost predicate Coherent<P>(w: World<P>) {
    forall a, b | Runs(w, a) && Runs(w, b) :: Agree(w, a, b)
  }

  predicate Agree<P(==)>(w: World<P>, a: Graph, b: Graph)
    requires ValidGraph(a) && ValidGraph(b)
  {
    && (KeyOf(a) == KeyOf(b) ==> w.compile(a) == w.compile(b))
    && (Fp(a) == Fp(b) ==> w.compile(a) == w.compile(b) && BindingOf(a) == BindingOf(b))
  }

  lemma Agreeing<P>(w: World<P>, a: Graph, b: Graph)
    requires Coherent(w) && Runs(w, a) && Runs(w, b)
    ensures KeyOf(a) == KeyOf(b) || Fp(a) == Fp(b) ==> w.compile(a) == w.compile(b)
    ensures Fp(a) == Fp(b) ==> BindingOf(a) == BindingOf(b)
  {
    hide Fp, KeyOf, BindingOf, Runs, ValidGraph;
    assert Agree(w, a, b);
  }

  /** The graph's key leads to entry `e`. */
  ghost predicate Owns<Id, P>(s: State<Id, P>, g: Graph, e: Id)
    requires ValidGraph(g)
  {
    KeyOf(g) in s.cache && s.cache[KeyOf(g)] == e
  }

  /** A filled entry holds what every graph with its key compiles to. */
  ghost predicate Programs<Id, P>(w: World<P>, s: State<Id, P>)
    requires Shaped(s)
  {
    forall g | Runs(w, g) && KeyOf(g) in s.cache && s.entries[s.cache[KeyOf(g)]].Some? ::
      s.entries[s.cache[KeyOf(g)]].value.program == w.compile(g)
  }

  /** A fingerprint leads where the key of some graph with that fingerprint leads. */
  ghost predicate Origins<Id, P>(w: World<P>, s: State<Id, P>) {
    forall f | f in s.fp :: exists g :: Runs(w, g) && Fp(g) == f && Owns(s, g, s.fp[f])
  }

  /** A filled entry's decoder is bound to the graph whose fingerprint is recorded. */
  ghost predicate Bindings<Id, P>(w: World<P>, s: State<Id, P>)
    requires Shaped(s)
  {
    forall e, g | e in s.entries && s.entries[e].Some? && Runs(w, g) && Fp(g) == s.io[e] ::
      s.entries[e].value.bound == BindingOf(g)
  }

  ghost predicate Faithful<Id, P>(w: World<P>, s: State<Id, P>) {
    Shaped(s) && Programs(w, s) && Origins(w, s) && Bindings(w, s)
  }

  /** What a run of a fresh compilation answers. */
  function FreshRun<P>(w: World<P>, g: Graph): Outcome<P> {
    if Skips(w, g) then Skipped else Ran(w.compile(g), BindingOf(g))
  }

  /** The answer of a fresh compilation, or the failure of one that fails. */
  predicate Right<P(==)>(w: World<P>, g: Graph, compiles: bool, o: Outcome<P>) {
    o == FreshRun(w, g) || (o == Failed && !compiles)
  }

  /** The entry serves the graph: some graph that compiles alike owns it. */
  ghost predicate Serves<Id, P>(w: World<P>, s: State<Id, P>, g: Graph, e: Id) {
    exists h :: Runs(w, h) && Owns(s, h, e) && w.compile(h) == w.compile(g)
  }

  lemma {:induction false} EmptyFaithful<Id, P>(w: World<P>)
    ensures Faithful(w, Empty<Id, P>())
  {
  }

  lemma {:induction false} InsertFaithful<Id, P>(w: World<P>, s: State<Id, P>, g: Graph, slot: Id)
    requires Faithful(w, s) && Runs(w, g) && |s.cache| < LIMIT && slot !in s.entries
    requires Fp(g) !in s.fp && KeyOf(g) !in s.cache
    ensures Faithful(w, Insert(s, KeyOf(g), Fp(g), slot)) && Serves(w, Insert(s, KeyOf(g), Fp(g), slot), g, slot)
  {
    hide Fp, KeyOf;
    var k, f := KeyOf(g), Fp(g);
    var r := Insert(s, k, f, slot);
    InsertShaped(s, k, f, slot);
    hide Shaped;
    assert Owns(r, g, slot);
    forall x | x in r.fp ensures exists h :: Runs(w, h) && Fp(h) == x && Owns(r, h, r.fp[x]) {
      if x != f {
        var h :| Runs(w, h) && Fp(h) == x && Owns(s, h, s.fp[x]);
        assert Owns(r, h, r.fp[x]);
      }
    }
    InsertPrograms(w, s, g, slot);
    InsertBindings(w, s, g, slot);
  }

  lemma {:induction false} InsertPrograms<Id, P>(w: World<P>, s: State<Id, P>, g: Graph, slot: Id)
    requires Faithful(w, s) && Runs(w, g) && slot !in s.entries && KeyOf(g) !in s.cache
    requires Shaped(Insert(s, KeyOf(g), Fp(g), slot))
    ensures Programs(w, Insert(s, KeyOf(g), Fp(g), slot))
  {
    hide Fp, KeyOf;
  }

  lemma {:induction false} InsertBindings<Id, P>(w: World<P>, s: State<Id, P>, g: Graph, slot: Id)
    requires Faithful(w, s) && Runs(w, g) && slot !in s.entries && KeyOf(g) !in s.cache
    requires Shaped(Insert(s, KeyOf(g), Fp(g), slot))
    ensures Bindings(w, Insert(s, KeyOf(g), Fp(g), slot))
  {
    hide Fp, KeyOf;
  }

  lemma {:induction false} AliasFaithful<Id, P>(w: World<P>, s: State<Id, P>, g: Graph)
    requires Faithful(w, s) && Runs(w, g) && KeyOf(g) in s.cache
    ensures var e := s.cache[KeyOf(g)];
            var r := s.(fp := s.fp[Fp(g) := e]);
            Faithful(w, r) && Serves(w, r, g, e)
  {
    hide Fp, KeyOf;
    var e := s.cache[KeyOf(g)];
    var r := s.(fp := s.fp[Fp(g) := e]);
    AliasShaped(s, Fp(g), e);
    hide Runs, ValidGraph, KeysApart, AllCached;
    assert Owns(r, g, e);
    forall x | x in r.fp ensures exists h :: Runs(w, h) && Fp(h) == x && Owns(r, h, r.fp[x]) {
      if x != Fp(g) {
        var h :| Runs(w, h) && Fp(h) == x && Owns(s, h, s.fp[x]);
        assert Owns(r, h, r.fp[x]);
      }
    }
  }

  lemma {:induction false} FindFaithful<Id, P>(w: World<P>, s: State<Id, P>, g: Graph, slot: Id)
    requires Coherent(w) && Faithful(w, s) && Runs(w, g) && Fresh(s, g, slot)
    ensures var r := Find(s, g, slot); Faithful(w, r.state) && Serves(w, r.state, g, r.entry)
  {
    hide Fp, KeyOf, Insert, Shaped, Programs, Bindings, Coherent, BindingOf;
    var f, k := Fp(g), KeyOf(g);
    if f in s.fp {
      var h :| Runs(w, h) && Fp(h) == f && Owns(s, h, s.fp[f]);
      Agreeing(w, h, g);
    } else if k in s.cache {
      AliasFaithful(w, s, g);
    } else {
      EmptyFaithful<Id, P>(w);
      InsertFaithful(w, Room(s), g, slot);
    }
  }

  /** Binding an entry that serves the graph. */
  lemma {:induction false} RebindFaithful<Id, P>(w: World<P>, s: State<Id, P>, e: Id, g: Graph)
    requires Coherent(w) && Faithful(w, s) && Runs(w, g) && e in s.entries && s.entries[e].Some? && Serves(w, s, g, e)
    ensures var r := Rebind(s, e, g);
            Faithful(w, r) && r.entries[e].value == Compiled(w.compile(g), BindingOf(g))
  {
    hide Fp, KeyOf;
    var h :| Runs(w, h) && Owns(s, h, e) && w.compile(h) == w.compile(g);
    assert s.entries[e].value.program == w.compile(g);
    if Recorded(s, e) == Fp(g) {
      assert s.io[e := Recorded(s, e)] == s.io;
    } else {
      WriteFaithful(w, s, e, g);
    }
  }

  /** What a graph compiles to written to an entry that serves it. */
  lemma {:induction false} WriteFaithful<Id, P>(w: World<P>, s: State<Id, P>, e: Id, g: Graph)
    requires Coherent(w) && Faithful(w, s) && Runs(w, g) && e in s.entries && Serves(w, s, g, e)
    ensures Faithful(w, Fill(s, e, g, w.compile(g)))
  {
    hide Fp, KeyOf;
    var r := Fill(s, e, g, w.compile(g));
    WriteShaped(s, e, Fp(g), Some(Compiled(w.compile(g), BindingOf(g))));
    WritePrograms(w, s, e, g);
    WriteBindings(w, s, e, g);
    hide Shaped;
    forall x | x in r.fp ensures exists h :: Runs(w, h) && Fp(h) == x && Owns(r, h, r.fp[x]) {
      var h :| Runs(w, h) && Fp(h) == x && Owns(s, h, s.fp[x]);
      assert Owns(r, h, r.fp[x]);
    }
  }

  lemma {:induction false} WritePrograms<Id, P>(w: World<P>, s: State<Id, P>, e: Id, g: Graph)
    requires Coherent(w) && Faithful(w, s) && Runs(w, g) && e in s.entries && Serves(w, s, g, e)
    requires Shaped(Fill(s, e, g, w.compile(g)))
    ensures Programs(w, Fill(s, e, g, w.compile(g)))
  {
    hide Fp, KeyOf, Coherent, BindingOf, Runs, ValidGraph, Bindings, Origins, AllCached;
    forall x | Runs(w, x) && KeyOf(x) in s.cache && s.cache[KeyOf(x)] == e ensures w.compile(x) == w.compile(g) {
      OwnersAlike(w, s, e, g, x);
    }
  }

  /** Graphs whose keys lead to the entry compile as the one it serves. */
  lemma {:induction false} OwnersAlike<Id, P>(w: World<P>, s: State<Id, P>, e: Id, g: Graph, x: Graph)
    requires Coherent(w) && KeysApart(s.cache) && Serves(w, s, g, e)
    requires Runs(w, x) && Owns(s, x, e)
    ensures w.compile(x) == w.compile(g)
  {
    hide Fp, KeyOf, Coherent, BindingOf, Runs, ValidGraph;
    var h :| Runs(w, h) && Owns(s, h, e) && w.compile(h) == w.compile(g);
    assert KeyOf(x) == KeyOf(h);
    Agreeing(w, x, h);
  }

  lemma {:induction false} WriteBindings<Id, P>(w: World<P>, s: State<Id, P>, e: Id, g: Graph)
    requires Coherent(w) && Faithful(w, s) && Runs(w, g) && e in s.entries
    requires Shaped(Fill(s, e, g, w.compile(g)))
    ensures Bindings(w, Fill(s, e, g, w.compile(g)))
  {
    hide Fp, KeyOf, Coherent, BindingOf, Runs, ValidGraph, KeysApart, AllCached, Programs, Origins;
    forall x | Runs(w, x) && Fp(x) == Fp(g) ensures BindingOf(x) == BindingOf(g) {
      Agreeing(w, x, g);
    }
  }

  lemma {:induction false} UseFaithful<Id, P>(w: World<P>, s: State<Id, P>, e: Id, g: Graph, compiles: bool)
    requires Coherent(w) && Faithful(w, s) && Runs(w, g) && e in s.entries && Serves(w, s, g, e)
    ensures var r := Use(w, s, e, g, compiles); Faithful(w, r.state) && Right(w, g, compiles, r.outcome)
  {
    hide Fp, KeyOf, Faithful, Serves, Rebind, Fill, Coherent;
    if s.entries[e].Some? {
      RebindFaithful(w, s, e, g);
    } else if compiles {
      WriteFaithful(w, s, e, g);
    }
  }

  /** One call on a faithful cache answers as a fresh compilation and leaves the cache
      faithful. */
  lemma {:induction false} StepFaithful<Id, P>(w: World<P>, s: State<Id, P>, g: Graph, compiles: bool, slot: Id)
    requires Coherent(w) && Faithful(w, s) && g in w.graphs && ValidGraph(g) && Fresh(s, g, slot)
    ensures var r := Step(w, s, g, compiles, slot); Faithful(w, r.state) && Right(w, g, compiles, r.outcome)
  {
    hide Fp, KeyOf, Find, Use, Programs, Bindings, Origins, Serves, Coherent;
    if !Skips(w, g) && w.enabled {
      var r := Find(s, g, slot);
      FoundIsEntry(s, g, slot);
      FindFaithful(w, s, g, slot);
      UseFaithful(w, r.state, r.entry, g, compiles);
    }
  }

  // ---------- runs ----------

  /** The calls are with known graphs and allocate no entry where one is. */
  ghost predicate Allowed<Id, P>(w: World<P>, s: State<Id, P>, calls: seq<Call<Id>>)
    requires Shaped(s)
    decreases |calls|
  {
    |calls| == 0 ||
    match calls[0]
    case Release => EmptyShaped<Id, P>(); Allowed(w, Empty(), calls[1..])
    case Compute(g, compiles, slot) =>
      && g in w.graphs && ValidGraph(g) && Fresh(s, g, slot)
      && (StepShaped(w, s, g, compiles, slot); Allowed(w, Step(w, s, g, compiles, slot).state, calls[1..]))
  }

  /** Every call of a run is answered as by a fresh compilation. */
  ghost predicate AllRight<Id, P>(w: World<P>, s: State<Id, P>, calls: seq<Call<Id>>)
    requires Shaped(s) && Allowed(w, s, calls)
    decreases |calls|
  {
    |calls| == 0 ||
    match calls[0]
    case Release => EmptyShaped<Id, P>(); AllRight(w, Empty(), calls[1..])
    case Compute(g, compiles, slot) =>
      var r := Step(w, s, g, compiles, slot);
      && Right(w, g, compiles, r.outcome)
      && (StepShaped(w, s, g, compiles, slot); AllRight(w, r.state, calls[1..]))
  }

  /** Any sequence of calls, failures, flushes and releases on a faithful cache. */
  lemma {:induction false} RunFaithful<Id, P>(w: World<P>, s: State<Id, P>, calls: seq<Call<Id>>)
    requires Coherent(w) && Faithful(w, s) && Allowed(w, s, calls)
    ensures AllRight(w, s, calls)
    decreases |calls|
  {
    hide Coherent, Programs, Origins, Bindings, Shaped, Step;
    if |calls| > 0 {
      match calls[0]
      case Release =>
        EmptyFaithful<Id, P>(w);
        RunFaithful(w, Empty(), calls[1..]);
      case Compute(g, compiles, slot) =>
        StepFaithful(w, s, g, compiles, slot);
        RunFaithful(w, Step(w, s, g, compiles, slot).state, calls[1..]);
    }
  }

  /** Two graphs the cache confuses: after the first, the second is answered with the
      first one's program or buffers. */
  lemma {:induction false} ConfusedPair<P>(w: World<P>, a: Graph, b: Graph)
    requires w.enabled && Runs(w, a) && Runs(w, b) && !Agree(w, a, b)
    ensures Shaped(Empty<nat, P>()) && Shaped(Step(w, Empty<nat, P>(), a, true, 0).state)
    ensures var s := Step(w, Empty<nat, P>(), a, true, 0).state;
            Fresh(Empty<nat, P>(), a, 0) && Fresh(s, b, 1) && !Right(w, b, true, Step(w, s, b, true, 1).outcome)
  {
    hide Fp, KeyOf, BindingOf, Shaped, ValidGraph;
    EmptyShaped<nat, P>();
    StepShaped(w, Empty<nat, P>(), a, true, 0);
    FirstCall(w, a);
  }

  /** The cache after one call. */
  function Holding<P>(w: World<P>, a: Graph): State<nat, P>
    requires ValidGraph(a)
  {
    State(map[KeyOf(a) := 0], map[Fp(a) := 0], map[0 := Fp(a)], map[0 := Some(Compiled(w.compile(a), BindingOf(a)))])
  }

  lemma {:induction false} FirstCall<P>(w: World<P>, a: Graph)
    requires w.enabled && Runs(w, a)
    ensures Shaped(Empty<nat, P>()) && Step(w, Empty<nat, P>(), a, true, 0).state == Holding(w, a)
  {
    hide Fp, KeyOf, BindingOf, ValidGraph;
  }

  /** Every run from the start answers every call as a fresh compilation would, through
      compile failures, flushes and releases, exactly when keys and fingerprints tell
      apart the graphs that compile differently. */
  lemma {:induction false} TransparentExactly<P>(w: World<P>)
    requires w.enabled
    ensures Shaped(Empty<nat, P>())
    ensures Coherent(w)
            <==> (forall calls: seq<Call<nat>> | Allowed(w, Empty(), calls) :: AllRight(w, Empty(), calls))
  {
    EmptyFaithful<nat, P>(w);
    hide Allowed, AllRight, Faithful, Shaped, Fp, KeyOf;
    var start := Empty<nat, P>();
    if Coherent(w) {
      forall calls: seq<Call<nat>> | Allowed(w, start, calls) ensures AllRight(w, start, calls) {
        RunFaithful(w, start, calls);
      }
    } else {
      var a, b :| Runs(w, a) && Runs(w, b) && !Agree(w, a, b);
      ConfusedRun(w, a, b);
    }
  }

  lemma {:induction false} ConfusedRun<P>(w: World<P>, a: Graph, b: Graph)
    requires w.enabled && Runs(w, a) && Runs(w, b) && !Agree(w, a, b)
    ensures Shaped(Empty<nat, P>())
    ensures exists calls: seq<Call<nat>> :: Allowed(w, Empty<nat, P>(), calls) && !AllRight(w, Empty<nat, P>(), calls)
  {
    hide *;
    ConfusedPair(w, a, b);
    var start := Empty<nat, P>();
    var s := Step(w, start, a, true, 0).state;
    StepShaped(w, s, b, true, 1);
    NoCalls(w, Step(w, s, b, true, 1).state);
    OneCall(w, s, b, 1, []);
    assert [Compute(b, true, 1)] + [] == [Compute(b, true, 1)];
    OneCall(w, start, a, 0, [Compute(b, true, 1)]);
  }

  lemma {:induction false} NoCalls<P>(w: World<P>, s: State<nat, P>)
    requires Shaped(s)
    ensures Allowed(w, s, [])
  {
  }

  /** A run that opens with a call that compiles. */
  lemma {:induction false} OneCall<P>(w: World<P>, s: State<nat, P>, g: Graph, slot: nat, rest: seq<Call<nat>>)
    requires Shaped(s) && g in w.graphs && ValidGraph(g) && Fresh(s, g, slot)
    requires Shaped(Step(w, s, g, true, slot).state) && Allowed(w, Step(w, s, g, true, slot).state, rest)
    ensures Allowed(w, s, [Compute(g, true, slot)] + rest)
    ensures AllRight(w, s, [Compute(g, true, slot)] + rest)
            <==> Right(w, g, true, Step(w, s, g, true, slot).outcome)
                 && AllRight(w, Step(w, s, g, true, slot).state, rest)
  {
    hide Step, Shaped, Right, Fresh, ValidGraph;
    var calls := [Compute(g, true, slot)] + rest;
    assert calls[0] == Compute(g, true, slot) && calls[1..] == rest;
  }

  // ---------- when keys tell graphs apart ----------

  /** The names a key holds. */
  predicate SameNames(a: Graph, b: Graph)
    requires ValidGraph(a) && ValidGraph(b)
  {
    KeyOf(a).(sig := 0) == KeyOf(b).(sig := 0)
  }

  /** Unless hashes collide, graphs with one key have the same operations, types and
      sizes, and graphs with one fingerprint also the same tensors and buffers. */
  lemma {:induction false} WhatHashesTell(graphs: set<Graph>, a: Graph, b: Graph)
    requires CollisionFree(graphs) && a in graphs && b in graphs && ValidGraph(a) && ValidGraph(b)
    ensures KeyOf(a) == KeyOf(b) <==> SameNames(a, b) && SigWords(a.nodes) == SigWords(b.nodes)
    ensures KeyOf(a) == KeyOf(b) ==> Shapes(a.nodes) == Shapes(b.nodes)
    ensures Fp(a) == Fp(b) ==> Shapes(a.nodes) == Shapes(b.nodes) && BindingOf(a) == BindingOf(b)
  {
    hide Fold, SigWords, FpWords, Shapes, BindingOf, ValidNodes;
    if Sig(a) == Sig(b) {
      SignatureWords(a.nodes, b.nodes);
    }
    if Fp(a) == Fp(b) {
      FingerprintWords(a, b);
    }
  }

  /** What the key mixes suffices: graphs alike in operations, types and sizes, and in
      either names or buffers, compile alike. */
  ghost predicate ShapesDecide<P>(w: World<P>) {
    forall a, b | Runs(w, a) && Runs(w, b) && Shapes(a.nodes) == Shapes(b.nodes) ::
      SameNames(a, b) || BindingOf(a) == BindingOf(b) ==> w.compile(a) == w.compile(b)
  }

  lemma {:induction false} ShapesSuffice<P>(w: World<P>)
    requires CollisionFree(w.graphs) && ShapesDecide(w)
    ensures Coherent(w)
  {
    hide Fp, KeyOf, Shapes, BindingOf, ValidGraph, CollisionFree, SameNames;
    forall a, b | Runs(w, a) && Runs(w, b) ensures Agree(w, a, b) {
      WhatHashesTell(w.graphs, a, b);
    }
  }

  /** What an operation's parameters decide, the cache confuses: after a graph, the same
      graph with other parameters is answered with the first one's program. */
  lemma {:induction false} ParamsConfused<P>(w: World<P>, g: Graph, i: nat, params: seq<int>)
    requires w.enabled && Runs(w, g) && i < |g.nodes| && Runs(w, WithParams(g, i, params))
    requires w.compile(WithParams(g, i, params)) != w.compile(g)
    ensures !Coherent(w)
    ensures Shaped(Empty<nat, P>()) && Shaped(Holding(w, g))
    ensures Step(w, Empty<nat, P>(), g, true, 0) == Effect(Holding(w, g), FreshRun(w, g))
    ensures Step(w, Holding(w, g), WithParams(g, i, params), true, 1).outcome == FreshRun(w, g)
  {
    hide Fp, KeyOf, BindingOf, ValidGraph, WithParams, Coherent;
    ParamsUnseen(g, i, params);
    FirstCall(w, g);
    StepShaped(w, Empty<nat, P>(), g, true, 0);
    if Coherent(w) {
      Agreeing(w, g, WithParams(g, i, params));
      assert false;
    }
  }
}
