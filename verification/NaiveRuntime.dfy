/** The naive path's cache as it is kept in the runtime context: three maps and the
    entries they share. */
module NaiveRuntime {
  import opened Options
  import opened GraphKeys
  import opened NaiveCache

  /** A decoder's binding and, once compiled, the program it runs. */
  class Entry<P> {
    var request: Option<P>
    var bound: Binding

    constructor ()
      ensures request == None
    {
      request := None;
      bound := Binding(0, []);
    }

    ghost function Value(): Option<Compiled<P>>
      reads this
    {
      if request.Some? then Some(Compiled(request.value, bound)) else None
    }
  }

  class RuntimeContext<P(==)> {
    const world: World<P>
    var naiveCache: map<Key, Entry<P>>
    var fpCache: map<Word, Entry<P>>
    var ioFp: map<Entry<P>, Word>

    ghost function Entries(): map<Entry<P>, Option<Compiled<P>>>
      reads this`naiveCache, naiveCache.Values
    {
      map e: Entry<P> | e in naiveCache.Values :: e.Value()
    }

    ghost function Abs(): (s: State<Entry<P>, P>)
      reads this, naiveCache.Values
    {
      State(naiveCache, fpCache, ioFp, Entries())
    }

    ghost predicate Valid()
      reads this, naiveCache.Values
    {
      Shaped(Abs())
    }

    constructor (world: World<P>)
      ensures Valid() && this.world == world && Abs() == Empty() && Faithful(world, Abs())
    {
      this.world := world;
      naiveCache, fpCache, ioFp := map[], map[], map[];
    }

    /** Drops every entry. */
    method Release()
      modifies this
      ensures Valid() && Abs() == Empty() && Faithful(world, Abs())
    {
      naiveCache, fpCache, ioFp := map[], map[], map[];
    }

    /** Puts an empty entry under a key and a fingerprint, flushing a full cache. */
    method Add(k: Key, f: Word) returns (entry: Entry<P>)
      requires k !in naiveCache
      modifies this
      ensures fresh(entry) && naiveCache.Values <= old(naiveCache.Values) + {entry}
      ensures entry !in Room(old(Abs())).entries
      ensures Abs() == NaiveCache.Insert(Room(old(Abs())), k, f, entry)
    {
      hide NaiveCache.Insert, Room;
      Flush();
      entry := new Entry();
      Put(k, f, entry);
    }

    method Flush()
      modifies this
      ensures Abs() == Room(old(Abs())) && naiveCache.Values <= old(naiveCache.Values)
      ensures naiveCache == old(naiveCache) || naiveCache == map[]
    {
      if |naiveCache| >= LIMIT {
        naiveCache, fpCache, ioFp := map[], map[], map[];
      }
    }

    method Put(k: Key, f: Word, entry: Entry<P>)
      requires k !in naiveCache && entry !in naiveCache.Values && entry.request == None
      modifies this`naiveCache, this`fpCache
      ensures naiveCache.Values == old(naiveCache.Values) + {entry}
      ensures Abs() == NaiveCache.Insert(old(Abs()), k, f, entry)
    {
      AddValue(naiveCache, k, entry);
      naiveCache, fpCache := naiveCache[k := entry], fpCache[f := entry];
      assert Entries() == old(Entries())[entry := None];
    }

    /** The entry for a graph. */
    method Lookup(g: Graph) returns (entry: Entry<P>)
      requires Valid() && ValidGraph(g)
      modifies this
      ensures Fresh(old(Abs()), g, entry)
      ensures Find(old(Abs()), g, entry) == Found(Abs(), entry)
      ensures naiveCache.Values <= old(naiveCache.Values) + {entry}
      ensures entry in old(naiveCache.Values) || fresh(entry)
    {
      hide Fp, KeyOf, KeysApart, AllCached, ValidGraph, NaiveCache.Insert, Room;
      ghost var s := Abs();
      var f := GraphFp(g);
      if f in fpCache {
        entry := fpCache[f];
        assert entry in s.entries;
      } else {
        var k := KeyOf(g);
        if k in naiveCache {
          entry := naiveCache[k];
          fpCache := fpCache[f := entry];
          assert Abs() == s.(fp := s.fp[f := entry]);
        } else {
          entry := Add(k, f);
        }
      }
    }

    /** Binds a compiled entry's decoder, unless it is recorded to be bound. */
    method Bind(entry: Entry<P>, g: Graph, f: Word)
      requires ValidGraph(g) && f == Fp(g) && entry in naiveCache.Values && entry.request.Some?
      modifies this`ioFp, entry
      ensures Abs() == Rebind(old(Abs()), entry, g) && entry.request == old(entry.request)
    {
      hide Fp, ValidGraph;
      hide BindingOf;
      var recorded := if entry in ioFp then ioFp[entry] else 0;
      ioFp := ioFp[entry := recorded];
      if recorded != f {
        entry.bound := BindingOf(g);
        ioFp := ioFp[entry := f];
        assert Entries() == old(Entries())[entry := entry.Value()];
        assert ioFp == old(ioFp)[entry := f];
      }
    }

    /** Keeps what a graph compiled to. */
    method Keep(entry: Entry<P>, g: Graph, f: Word, program: P)
      requires ValidGraph(g) && f == Fp(g) && entry in naiveCache.Values
      modifies this`ioFp, entry
      ensures Abs() == NaiveCache.Fill(old(Abs()), entry, g, program)
    {
      hide Fp, ValidGraph, BindingOf;
      entry.bound := BindingOf(g);
      entry.request := Some(program);
      ioFp := ioFp[entry := f];
      assert Entries() == old(Entries())[entry := entry.Value()];
    }

    /** Runs a graph on its entry: rebinds a compiled one, compiles an empty one. */
    method Execute(entry: Entry<P>, g: Graph, compiles: bool) returns (o: Outcome<P>)
      requires ValidGraph(g) && entry in naiveCache.Values
      modifies this`ioFp, entry
      ensures Effect(Abs(), o) == Use(world, old(Abs()), entry, g, compiles)
    {
      hide Fp, ValidGraph, Rebind, NaiveCache.Fill;
      var f := GraphFp(g);
      if entry.request.Some? {
        Bind(entry, g, f);
        assert Abs().entries[entry] == entry.Value();
        o := Ran(entry.request.value, entry.bound);
      } else if compiles {
        var program := world.compile(g);
        Keep(entry, g, f, program);
        o := Ran(program, BindingOf(g));
      } else {
        o := Failed;
      }
    }

    /** One call. Whatever was compiled, flushed or failed before, it answers as a fresh
        compilation would, provided keys tell apart what compiles differently. */
    method Compute(g: Graph, compiles: bool) returns (o: Outcome<P>, ghost slot: Option<Entry<P>>)
      requires Valid() && ValidGraph(g)
      modifies this, naiveCache.Values
      ensures Valid() && forall e | e in naiveCache.Values :: e in old(naiveCache.Values) || fresh(e)
      ensures slot.None? ==> o == FreshRun(world, g) || (o == Failed && !compiles)
      ensures slot.None? ==> Abs() == old(Abs()) && (Skips(world, g) || !world.enabled)
      ensures slot.Some? ==> Effect(Abs(), o) == Step(world, old(Abs()), g, compiles, slot.value)
      ensures Coherent(world) && g in world.graphs && old(Faithful(world, Abs())) ==>
                Faithful(world, Abs()) && Right(world, g, compiles, o)
    {
      hide Fp, KeyOf, Shaped, ValidGraph, Find, Use, Coherent, Programs, Origins, Bindings;
      slot := None;
      if Skips(world, g) {
        return Skipped, slot;
      }
      if !world.enabled {
        return if compiles then Ran(world.compile(g), BindingOf(g)) else Failed, slot;
      }
      ghost var s := Abs();
      var entry := Lookup(g);
      slot := Some(entry);
      StepShaped(world, s, g, compiles, entry);
      FoundIsEntry(s, g, entry);
      o := Execute(entry, g, compiles);
      if Coherent(world) && g in world.graphs && Faithful(world, s) {
        StepFaithful(world, s, g, compiles, entry);
      }
    }

    /** A sequence of calls. */
    method Serve(graphs: seq<Graph>, compiles: seq<bool>) returns (answers: seq<Outcome<P>>)
      requires Valid() && Coherent(world) && Faithful(world, Abs()) && |compiles| == |graphs|
      requires forall i :: 0 <= i < |graphs| ==> ValidGraph(graphs[i]) && graphs[i] in world.graphs
      modifies this, naiveCache.Values
      ensures |answers| == |graphs|
      ensures forall i :: 0 <= i < |graphs| ==> Right(world, graphs[i], compiles[i], answers[i])
    {
      hide Coherent, ValidGraph, Right, Faithful, Step;
      answers := [];
      for i := 0 to |graphs|
        invariant Valid() && Faithful(world, Abs()) && |answers| == i
        invariant forall e | e in naiveCache.Values :: e in old(naiveCache.Values) || fresh(e)
        invariant forall j :: 0 <= j < i ==> Right(world, graphs[j], compiles[j], answers[j])
      {
        var o, _ := Compute(graphs[i], compiles[i]);
        answers := answers + [o];
      }
    }
  }

  lemma AddValue<Id>(m: map<Key, Id>, k: Key, e: Id)
    requires k !in m
    ensures m[k := e].Values == m.Values + {e}
  {
    var r := m[k := e];
    assert r[k] == e;
    forall x | x in m.Values ensures x in r.Values {
      var j :| j in m && m[j] == x;
      assert r[j] == x;
    }
  }
}
