/** The row cache (`engine/cache.rs`) and how lookups fill it
    (`engine/read_path.rs`).

    A generation counter protects against a reader that puts an old row into
    the cache after a writer has invalidated the key. The counter is bumped
    outside the lock, so the steps below interleave freely.
 */
module RowCache {
  import opened Wrappers
  import opened ByteStrings
  import opened EngineState

  // ── Micro-steps ───────────────────────────────────────────────────────────

  /** What an invalidation affects: one key, or everything. */
  datatype Scope = Key(uk: bytes) | Everything

  predicate Affects(scope: Scope, uk: bytes) {
    match scope
    case Key(k) => k == uk
    case Everything => true
  }

  /** An invalidation that has bumped the generation to `gen`. */
  datatype Call = Call(scope: Scope, gen: nat)

  /** A cached row and the generation its reader had captured. */
  datatype Cached = Cached(entry: CacheEntry, captured: nat)

  /** `inserting` is an insert that holds the lock and has passed its check;
      `calls` have bumped but not yet popped; `returned` have popped. */
  datatype Cache = Cache(
    generation: nat,
    entries: map<bytes, Cached>,
    inserting: Option<(bytes, Cached)>,
    calls: set<Call>,
    returned: set<Call>)

  datatype Micro =
    | Bump(scope: Scope)
    | Pop(call: Call)
    | Check(uk: bytes, row: Cached)
    | Put
    | Evict(uk: bytes)

  ghost predicate Next(c: Cache, m: Micro, d: Cache) {
    match m
    case Bump(scope) =>
      d == c.(generation := c.generation + 1, calls := c.calls + {Call(scope, c.generation + 1)})
    case Pop(call) =>
      c.inserting.None? && call in c.calls &&
      d == c.(calls := c.calls - {call}, returned := c.returned + {call}, entries := Popped(c.entries, call.scope))
    case Check(uk, row) =>
      c.inserting.None? && row.captured <= c.generation &&
      d == if row.captured == c.generation then c.(inserting := Some((uk, row))) else c
    case Put =>
      c.inserting.Some? && d == c.(entries := c.entries[c.inserting.value.0 := c.inserting.value.1], inserting := None)
    case Evict(uk) => d == c.(entries := c.entries - {uk})
  }

  function Popped(entries: map<bytes, Cached>, scope: Scope): map<bytes, Cached> {
    map k | k in entries && !Affects(scope, k) :: entries[k]
  }

  /** Rows cached or about to be cached for an affected key were captured after
      the call's bump. */
  ghost predicate Protected(c: Cache, call: Call) {
    (forall uk :: uk in c.entries && Affects(call.scope, uk) ==> c.entries[uk].captured >= call.gen) &&
    (c.inserting.Some? && Affects(call.scope, c.inserting.value.0) ==> c.inserting.value.1.captured >= call.gen)
  }

  ghost predicate CacheInv(c: Cache) {
    (forall call :: call in c.calls + c.returned ==> call.gen <= c.generation) &&
    (forall call :: call in c.returned ==> Protected(c, call))
  }

  /** Once an invalidation has returned, it stays effective. */
  lemma StepProtects(c: Cache, m: Micro, d: Cache)
    requires CacheInv(c) && Next(c, m, d)
    ensures CacheInv(d)
  {
    forall call | call in d.returned
      ensures Protected(d, call)
    {
      if call in c.returned { assert Protected(c, call); }
    }
  }

  ghost predicate IsRun(cs: seq<Cache>, ms: seq<Micro>) {
    |cs| == |ms| + 1 && cs[0] == Cache(0, map[], None, {}, {}) &&
    forall i :: 0 <= i < |ms| ==> Next(cs[i], ms[i], cs[i + 1])
  }

  lemma {:induction false} RunInv(cs: seq<Cache>, ms: seq<Micro>, i: nat)
    requires IsRun(cs, ms) && i < |cs|
    ensures CacheInv(cs[i])
  {
    hide CacheInv, Next;
    if i > 0 {
      RunInv(cs, ms, i - 1);
      StepProtects(cs[i - 1], ms[i - 1], cs[i]);
    } else {
      EmptyInv();
    }
  }

  lemma EmptyInv()
    ensures CacheInv(Cache(0, map[], None, {}, {}))
  {
  }

  /** In every interleaving: after `invalidate(k)` or `clear` has returned, an
      entry for an affected key was inserted with a generation captured after
      that call's bump. */
  lemma InvalidationHolds(cs: seq<Cache>, ms: seq<Micro>, i: nat, call: Call, uk: bytes)
    requires IsRun(cs, ms) && i < |cs| && call in cs[i].returned && Affects(call.scope, uk) && uk in cs[i].entries
    ensures cs[i].entries[uk].captured >= call.gen
  {
    RunInv(cs, ms, i);
    assert Protected(cs[i], call);
  }

  // ── The object ────────────────────────────────────────────────────────────

  /** `RowCache`. The ghost fields remember under which generation each row was
      read and which invalidations have come and gone. */
  class LruRowCache {
    var entries: map<bytes, CacheEntry>
    var generation: nat
    ghost var captured: map<bytes, nat>
    ghost var calls: set<Call>
    ghost var returned: set<Call>

    ghost function Value(): Cache
      requires captured.Keys == entries.Keys
      reads this
    {
      Cache(generation, map k | k in entries :: Cached(entries[k], captured[k]), None, calls, returned)
    }

    ghost predicate Valid()
      reads this
    {
      captured.Keys == entries.Keys && CacheInv(Value())
    }

    constructor ()
      ensures Valid() && Value() == Cache(0, map[], None, {}, {})
    {
      entries, generation, captured, calls, returned := map[], 0, map[], {}, {};
      new;
      EmptyInv();
    }

    /** A row read after this capture is protected from every invalidation that
        has returned. */
    method SnapshotGeneration() returns (g: nat)
      requires Valid()
      ensures g <= generation && forall call :: call in returned ==> call.gen <= g
      ensures forall uk, row ::
              Next(Value(), Check(uk, Cached(row, g)), Value().(inserting := Some((uk, Cached(row, g)))))
    {
      g := generation;
    }

    /** Takes the row in only if no invalidation has begun since the capture; by
        a check, a put and evictions of the machine, so that every returned
        invalidation stays effective. */
    method InsertIfFresh(uk: bytes, entry: CacheEntry, gen: nat, evicted: set<bytes>) returns (ghost run: seq<Cache>)
      requires Valid()
      modifies this`entries, this`captured
      ensures Valid()
      ensures gen != generation ==> Value() == old(Value())
      ensures gen < generation ==> Next(old(Value()), Check(uk, Cached(entry, gen)), Value())
      ensures gen == generation ==>
                |run| == 3 && Next(old(Value()), Check(uk, Cached(entry, gen)), run[0]) &&
                  Next(run[0], Micro.Put, run[1]) &&
                Trimmed(run[1], evicted - {uk}, Value()) && uk in entries && entries[uk] == entry
    {
      run := [];
      ghost var c := Value();
      if generation != gen { return; }
      ghost var row := Cached(entry, gen);
      ghost var checked := c.(inserting := Some((uk, row)));
      ghost var put := c.(entries := c.entries[uk := row]);
      StepProtects(c, Check(uk, row), checked);
      StepProtects(checked, Micro.Put, put);
      entries := entries[uk := entry] - (evicted - {uk});
      captured := captured[uk := gen] - (evicted - {uk});
      assert Value().entries == put.entries - (evicted - {uk});
      TrimProtects(put, evicted - {uk}, Value());
      run := [checked, put, Value()];
    }

    /** A bump and a pop of the machine; afterwards the key is not cached, and
        the call has returned. */
    method Invalidate(uk: bytes) returns (ghost bumped: Cache)
      requires Valid()
      modifies this
      ensures Valid() && uk !in entries && Call(Key(uk), generation) in returned
      ensures Next(old(Value()), Bump(Key(uk)), bumped) && Next(bumped, Pop(Call(Key(uk), generation)), Value())
      ensures forall k :: k != uk ==>
              (k in entries <==> k in old(entries)) && (k in entries ==> entries[k] == old(entries)[k])
    {
      ghost var c := Value();
      generation := generation + 1;
      ghost var call := Call(Key(uk), generation);
      bumped := c.(generation := generation, calls := calls + {call});
      StepProtects(c, Bump(Key(uk)), bumped);
      entries, captured := entries - {uk}, captured - {uk};
      calls, returned := calls + {call} - {call}, returned + {call};
      assert Value().entries == Popped(bumped.entries, Key(uk));
      StepProtects(bumped, Pop(call), Value());
    }

    /** The same for all keys at once. */
    method Clear() returns (ghost bumped: Cache)
      requires Valid()
      modifies this
      ensures Valid() && entries == map[] && Call(Everything, generation) in returned
      ensures Next(old(Value()), Bump(Everything), bumped) && Next(bumped, Pop(Call(Everything, generation)), Value())
    {
      ghost var c := Value();
      generation := generation + 1;
      ghost var call := Call(Everything, generation);
      bumped := c.(generation := generation, calls := calls + {call});
      StepProtects(c, Bump(Everything), bumped);
      entries, captured := map[], map[];
      calls, returned := calls + {call} - {call}, returned + {call};
      assert Value().entries == Popped(bumped.entries, Everything);
      StepProtects(bumped, Pop(call), Value());
    }
  }

  /** `d` is `c` after evictions of the keys in `gone`, one by one. */
  ghost predicate Trimmed(c: Cache, gone: set<bytes>, d: Cache)
    decreases gone
  {
    if gone == {} then d == c
    else exists k :: k in gone && Trimmed(c.(entries := c.entries - {k}), gone - {k}, d)
  }

  lemma {:induction false} TrimProtects(c: Cache, gone: set<bytes>, d: Cache)
    requires CacheInv(c) && d == c.(entries := c.entries - gone)
    ensures CacheInv(d) && Trimmed(c, gone, d)
    decreases gone
  {
    hide CacheInv;
    if gone == {} {
      assert c.entries - gone == c.entries;
    } else {
      var k :| k in gone;
      var e := c.(entries := c.entries - {k});
      assert Next(c, Evict(k), e);
      StepProtects(c, Evict(k), e);
      assert e.entries - (gone - {k}) == d.entries;
      TrimProtects(e, gone - {k}, d);
    }
  }
}
