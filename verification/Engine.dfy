/** The engine's methods, each proved to take the steps of the model
    (`engine/engine.rs`, `engine/read_path.rs`, `engine/flush.rs`,
    `engine/write_path.rs`). */
module Engine {
  import opened Wrappers
  import opened ByteStrings
  import opened Keys
  import opened Table
  import opened Visibility
  import opened Sst
  import opened Memtable
  import opened DeletionVector
  import opened Manifest
  import opened Versions
  import opened Catalog
  import opened LiveFiles
  import opened ReadPath
  import opened Flush
  import opened FlushCommit
  import opened EngineState
  import opened EngineSteps
  import opened EngineReads
  import opened EngineRuns
  import opened Emission
  import opened UniqueRows
  import opened FlushOutcome
  import DvResolve

  /** What the flush needs to hold, whatever was written. */
  ghost predicate Flushable(sys: Sys, s: State) {
    SysOk(sys) && MemsSound(sys, s) && CatalogOk(sys.codec, s.store) &&
    VersionOk(sys.env, sys.codec, DiskOf(s), s.version) && s.phase == Idle && PhaseOk(sys, s)
  }

  /** A bound of a scan, encoded. */
  function BoundOf(pk: Option<seq<FieldValue>>, env: Env): Result<Option<bytes>> {
    if pk.None? then Ok(None)
    else
      match EncodePk(pk.value, env.keyTypes)
      case Ok(uk) => Ok(Some(uk))
      case Err(e) => Err(e)
  }

  /** `[start, end)` in the order of the key tuples. */
  predicate Between(vs: seq<FieldValue>, start: Option<seq<FieldValue>>, end: Option<seq<FieldValue>>) {
    (start.Some? ==> !PkLess(vs, start.value)) && (end.Some? ==> PkLess(vs, end.value))
  }

  predicate BoundFits(pk: Option<seq<FieldValue>>, env: Env) {
    pk.Some? ==> PkFits(pk.value, env.keyTypes)
  }

  /** The range of the encoded bounds is the range of the bounds. */
  lemma RangeIsBetween(env: Env, vs: seq<FieldValue>, start: Option<seq<FieldValue>>, end: Option<seq<FieldValue>>)
    requires ValidPk(vs, env.keyTypes) && BoundOf(start, env).Ok? && BoundOf(end, env).Ok?
    ensures InRange(EncodePk(vs, env.keyTypes).value, Range(BoundOf(start, env).value, BoundOf(end, env).value)) <==>
            Between(vs, start, end)
  {
    hide EncodePk, Less, PkLess;
    if start.Some? { EncodedLess(vs, start.value, env.keyTypes); }
    if end.Some? { EncodedLess(vs, end.value, env.keyTypes); }
  }

  lemma ScanRows(spec: Spec, range: Range, out: seq<Rec>)
    requires ScanOf(spec, range, out)
    ensures StrictlyAscending(out) && forall x :: x in out ==> Answer(spec, x.key.uk) == Some(x.val)
  {
  }

  /** The scan has the key if and only if it is live and between the bounds. */
  ghost predicate ScanHas(spec: Spec, env: Env, start: Option<seq<FieldValue>>, end: Option<seq<FieldValue>>,
                          out: seq<Rec>, vs: seq<FieldValue>)
    requires ValidPk(vs, env.keyTypes)
  {
    var uk := EncodePk(vs, env.keyTypes).value;
    Listed(out, uk) <==> Answer(spec, uk).Some? && Between(vs, start, end)
  }

  lemma ScanByTuples(spec: Spec, env: Env, start: Option<seq<FieldValue>>, end: Option<seq<FieldValue>>, out: seq<Rec>,
                     vs: seq<FieldValue>)
    requires ValidPk(vs, env.keyTypes) && BoundOf(start, env).Ok? && BoundOf(end, env).Ok?
    requires ScanOf(spec, Range(BoundOf(start, env).value, BoundOf(end, env).value), out)
    ensures ScanHas(spec, env, start, end, out, vs)
  {
    hide EncodePk, Between, BoundOf, InRange;
    RangeIsBetween(env, vs, start, end);
  }

  /** How the first part of a flush ends, if not with an error. */
  datatype Outcome = Nothing | DroppedEmpty | Committing

  class MeruEngine {
    const sys: Sys
    const mem: MemtableManager
    const catalog: IcebergCatalog
    const caching: bool
    var globalSeq: nat
    var visibleSeq: nat
    var files: map<DataPath, File>
    var version: Version
    var phase: Phase
    var rowCache: map<bytes, CacheEntry>

    ghost function Value(): State
      reads this, mem, catalog
    {
      State(mem.active, mem.immutable, globalSeq, visibleSeq, catalog.Value(), files, version, phase, rowCache)
    }

    constructor (sys: Sys, store: Store, files: map<DataPath, File>, init: nat, caching: bool)
      requires init >= 1
      ensures Value() == Opened(store, files, init) && fresh(mem) && fresh(catalog) && this.sys == sys
    {
      this.sys, this.caching, this.files := sys, caching, files;
      mem := new MemtableManager(init);
      catalog := new IcebergCatalog(store);
      var v := ToVersion(store.manifest);
      version := v;
      globalSeq, visibleSeq, phase, rowCache := init, init - 1, Idle, map[];
    }

    // ── Writing ─────────────────────────────────────────────────────────────

    /** The critical section of a batch, and the invalidation after it. If the
        log refuses the batch, its sequence numbers are lost and nothing else
        happens. */
    method ApplyBatch(ghost spec: Spec, recs: seq<BatchRec>, logOk: bool) returns (r: Result<nat>)
      requires Inv(sys, Value(), spec) && CanWrite(sys, Value(), recs)
      modifies this, mem
      ensures r == if logOk then Ok(old(globalSeq)) else Err(Io)
      ensures r.Ok? ==> Value() == WriteMany(old(Value()), recs, |recs|)
      ensures r.Ok? ==> Inv(sys, Value(), SpecMany(spec, recs, old(globalSeq), |recs|))
      ensures r.Err? ==> Value() == Aborted(old(Value()), |recs|) && Inv(sys, Value(), spec)
    {
      hide Inv, RecordOk, WriteMany, SpecMany, Memtable.Applied;
      ghost var s := Value();
      var base := globalSeq;
      globalSeq := globalSeq + |recs|;
      if !logOk {
        AbortKeepsInv(sys, s, spec, |recs|);
        return Err(Io);
      }
      BatchKeepsInv(sys, s, spec, recs, |recs|);
      BatchIsMany(s, recs, |recs|);
      InvUnsealed(sys, s, spec);
      mem.Apply(WriteBatch(base, recs));
      if base + |recs| - 1 > visibleSeq { visibleSeq := base + |recs| - 1; }
      Invalidate(recs);
      assert rowCache == WriteMany(s, recs, |recs|).cache;
      r := Ok(base);
    }

    /** Drops the written keys from the cache. */
    method Invalidate(recs: seq<BatchRec>)
      modifies this`rowCache
      ensures forall uk :: uk in rowCache <==> uk in old(rowCache) && forall k :: 0 <= k < |recs| ==> recs[k].uk != uk
      ensures forall uk :: uk in rowCache ==> rowCache[uk] == old(rowCache)[uk]
    {
      for i := 0 to |recs|
        invariant forall uk :: uk in rowCache <==> uk in old(rowCache) && forall k :: 0 <= k < i ==> recs[k].uk != uk
        invariant forall uk :: uk in rowCache ==> rowCache[uk] == old(rowCache)[uk]
      {
        rowCache := Without(rowCache, recs[i].uk);
      }
    }

    method Rotate()
      modifies mem
      ensures Value() == Rotated(old(Value()))
    {
      mem.Rotate(globalSeq + 1);
    }

    // ── Reading ─────────────────────────────────────────────────────────────

    /** Memtables, cache, files: the row of the key's last put, or nothing if
        its last operation is a delete or it was never written. `evicted` are
        the keys the cache gives up when it takes an entry in. */
    method PointLookup(ghost spec: Spec, pk: seq<FieldValue>, evicted: set<bytes>) returns (r: Result<Option<Row>>)
      requires Inv(sys, Value(), spec)
      modifies this`rowCache
      ensures Inv(sys, Value(), spec)
      ensures match EncodePk(pk, sys.env.keyTypes)
              case Err(e) => r == Err(e)
              case Ok(uk) => r == Ok(Answer(spec, uk))
      ensures r.Ok? <==> PkFits(pk, sys.env.keyTypes)
    {
      hide Inv, Newest, Valid, HasKey, VersionOk, EncodePk, MemsSound, Counted, Tracks;
      PkEncodes(pk, sys.env.keyTypes);
      var key := EncodePk(pk, sys.env.keyTypes);
      if key.Err? { return Err(key.error); }
      var uk := key.value;
      ghost var s := Value();
      InvReadable(sys, s, spec);
      MemSearch(sys, s, spec, uk);
      var entry := mem.GetEntry(sys.env, uk, visibleSeq);
      if entry.Some? {
        if entry.value.op == Delete { return Ok(None); }
        return Ok(entry.value.value);
      }
      r := LookupBelow(spec, uk, evicted);
    }

    /** The stops after the memtables: cache, then files. */
    method LookupBelow(ghost spec: Spec, uk: bytes, evicted: set<bytes>) returns (r: Result<Option<Row>>)
      requires Inv(sys, Value(), spec)
      requires forall j :: 1 <= j <= Layers(Value()) ==> !HasKey(sys.env, MemAt(Value(), j), uk)
      modifies this`rowCache
      ensures Inv(sys, Value(), spec) && r == Ok(Answer(spec, uk))
    {
      hide Inv, HasKey, NewestOnDisk, VersionOk, VersionSound, Damaged, MemsSound, Counted, Tracks, MemtablesOk;
      ghost var s := Value();
      if caching && uk in rowCache {
        InvCache(sys, s, spec);
        if rowCache[uk].op == Delete { return Ok(None); }
        return Ok(Some(rowCache[uk].row));
      }
      InvReadable(sys, s, spec);
      OkIsSound(sys.env, sys.codec, DiskOf(s), version);
      var found := DiskLookup(sys.env, sys.codec, Disk(files, catalog.puffins), version, uk, visibleSeq);
      var hit := found.value; // the invariant rules out damaged files
      DiskSearch(sys, s, spec, uk, hit);
      if hit.None? { return Ok(None); }
      if caching { Remember(spec, uk, hit.value, evicted); }
      if hit.value.key.op == Delete { return Ok(None); }
      return Ok(Some(hit.value.val));
    }

    /** Puts a row read from disk into the cache. */
    method Remember(ghost spec: Spec, uk: bytes, row: Rec, evicted: set<bytes>)
      requires Inv(sys, Value(), spec) && CanFill(sys, Value(), uk, row)
      modifies this`rowCache
      ensures Inv(sys, Value(), spec)
    {
      hide Inv, CanFill;
      FillKeepsInv(sys, Value(), spec, uk, row);
      ghost var filled := Filled(Value(), uk, row);
      rowCache := rowCache[uk := CacheEntry(row.key.op, row.val)];
      assert Value() == filled;
      EvictKeepsInv(sys, filled, spec, rowCache.Keys - evicted);
      rowCache := map k | k in rowCache && k in rowCache.Keys - evicted :: rowCache[k];
      assert Value() == Evicted(filled, filled.cache.Keys - evicted);
    }

    /** `range_scan`: fails exactly if a bound is not a primary key. */
    method Scan(ghost spec: Spec, start: Option<seq<FieldValue>>, end: Option<seq<FieldValue>>)
      returns (r: Result<seq<Rec>>)
      requires Inv(sys, Value(), spec)
      ensures r.Ok? <==> BoundFits(start, sys.env) && BoundFits(end, sys.env)
      ensures r.Err? ==>
              EncodePk(if BoundFits(start, sys.env) then end.value else start.value, sys.env.keyTypes) == Err(r.error)
      ensures r.Ok? ==> StrictlyAscending(r.value) && forall x :: x in r.value ==> Answer(spec, x.key.uk) == Some(x.val)
      ensures r.Ok? ==> forall vs :: ValidPk(vs, sys.env.keyTypes) ==> ScanHas(spec, sys.env, start, end, r.value, vs)
    {
      hide Inv, ScanOf, EncodePk, ScanHas;
      if start.Some? { PkEncodes(start.value, sys.env.keyTypes); }
      if end.Some? { PkEncodes(end.value, sys.env.keyTypes); }
      var lo := BoundOf(start, sys.env);
      if lo.Err? { return Err(lo.error); }
      var hi := BoundOf(end, sys.env);
      if hi.Err? { return Err(hi.error); }
      var out := RangeScan(spec, Range(lo.value, hi.value));
      ScanRows(spec, Range(lo.value, hi.value), out);
      forall vs | ValidPk(vs, sys.env.keyTypes)
        ensures ScanHas(spec, sys.env, start, end, out, vs)
      {
        ScanByTuples(spec, sys.env, start, end, out, vs);
      }
      r := Ok(out);
    }

    /** The live keys of `[start, end)`, ascending, each with its row. */
    method RangeScan(ghost spec: Spec, range: Range) returns (out: seq<Rec>)
      requires Inv(sys, Value(), spec)
      ensures ScanOf(spec, range, out)
    {
      hide Inv, HarvestedAbove, Complete, ScanOf, MemHarvested, MemSound, VersionOk, VersionSound, Damaged, Counted,
           Tracks;
      ghost var s := Value();
      InvReadable(sys, s, spec);
      NothingAbove(sys, s, range);
      var harvest := HarvestActive(s, range);
      var k := |mem.immutable|;
      while k > 0
        invariant 0 <= k <= |mem.immutable| && HarvestedAbove(sys, s, range, k, harvest)
      {
        AllReadable(sys, s, k);
        var more := HarvestMem(sys.env, mem.immutable[k - 1], range, visibleSeq);
        HarvestMore(sys, s, range, k, harvest, more);
        harvest := harvest + more;
        k := k - 1;
      }
      OkIsSound(sys.env, sys.codec, DiskOf(s), version);
      var stored := HarvestDisk(sys.env, sys.codec, Disk(files, catalog.puffins), version, range, visibleSeq);
      HarvestFiles(sys, s, range, harvest, stored.value);
      harvest := harvest + stored.value;
      out := MergeHarvest(harvest);
      ScanIsRight(sys, s, spec, range, harvest, out);
    }

    method HarvestActive(ghost s: State, range: Range) returns (out: seq<Rec>)
      requires s == Value() && MemsSound(sys, s) && Counted(sys, s) && HarvestedAbove(sys, s, range, Layers(s), [])
      ensures HarvestedAbove(sys, s, range, |s.queue|, out)
    {
      hide HarvestedAbove, MemHarvested, MemSound, Counted;
      AllReadable(sys, s, Layers(s));
      out := HarvestMem(sys.env, mem.active, range, visibleSeq);
      HarvestMore(sys, s, range, Layers(s), [], out);
      assert [] + out == out;
    }

    // ── Flush ───────────────────────────────────────────────────────────────

    /** The rows to mark in the files of the installed version. */
    method FlushDeltas(emit: bool, m: Mem, entries: seq<MemRec>)
      returns (r: Result<map<DataPath, Bitmap>>, ghost keys: seq<bytes>)
      requires Flushable(sys, Value()) && MemSound(sys.env, m) && EntriesOf(sys.env, m, entries) && entries != []
      ensures emit ==> KeysOf(sys.env, m, keys) && keys != []
      ensures r.Err? <==> emit && DvResolve.SomeUnresolvable(sys.codec, DiskOf(Value()), version, keys)
      ensures r.Ok? ==>
              DeltasSound(sys, DiskOf(Value()), version, m, r.value) && DeltasAre(sys, Value(), emit, keys, r.value)
    {
      hide MemSound, VersionOk, VersionSound, Damaged, CatalogOk, SysOk, PhaseOk, MemsSound, DvResolve.AllDeltas,
           DvResolve.KeysAscend, HasKey, DvResolve.SomeUnresolvable;
      keys := [];
      if !emit {
        NoDeltas(sys, DiskOf(Value()), version, m);
        return Ok(map[]), keys;
      }
      EntriesAscend(sys.env, m, entries);
      var uks := DedupKeys(entries);
      keys := uks;
      EntryKeys(sys.env, m, entries, keys);
      OkIsSound(sys.env, sys.codec, DiskOf(Value()), version);
      r := DvResolve.Resolve(sys.env, sys.codec, Disk(files, catalog.puffins), version, uks);
      if r.Ok? {
        assert Resolved(sys, DiskOf(Value()), version, m, keys, r.value);
        ResolvedIsSound(sys, DiskOf(Value()), version, m, keys, r.value);
      }
    }

    /** Writes the file, builds the transaction and commits it. */
    method CommitJob(job: Job, rows: seq<Rec>, faults: Faults, metadataOk: bool) returns (r: Result<()>)
      requires Flushable(sys, Value()) && PathFree(catalog.Value(), files, job.path) && mem.immutable != [] &&
               job.m == mem.immutable[0]
      requires MemSound(sys.env, job.m) && EntriesOf(sys.env, job.m, job.entries) && job.entries != []
      requires rows == RowsOf(sys, job) && DescribesRows(job.meta, rows) &&
               DeltasSound(sys, DiskOf(Value()), version, job.m, job.deltas)
      modifies this, catalog
      ensures r.Ok? <==>
              CommitOk(sys.codec, old(Value()).store, TxnOf(sys, job)) && job.deltas.Keys !! faults.Keys && metadataOk
      ensures r.Ok? ==> CanCommit(sys, old(Value()), job) && Value() == CommitFlush(sys, old(Value()), job)
      ensures r.Err? ==> FlushFails(sys, old(Value()), Value())
    {
      hide MemSound, VersionOk, CatalogOk, SysOk, PhaseOk, EntriesOf, Rows, DeltasSound, DescribesRows, CommitOk,
           After, VersionOf, Failed, RefsOlder, MemsSound;
      ghost var s := Value();
      IdleVersion(sys, s);
      OkRefs(sys.codec, s.store);
      files := files[job.path := sys.writer(rows)];
      var txn := BuildTxn(NewFile(job.path, |rows|, job.meta), job.deltas);
      assert txn == TxnOf(sys, job);
      var next := catalog.Commit(sys.codec, txn, faults, metadataOk);
      if next.Err? { return Err(next.error); }
      phase := Committed(next.value, job.path);
      r := Ok(());
    }

    /** Everything up to the commit: entries, rows, deletion vectors, file and
        transaction. `path` is a new name; `emit` is
        `enable_flush_dv_emission`. */
    method FlushOldest(path: DataPath, emit: bool, faults: Faults, metadataOk: bool)
      returns (r: Result<Outcome>, ghost job: Job, ghost keys: seq<bytes>)
      requires Flushable(sys, Value()) && PathFree(catalog.Value(), files, path)
      modifies this, mem, catalog
      ensures r == Ok(Nothing) <==> old(mem.immutable) == []
      ensures r == Ok(Nothing) ==> Value() == old(Value())
      ensures r == Ok(DroppedEmpty) <==> old(mem.immutable) != [] && old(mem.immutable)[0].slots == []
      ensures r == Ok(DroppedEmpty) ==>
              Value() == old(Value()).(queue := Retain(old(mem.immutable), old(mem.immutable)[0].firstSeq))
      ensures old(mem.immutable) != [] && old(mem.immutable)[0].slots != [] ==>
              (emit ==> KeysOf(sys.env, old(mem.immutable)[0], keys) && keys != []) &&
              (r == Ok(Committing) <==> FlushWorks(sys, old(Value()), emit, keys, faults, metadataOk))
      ensures r == Ok(Committing) ==>
              CanCommit(sys, old(Value()), job) && CommitOk(sys.codec, old(Value()).store, TxnOf(sys, job))
      ensures r == Ok(Committing) ==> Value() == CommitFlush(sys, old(Value()), job) && job.path == path
      ensures r == Ok(Committing) ==> DeltasAre(sys, old(Value()), emit, keys, job.deltas)
      ensures r.Err? ==> FlushFails(sys, old(Value()), Value())
    {
      hide MemSound, VersionOk, CatalogOk, SysOk, PhaseOk, EntriesOf, Rows, DeltasAre, DeltasSound, DescribesRows,
           CommitOk, Failed, CanCommit, CommitFlush, Valid, Lists, Flushable, Retain, KeysOf, MarksWritable,
           DvResolve.SomeUnresolvable;
      ghost var s := Value();
      keys := [];
      job := Job(mem.active, [], path, FileMeta(0, 0, 0, [], [], 0), map[]);
      if mem.immutable == [] { return Ok(Nothing), job, keys; }
      var m := mem.immutable[0];
      OldestSound(sys, s);
      var entries := IterAll(sys.env, m.slots, SEQNUM_MAX);
      EntriesAre(sys.env, m, entries);
      if entries == [] {
        mem.DropFlushed(m.firstSeq);
        return Ok(DroppedEmpty), job, keys;
      }
      var rows, meta := BuildRows(sys.pkOnly, entries);
      var deltas;
      deltas, keys := FlushDeltas(emit, m, entries);
      EntriesThere(sys.env, m, entries);
      if deltas.Err? {
        files := files[path := sys.writer(rows)];
        FailedNothing(s.store);
        return Err(deltas.error), job, keys;
      }
      var ready := Job(m, entries, path, meta, deltas.value);
      job := ready;
      FlushCommits(sys, s, ready, emit, keys, faults);
      var committed := CommitJob(ready, rows, faults, metadataOk);
      if committed.Err? { return Err(committed.error), job, keys; }
      r := Ok(Committing);
    }

    method Install()
      requires phase.Committed?
      modifies this
      ensures Value() == InstallVersion(old(Value()))
    {
      version := phase.next;
      phase := Installed(phase.path);
    }

    method DropFlushed()
      requires phase.Installed? && mem.immutable != []
      modifies this, mem
      ensures Value() == DropOldest(old(Value()))
    {
      mem.DropFlushed(mem.immutable[0].firstSeq);
      phase := Idle;
    }

    /** `run_flush` when nothing else runs. It succeeds exactly if there is
        nothing to flush or resolving, encoding and writing all succeed. Then the
        oldest memtable is gone, its newest records are in the new file, and
        older files have exactly the marks of `emit`; and no answer changes. */
    method RunFlush(ghost spec: Spec, path: DataPath, emit: bool, faults: Faults, metadataOk: bool)
      returns (r: Result<()>, ghost keys: seq<bytes>)
      requires Inv(sys, Value(), spec) && phase == Idle && PathFree(catalog.Value(), files, path)
      modifies this, mem, catalog
      ensures Inv(sys, Value(), spec) && phase == Idle
      ensures old(mem.immutable) != [] && emit ==> KeysOf(sys.env, old(mem.immutable)[0], keys) && keys != []
      ensures r.Ok? <==> old(mem.immutable) == [] || FlushWorks(sys, old(Value()), emit, keys, faults, metadataOk)
      ensures old(mem.immutable) == [] ==> Value() == old(Value())
      ensures r.Ok? && old(mem.immutable) != [] ==>
              mem.immutable == old(mem.immutable)[1..] &&
              FlushedTo(sys, old(Value()), Value(), emit, keys, old(mem.immutable)[0], path)
      ensures r.Ok? && old(mem.immutable) != [] && emit && old(StateUnique(sys, Value())) ==>
              (StateUnique(sys, Value()) <==>
               NothingOverlooked(sys, old(DiskOf(Value())), old(version), old(mem.immutable)[0], keys))
      ensures r.Err? ==> FlushFails(sys, old(Value()), Value())
      ensures mem.active == old(mem.active) && globalSeq == old(globalSeq) && visibleSeq == old(visibleSeq)
      ensures rowCache == old(rowCache)
    {
      hide Inv, CanCommit, CommitOk, Flushable, PathFree, FlushFails, Retain, KeysOf, FlushWorks, FlushedTo, DeltasAre,
           StateUnique, NothingOverlooked, CommitFlush;
      ghost var s := Value();
      InvFlushable(sys, s, spec);
      if s.queue != [] { EmptyNeverQueued(sys, s, spec); }
      var outcome, job, uks := FlushOldest(path, emit, faults, metadataOk);
      keys := uks;
      if outcome.Err? {
        FailKeepsInv(sys, s, spec, Value());
        FailedQueue(sys, s, Value());
        return Err(outcome.error), keys;
      }
      if outcome.value != Committing { return Ok(()), keys; }
      CommitKeepsInv(sys, s, spec, job);
      CommittedQueue(sys, s, job);
      FlushedIs(sys, s, spec, job, emit, keys);
      ghost var committed := Value();
      InstallKeepsInv(sys, committed, spec);
      Install();
      ghost var installed := Value();
      DropKeepsInv(sys, installed, spec);
      InvQueue(sys, installed, spec);
      DropFlushed();
      r := Ok(());
    }
  }

  lemma InvUnsealed(sys: Sys, s: State, spec: Spec)
    requires Inv(sys, s, spec)
    ensures !s.active.sealed && s.visible < s.counter
  {
  }

  lemma InvReadable(sys: Sys, s: State, spec: Spec)
    requires Inv(sys, s, spec)
    ensures MemtablesOk(sys, s) && !s.active.sealed && VersionOk(sys.env, sys.codec, DiskOf(s), s.version)
    ensures MemsSound(sys, s) && Counted(sys, s) && Tracks(sys, s, spec)
  {
    hide SysOk, CatalogOk, VersionOk, Layered, Counted, PhaseOk, Tracks;
    SoundMemtables(sys, s);
  }

  lemma NothingAbove(sys: Sys, s: State, range: Range)
    ensures HarvestedAbove(sys, s, range, Layers(s), [])
  {
  }

  method BuildTxn(file: NewFile, deltas: map<DataPath, Bitmap>) returns (txn: Txn)
    ensures txn == Txn([file], [], deltas)
  {
    hide DvFor, Recorded;
    var builder := new SnapshotTransaction();
    builder.AddFile(file);
    var todo := deltas.Keys;
    ghost var done: set<DataPath> := {};
    NothingRecorded(builder.Value(), deltas);
    while todo != {}
      invariant fresh(builder) && todo !! done && todo + done == deltas.Keys
      invariant builder.adds == [file] && builder.removes == []
      invariant Recorded(builder.Value(), deltas, done)
      decreases todo
    {
      var path :| path in todo;
      ghost var before := builder.Value();
      builder.AddDv(path, deltas[path]);
      OneMoreRecorded(before, builder.Value(), deltas, done, path);
      todo, done := todo - {path}, done + {path};
    }
    AllRecorded(builder.Value(), deltas);
    txn := builder.Value();
  }

  /** The transaction marks exactly the deltas of the files in `done`. */
  ghost predicate Recorded(txn: Txn, deltas: map<DataPath, Bitmap>, done: set<DataPath>) {
    txn.dvs.Keys == done <= deltas.Keys && forall p :: p in done ==> txn.dvs[p] == deltas[p]
  }

  lemma NothingRecorded(txn: Txn, deltas: map<DataPath, Bitmap>)
    requires txn.dvs == map[]
    ensures Recorded(txn, deltas, {})
  {
  }

  lemma OneMoreRecorded(before: Txn, after: Txn, deltas: map<DataPath, Bitmap>, done: set<DataPath>, path: DataPath)
    requires Recorded(before, deltas, done) && path in deltas && path !in done
    requires after.dvs.Keys == before.dvs.Keys + {path}
    requires forall p :: DvFor(after, p) == if p == path then DvFor(before, p) + deltas[p] else DvFor(before, p)
    ensures Recorded(after, deltas, done + {path})
  {
    forall p | p in done + {path}
      ensures after.dvs[p] == deltas[p]
    {
      assert DvFor(after, p) == after.dvs[p];
    }
  }

  lemma AllRecorded(txn: Txn, deltas: map<DataPath, Bitmap>)
    requires Recorded(txn, deltas, deltas.Keys)
    ensures txn.dvs == deltas
  {
  }

  lemma NoDeltas(sys: Sys, disk: Disk, v: Version, m: Mem)
    ensures DeltasSound(sys, disk, v, m, map[])
  {
  }

  lemma EntriesAre(env: Env, m: Mem, entries: seq<MemRec>)
    requires MemSound(env, m) && Lists(Recs(env, m.slots), |m.slots|, EVERYTHING, SEQNUM_MAX, {}, entries)
    ensures EntriesOf(env, m, entries)
    ensures forall i :: 0 <= i < |entries| ==> entries[i].key.seqno < U64_MAX
    ensures entries == [] ==> m.slots == []
  {
    hide Lists, InMem, TopIn;
    SoundIsOk(env, m);
    EntrySeqs(env, m, entries);
    if m.slots != [] {
      var v := Canon(Recs(env, m.slots)[0]);
      SlotInMem(env, m);
      EveryKeyListed(env, m, entries, v);
    }
  }

  lemma SlotInMem(env: Env, m: Mem)
    requires MemOk(env, m) && m.slots != []
    ensures InMem(env, m, Canon(Recs(env, m.slots)[0]))
  {
    assert Recs(env, m.slots)[0] in Recs(env, m.slots);
  }

  lemma EntriesAscend(env: Env, m: Mem, entries: seq<MemRec>)
    requires MemSound(env, m) && EntriesOf(env, m, entries)
    ensures StrictlyAscending(entries)
  {
  }

  lemma EntrySeqs(env: Env, m: Mem, entries: seq<MemRec>)
    requires MemSound(env, m) && EntriesOf(env, m, entries)
    ensures forall i :: 0 <= i < |entries| ==> entries[i].key.seqno < U64_MAX
  {
    hide EntriesOf, InMem, TopIn;
    forall i | 0 <= i < |entries|
      ensures entries[i].key.seqno < U64_MAX
    {
      EntryIsTop(env, m, entries, i);
    }
  }

  /** The keys of the entries are the keys of the memtable. */
  lemma EntryKeys(env: Env, m: Mem, entries: seq<MemRec>, keys: seq<bytes>)
    requires MemSound(env, m) && EntriesOf(env, m, entries) && DvResolve.KeysAscend(keys)
    requires forall uk :: uk in keys <==> exists i :: 0 <= i < |entries| && entries[i].key.uk == uk
    ensures KeysOf(env, m, keys)
  {
    hide MemSound, EntriesOf, InMem, DvResolve.KeysAscend;
    SoundIsOk(env, m);
    forall uk
      ensures uk in keys <==> HasKey(env, m, uk)
    {
      if uk in keys {
        var i :| 0 <= i < |entries| && entries[i].key.uk == uk;
        EntryIsTop(env, m, entries, i);
      }
      if HasKey(env, m, uk) {
        var v :| InMem(env, m, v) && v.key.uk == uk;
        EveryKeyListed(env, m, entries, v);
      }
    }
  }

  lemma FailedNothing(s: Store)
    ensures Failed(s, s)
  {
  }

  lemma OkRefs(codec: Codec, s: Store)
    requires CatalogOk(codec, s)
    ensures RefsOlder(s)
  {
    hide LoadDv, UniquePaths;
    forall e | LiveEntry(s.manifest.entries, e)
      ensures RefOlder(e.dv, s.nextVer)
    {
      assert DvOk(codec, s, e);
    }
  }

  lemma OldestSound(sys: Sys, s: State)
    requires Flushable(sys, s) && s.queue != []
    ensures MemSound(sys.env, s.queue[0]) && MemOk(sys.env, s.queue[0]) && s.phase == Idle
  {
    hide MemSound, VersionOk, CatalogOk, SysOk, PhaseOk;
    assert MemSound(sys.env, MemAt(s, 1));
    SoundIsOk(sys.env, s.queue[0]);
  }

  lemma IdleVersion(sys: Sys, s: State)
    requires PhaseOk(sys, s) && s.phase == Idle
    ensures s.version == VersionOf(s.store.manifest)
  {
  }

  lemma InvFlushable(sys: Sys, s: State, spec: Spec)
    requires Inv(sys, s, spec) && s.phase == Idle
    ensures Flushable(sys, s)
  {
  }

  lemma FailedQueue(sys: Sys, s: State, t: State)
    requires FlushFails(sys, s, t)
    ensures t.queue == s.queue && t.phase == Idle && SameRest(s, t)
  {
    hide Failed;
  }

  /** The active memtable, the counters and the cache are as they were. */
  predicate SameRest(s: State, t: State) {
    t.active == s.active && t.counter == s.counter && t.visible == s.visible && t.cache == s.cache
  }

  lemma CommittedQueue(sys: Sys, s: State, job: Job)
    requires CanCommit(sys, s, job) && CommitOk(sys.codec, s.store, TxnOf(sys, job))
    ensures CommitFlush(sys, s, job).queue == s.queue != [] && CommitFlush(sys, s, job).phase.Committed?
    ensures SameRest(s, CommitFlush(sys, s, job))
    ensures job.m == s.queue[0]
  {
    hide JobReady, CommitOk, StoreAfter, VersionOf, Rows;
  }

  /** The commit succeeds exactly if the flush does, once the deltas are there. */
  lemma FlushCommits(sys: Sys, s: State, job: Job, emit: bool, keys: seq<bytes>, faults: Faults)
    requires Flushable(sys, s) && DeltasAre(sys, s, emit, keys, job.deltas)
    ensures CommitOk(sys.codec, s.store, TxnOf(sys, job)) && job.deltas.Keys !! faults.Keys <==>
            MarksWritable(sys, s, emit, keys, faults)
  {
    hide SysOk, MemsSound, CatalogOk, VersionOk, DeltasAre, CommitOk, MarksWritable, VersionOf;
    IdleVersion(sys, s);
    CommitIffWritable(sys, s, job, emit, keys, faults);
  }

  lemma EntriesThere(env: Env, m: Mem, entries: seq<MemRec>)
    requires MemSound(env, m) && EntriesOf(env, m, entries) && entries != []
    ensures m.slots != []
  {
    hide EntriesOf, TopIn, InMem;
    EntryIsTop(env, m, entries, 0);
  }

  /** A memtable that was rotated while not empty has entries. */
  lemma EmptyNeverQueued(sys: Sys, s: State, spec: Spec)
    requires Inv(sys, s, spec) && s.queue != []
    ensures s.queue[0].slots != []
  {
  }

  lemma InvQueue(sys: Sys, s: State, spec: Spec)
    requires Inv(sys, s, spec) && s.phase.Installed?
    ensures s.queue != [] && DropOldest(s).queue == s.queue[1..]
  {
    hide SysOk, CatalogOk, VersionOk, Layered, Counted, Tracks, MemsSound, CacheOk, Adds, VersionOf;
    DropIsTail(s);
  }
}
