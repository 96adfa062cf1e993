/** The engine's steps, and that each of them keeps the invariant.

    Every step is atomic here: a batch under the WAL lock, a rotation, and the
    three moments of a flush at which other tasks can run in between - commit,
    install, drop.
 */
module EngineSteps {
  import opened Wrappers
  import opened ByteStrings
  import opened Keys
  import opened Table
  import opened Sst
  import opened Memtable
  import opened DeletionVector
  import opened Manifest
  import opened Versions
  import opened Catalog
  import opened LiveFiles
  import opened Flush
  import opened FlushCommit
  import opened EngineState

  // ── Writing ───────────────────────────────────────────────────────────────

  /** A put carries a row; keys are encoded primary keys. */
  ghost predicate RecordOk(sys: Sys, rec: BatchRec) {
    IsUserKey(rec.uk, sys.env.keyTypes) && (rec.op == Put ==> rec.value.Some?)
  }

  function VersionFor(rec: BatchRec, seqno: nat): MemRec {
    Stored(InternalKey(rec.uk, seqno, rec.op), if rec.op == Put then rec.value else None)
  }

  function Without(cache: map<bytes, CacheEntry>, uk: bytes): map<bytes, CacheEntry> {
    map k | k in cache && k != uk :: cache[k]
  }

  /** The state and the reference after one record of a batch. */
  function WriteOne(s: State, rec: BatchRec): State
    requires s.counter < SEQNUM_MAX
  {
    s.(active := s.active.(slots := Insert(s.active.slots, SlotFor(rec, s.counter)),
                           lastSeq := if s.counter > s.active.lastSeq then s.counter else s.active.lastSeq),
       counter := s.counter + 1,
       visible := s.counter,
       cache := Without(s.cache, rec.uk))
  }

  function SpecOne(spec: Spec, rec: BatchRec, seqno: nat): Spec {
    spec[rec.uk := VersionFor(rec, seqno)]
  }

  lemma WriteLayers(sys: Sys, s: State, rec: BatchRec, k: nat, v: MemRec)
    requires MemsSound(sys, s) && Counted(sys, s) && s.counter < SEQNUM_MAX && RecordOk(sys, rec)
    ensures MemOk(sys.env, WriteOne(s, rec).active)
    ensures InLayer(sys, WriteOne(s, rec), k, v) <==>
            InLayer(sys, s, k, v) || (k == Layers(s) && v == VersionFor(rec, s.counter))
  {
    hide InFiles, IsUserKey, Insert, SeqOf, UserKeyOf, EncodeIkey, Less, Tag;
    var t, slot := WriteOne(s, rec), SlotFor(rec, s.counter);
    assert MemSound(sys.env, MemAt(s, Layers(s)));
    SlotForOk(sys.env, rec, s.counter);
    ActiveBelow(sys, s);
    assert SeqOf(slot.key) == s.counter;
    InsertValid(sys.env, s.active.slots, slot);
    if 1 <= k <= Layers(s) {
      assert k < Layers(s) ==> MemAt(t, k) == MemAt(s, k);
      InMemAfterInsert(sys.env, s.active, t.active, slot, v);
    }
  }

  lemma ActiveBelow(sys: Sys, s: State)
    requires MemsSound(sys, s) && Counted(sys, s)
    ensures MemOk(sys.env, s.active) && SeqsBelow(sys.env, s.active.slots, s.counter)
  {
    hide IsUserKey, SeqOf, UserKeyOf, EncodeIkey, Less, InFiles;
    AllReadable(sys, s, Layers(s));
    forall i | 0 <= i < |s.active.slots|
      ensures SlotOk(sys.env, s.active.slots[i]) && SeqOf(s.active.slots[i].key) < s.counter
    {
      assert Recs(sys.env, s.active.slots)[i] in Recs(sys.env, s.active.slots);
    }
  }

  lemma InMemAfterInsert(env: Env, m: Mem, m': Mem, slot: Slot, v: MemRec)
    requires MemOk(env, m) && SlotOk(env, slot) && SeqsBelow(env, m.slots, SeqOf(slot.key))
    requires m'.slots == Insert(m.slots, slot) && MemOk(env, m')
    ensures InMem(env, m', v) <==> InMem(env, m, v) || v == Canon(Decode(slot))
  {
    hide Insert, IsUserKey, SeqOf, UserKeyOf, EncodeIkey, Less, Valid, Recs, Decode;
    forall x
      ensures x in Recs(env, m'.slots) <==> x == Decode(slot) || x in Recs(env, m.slots)
    {
      InsertedRecs(env, m.slots, slot, x);
    }
  }

  lemma WriteSound(sys: Sys, s: State, rec: BatchRec)
    requires MemsSound(sys, s) && Counted(sys, s) && s.counter < SEQNUM_MAX && RecordOk(sys, rec)
    ensures MemsSound(sys, WriteOne(s, rec))
  {
    hide InFiles, IsUserKey, InMem, MemOk, Insert;
    var t := WriteOne(s, rec);
    forall k | 1 <= k <= Layers(t)
      ensures MemSound(sys.env, MemAt(t, k))
    {
      assert MemSound(sys.env, MemAt(s, k));
      if k < Layers(t) {
        assert MemAt(t, k) == MemAt(s, k);
      } else {
        WriteLayers(sys, s, rec, k, VersionFor(rec, s.counter));
        forall v
          ensures InMem(sys.env, t.active, v) <==> InMem(sys.env, s.active, v) || v == VersionFor(rec, s.counter)
          ensures InMem(sys.env, s.active, v) ==> v.key.seqno < s.counter
        {
          WriteLayers(sys, s, rec, k, v);
          assert InLayer(sys, s, k, v) == InMem(sys.env, s.active, v);
        }
      }
    }
  }

  lemma WriteTracks(sys: Sys, s: State, spec: Spec, rec: BatchRec)
    requires MemsSound(sys, s) && Counted(sys, s) && s.counter < SEQNUM_MAX && RecordOk(sys, rec) &&
             Tracks(sys, s, spec)
    requires forall v :: InLayer(sys, s, 0, v) ==> v.key.seqno < s.counter
    ensures Tracks(sys, WriteOne(s, rec), SpecOne(spec, rec, s.counter))
  {
    hide InLayer, RecordOk, MemsSound;
    var t, after, last := WriteOne(s, rec), SpecOne(spec, rec, s.counter), VersionFor(rec, s.counter);
    forall v
      ensures InState(sys, t, v) <==> InState(sys, s, v) || v == last
    {
      forall k: nat
        ensures InLayer(sys, t, k, v) <==> InLayer(sys, s, k, v) || (k == Layers(s) && v == last)
      {
        WriteLayers(sys, s, rec, k, v);
      }
      if InState(sys, s, v) {
        var k: nat :| InLayer(sys, s, k, v);
        assert InLayer(sys, t, k, v);
      }
      if v == last { assert InLayer(sys, t, Layers(s), v); }
    }
    forall v | InState(sys, s, v)
      ensures v.key.seqno < s.counter
    {
      var k: nat :| InLayer(sys, s, k, v);
    }
  }

  lemma FilesCounted(sys: Sys, s: State)
    requires VersionOk(sys.env, sys.codec, DiskOf(s), s.version) && Counted(sys, s)
    ensures forall v :: InLayer(sys, s, 0, v) ==> v.key.seqno <= s.visible < s.counter
  {
    hide VersionOk, InVersion, InMem;
    forall v | InLayer(sys, s, 0, v)
      ensures v.key.seqno <= s.visible
    {
      var x :| OnDisk(sys.codec, DiskOf(s), s.version, x) && FromRow(x) == v;
      var f :| InVersion(s.version, f) && Shows(sys.codec, DiskOf(s), f, x);
      ShownBelow(sys, s, f, x);
    }
  }

  lemma WriteLayered(sys: Sys, s: State, rec: BatchRec)
    requires MemsSound(sys, s) && Counted(sys, s) && Layered(sys, s) && s.counter < SEQNUM_MAX && RecordOk(sys, rec)
    ensures Layered(sys, WriteOne(s, rec)) && Counted(sys, WriteOne(s, rec))
  {
    hide InMem, RecordOk, MemsSound, InFiles, InVersion, Insert;
    var t, n := WriteOne(s, rec), Layers(s);
    forall k: nat, v
      ensures InLayer(sys, t, k, v) <==> InLayer(sys, s, k, v) || (k == n && v == VersionFor(rec, s.counter))
    {
      WriteLayers(sys, s, rec, k, v);
    }
    forall k | 1 <= k <= n
      ensures forall v :: InMem(sys.env, MemAt(t, k), v) <==>
              InMem(sys.env, MemAt(s, k), v) || (k == n && v == VersionFor(rec, s.counter))
    {
      forall v
        ensures InMem(sys.env, MemAt(t, k), v) == InLayer(sys, t, k, v) &&
                InMem(sys.env, MemAt(s, k), v) == InLayer(sys, s, k, v)
      {
      }
    }
    forall k | 1 <= k <= n
      ensures FilesBelow(sys, t.version, MemAt(t, k), Exempt(t, k))
    {
      assert FilesBelow(sys, s.version, MemAt(s, k), Exempt(s, k));
    }
    forall j, k | 1 <= j < k <= n
      ensures Below(sys, MemAt(t, j), MemAt(t, k))
    {
      assert Below(sys, MemAt(s, j), MemAt(s, k));
      forall x | InMem(sys.env, MemAt(t, j), x)
        ensures x.key.seqno < s.counter
      {
        assert InLayer(sys, s, j, x);
      }
    }
  }

  /** One record of a batch. */
  lemma WriteKeepsInv(sys: Sys, s: State, spec: Spec, rec: BatchRec)
    requires Inv(sys, s, spec) && s.counter < SEQNUM_MAX && RecordOk(sys, rec)
    ensures Inv(sys, WriteOne(s, rec), SpecOne(spec, rec, s.counter))
  {
    hide SysOk, MemsSound, Tracks, Layered, Counted, CatalogOk, VersionOk, RecordOk, Successor, Adds, VersionOf,
         Insert;
    var t := WriteOne(s, rec);
    FilesCounted(sys, s);
    WriteSound(sys, s, rec);
    WriteTracks(sys, s, spec, rec);
    WriteLayered(sys, s, rec);
    assert s.queue != [] ==> MemAt(t, 1) == MemAt(s, 1);
    forall j, k | 1 <= j < k <= Layers(t)
      ensures FirstAt(t, j) < FirstAt(t, k)
    {
      assert FirstAt(t, j) == FirstAt(s, j) && FirstAt(t, k) == FirstAt(s, k);
    }
  }

  /** The first `n` records of a batch. */
  function WriteMany(s: State, recs: seq<BatchRec>, n: nat): (t: State)
    requires n <= |recs| && s.counter + n <= SEQNUM_MAX
    ensures t.counter == s.counter + n
  {
    if n == 0 then s else WriteOne(WriteMany(s, recs, n - 1), recs[n - 1])
  }

  function SpecMany(spec: Spec, recs: seq<BatchRec>, base: nat, n: nat): Spec
    requires n <= |recs|
  {
    if n == 0 then spec else SpecOne(SpecMany(spec, recs, base, n - 1), recs[n - 1], base + n - 1)
  }

  lemma {:induction false} BatchKeepsInv(sys: Sys, s: State, spec: Spec, recs: seq<BatchRec>, n: nat)
    requires Inv(sys, s, spec) && n <= |recs| && s.counter + n <= SEQNUM_MAX
    requires forall i :: 0 <= i < |recs| ==> RecordOk(sys, recs[i])
    ensures Inv(sys, WriteMany(s, recs, n), SpecMany(spec, recs, s.counter, n))
  {
    hide Inv, RecordOk, WriteOne, SpecOne;
    if n > 0 {
      BatchKeepsInv(sys, s, spec, recs, n - 1);
      WriteKeepsInv(sys, WriteMany(s, recs, n - 1), SpecMany(spec, recs, s.counter, n - 1), recs[n - 1]);
    }
  }

  /** Record by record and all at once are the same. */
  lemma {:induction false} BatchIsMany(s: State, recs: seq<BatchRec>, n: nat)
    requires n <= |recs| && s.counter + |recs| <= SEQNUM_MAX
    ensures WriteMany(s, recs, n).active == Memtable.Applied(s.active, WriteBatch(s.counter, recs), n)
    ensures WriteMany(s, recs, n) ==
            s.(active := WriteMany(s, recs, n).active, counter := s.counter + n,
               visible := if n == 0 then s.visible else s.counter + n - 1, cache := WriteMany(s, recs, n).cache)
    ensures forall uk :: uk in WriteMany(s, recs, n).cache <==>
            uk in s.cache && forall i :: 0 <= i < n ==> recs[i].uk != uk
    ensures forall uk :: uk in WriteMany(s, recs, n).cache ==> WriteMany(s, recs, n).cache[uk] == s.cache[uk]
  {
    hide Insert, SlotFor;
    if n > 0 { BatchIsMany(s, recs, n - 1); }
  }

  // ── Rotation ──────────────────────────────────────────────────────────────

  /** The active memtable joins the queue; the new one is labelled with the
      counter plus one, although the next write gets the counter itself. */
  function Rotated(s: State): State {
    s.(queue := s.queue + [s.active.(sealed := true)], active := Memtable.Fresh(s.counter + 1))
  }

  lemma EmptyMem(env: Env, firstSeq: nat)
    ensures MemSound(env, Memtable.Fresh(firstSeq))
    ensures forall v :: !InMem(env, Memtable.Fresh(firstSeq), v)
  {
    assert Recs(env, []) == [];
  }

  lemma SealedSame(env: Env, m: Mem)
    ensures forall v :: InMem(env, m.(sealed := true), v) <==> InMem(env, m, v)
    ensures MemSound(env, m) ==> MemSound(env, m.(sealed := true))
  {
    var t := m.(sealed := true);
    assert MemOk(env, t) == MemOk(env, m);
    forall v
      ensures InMem(env, t, v) <==> InMem(env, m, v)
    {
    }
  }

  lemma RotateLayers(sys: Sys, s: State, k: nat, v: MemRec)
    ensures InLayer(sys, Rotated(s), k, v) <==> InLayer(sys, s, k, v)
  {
    hide InFiles, InMem;
    EmptyMem(sys.env, s.counter + 1);
    SealedSame(sys.env, s.active);
  }

  lemma RotateSound(sys: Sys, s: State)
    requires MemsSound(sys, s)
    ensures MemsSound(sys, Rotated(s))
  {
    hide MemSound;
    EmptyMem(sys.env, s.counter + 1);
    SealedSame(sys.env, s.active);
    var t := Rotated(s);
    forall k | 1 <= k <= Layers(t)
      ensures MemSound(sys.env, MemAt(t, k))
    {
      if k < Layers(t) { assert MemSound(sys.env, MemAt(s, k)); }
    }
  }

  lemma RotateLayered(sys: Sys, s: State)
    requires Layered(sys, s) && Counted(sys, s)
    ensures Layered(sys, Rotated(s)) && Counted(sys, Rotated(s))
  {
    hide InMem, InFiles, InVersion;
    EmptyMem(sys.env, s.counter + 1);
    SealedSame(sys.env, s.active);
    var t := Rotated(s);
    forall k, v | 1 <= k
      ensures InLayer(sys, t, k, v) <==> InLayer(sys, s, k, v)
    {
      RotateLayers(sys, s, k, v);
    }
    forall k | 1 <= k < Layers(t)
      ensures forall v :: InMem(sys.env, MemAt(t, k), v) <==> InMem(sys.env, MemAt(s, k), v)
    {
      assert k < Layers(s) ==> MemAt(t, k) == MemAt(s, k);
    }
    forall k | 1 <= k <= Layers(t)
      ensures FilesBelow(sys, t.version, MemAt(t, k), Exempt(t, k))
    {
      if k < Layers(t) { assert FilesBelow(sys, s.version, MemAt(s, k), Exempt(s, k)); }
    }
    forall j, k | 1 <= j < k <= Layers(t)
      ensures Below(sys, MemAt(t, j), MemAt(t, k))
    {
      if k < Layers(t) { assert Below(sys, MemAt(s, j), MemAt(s, k)); }
    }
  }

  /** Rotating keeps memtables distinguishable if the sealed one is not empty. */
  lemma RotateKeepsInv(sys: Sys, s: State, spec: Spec)
    requires Inv(sys, s, spec) && s.active.slots != []
    ensures Inv(sys, Rotated(s), spec)
  {
    hide SysOk, MemsSound, Layered, Counted, CatalogOk, VersionOk, Successor, Adds, VersionOf, InLayer;
    var t := Rotated(s);
    RotateSound(sys, s);
    RotateLayered(sys, s);
    forall v
      ensures InState(sys, t, v) <==> InState(sys, s, v)
    {
      forall k: nat
        ensures InLayer(sys, t, k, v) <==> InLayer(sys, s, k, v)
      {
        RotateLayers(sys, s, k, v);
      }
    }
    assert s.queue != [] ==> MemAt(t, 1) == MemAt(s, 1);
    forall j, k | 1 <= j < k <= Layers(t)
      ensures FirstAt(t, j) < FirstAt(t, k)
    {
      assert FirstAt(t, j) == FirstAt(s, j);
      if k < Layers(t) {
        assert FirstAt(t, k) == FirstAt(s, k);
      } else {
        assert j < Layers(s) ==> FirstAt(s, j) < FirstAt(s, Layers(s));
      }
    }
  }

  // ── Flush: commit ─────────────────────────────────────────────────────────

  /** A flush of the oldest memtable that will commit. */
  ghost predicate CanCommit(sys: Sys, s: State, job: Job) {
    s.phase == Idle && s.queue != [] && job.m == s.queue[0] && JobReady(sys, s.store, s.files, job)
  }

  function CommitFlush(sys: Sys, s: State, job: Job): State
    requires CommitOk(sys.codec, s.store, TxnOf(sys, job))
  {
    s.(store := StoreAfter(sys, s.store, job),
       files := s.files[job.path := sys.writer(RowsOf(sys, job))],
       phase := Committed(VersionOf(StoreAfter(sys, s.store, job).manifest), job.path))
  }

  /** A change of the disk that readers of the installed version cannot see. */
  lemma DiskChangeKeeps(sys: Sys, s: State, spec: Spec, t: State)
    requires Inv(sys, s, spec) && t == s.(store := t.store, files := t.files, phase := t.phase) &&
             !t.phase.Installed? && !s.phase.Installed?
    requires SameReads(sys.codec, DiskOf(s), DiskOf(t), s.version)
    ensures VersionOk(sys.env, sys.codec, DiskOf(t), t.version)
    ensures MemsSound(sys, t) && Tracks(sys, t, spec) && Layered(sys, t) && Counted(sys, t) && FirstsAscend(t) &&
            CacheOk(t, spec)
  {
    hide SysOk, CatalogOk, VersionOk, OnDisk, InVersion, PhaseOk, MemSound, InMem, SameReads;
    SameReadsKeepOk(sys.env, sys.codec, DiskOf(s), DiskOf(t), s.version);
    forall k | 1 <= k <= Layers(t)
      ensures MemAt(t, k) == MemAt(s, k) && Exempt(t, k) == Exempt(s, k) && FirstAt(t, k) == FirstAt(s, k)
    {
    }
    forall k: nat, v
      ensures InLayer(sys, t, k, v) <==> InLayer(sys, s, k, v)
    {
    }
    SameLayersTrack(sys, s, t, spec);
  }

  lemma SameLayersTrack(sys: Sys, s: State, t: State, spec: Spec)
    requires Tracks(sys, s, spec) && forall k: nat, v :: InLayer(sys, t, k, v) <==> InLayer(sys, s, k, v)
    ensures Tracks(sys, t, spec)
  {
    hide InLayer;
    forall v
      ensures InState(sys, t, v) <==> InState(sys, s, v)
    {
    }
  }

  lemma CommitKeepsInv(sys: Sys, s: State, spec: Spec, job: Job)
    requires Inv(sys, s, spec) && CanCommit(sys, s, job)
    ensures CommitOk(sys.codec, s.store, TxnOf(sys, job)) && Inv(sys, CommitFlush(sys, s, job), spec)
  {
    hide MemsSound, Tracks, Layered, Counted, FirstsAscend, CacheOk, CatalogOk, VersionOk, Successor, VersionOf,
         SameReads, JobReady, StoreAfter, SysOk;
    assert JobOk(sys, s.store, s.files, job);
    JobCommits(sys, s.store, s.files, job);
    var t := CommitFlush(sys, s, job);
    assert DiskOf(t) == DiskAfter(sys, s.store, s.files, job);
    OldReadsKept(sys, s.store, s.files, job);
    DiskChangeKeeps(sys, s, spec, t);
    CommitStoreOk(sys, s.store, s.files, job);
    CommitRefsBelow(sys, s.store, s.files, job);
    FlushSucceeds(sys, s.store, s.files, job);
    OldestAbove(sys, s);
    FlushKeepsVersionOk(sys, s.store, s.files, job);
  }

  lemma OldestAbove(sys: Sys, s: State)
    requires Layered(sys, s) && s.phase == Idle && s.queue != []
    ensures FilesBelow(sys, s.version, s.queue[0], None)
  {
    assert FilesBelow(sys, s.version, MemAt(s, 1), Exempt(s, 1));
  }

  lemma CommitRefsBelow(sys: Sys, s: Store, files: map<DataPath, File>, job: Job)
    requires JobOk(sys, s, files, job)
    ensures RefsBelow(VersionOf(s.manifest), StoreAfter(sys, s, job).nextVer)
  {
    hide CatalogOk, CommitOk, VersionOk, DescribesRows, MemSound, EntriesOf, DeltasSound, VersionOf, InVersion, Next;
    assert CommitOk(sys.codec, s, TxnOf(sys, job));
    LiveRefsBelow(sys.codec, s);
  }

  lemma CommitStoreOk(sys: Sys, s: Store, files: map<DataPath, File>, job: Job)
    requires JobOk(sys, s, files, job)
    ensures CatalogOk(sys.codec, StoreAfter(sys, s, job))
  {
    hide CatalogOk, CommitOk, VersionOk, DescribesRows, MemSound, EntriesOf, DeltasSound, After;
    assert CommitOk(sys.codec, s, TxnOf(sys, job));
    CommitKeepsOk(sys.codec, s, TxnOf(sys, job));
  }

  /** A flush that fails leaves at most an orphaned data file and Puffin files
      of the snapshot that was not born. */
  ghost predicate FlushFails(sys: Sys, s: State, t: State) {
    s.phase == Idle && t == s.(store := t.store, files := t.files) && Failed(s.store, t.store) &&
    forall p :: p in s.files ==> p in t.files && t.files[p] == s.files[p]
  }

  lemma FailKeepsInv(sys: Sys, s: State, spec: Spec, t: State)
    requires Inv(sys, s, spec) && FlushFails(sys, s, t)
    ensures Inv(sys, t, spec)
  {
    hide MemsSound, Tracks, Layered, Counted, FirstsAscend, CacheOk, CatalogOk, VersionOk, VersionOf, SysOk, Failed;
    FailedReads(sys, s, t);
    DiskChangeKeeps(sys, s, spec, t);
    FailedKeepsOk(sys.codec, s.store, t.store);
    assert Failed(s.store, t.store);
    FailedManifest(s.store, t.store);
  }

  lemma FailedManifest(s: Store, t: Store)
    requires Failed(s, t)
    ensures t.manifest == s.manifest
  {
  }

  lemma FailedReads(sys: Sys, s: State, t: State)
    requires FlushFails(sys, s, t) && CatalogOk(sys.codec, s.store)
    requires s.version == VersionOf(s.store.manifest) && VersionOk(sys.env, sys.codec, DiskOf(s), s.version)
    ensures SameReads(sys.codec, DiskOf(s), DiskOf(t), s.version)
  {
    hide VersionOf, InVersion, LoadDv, WellFormed, MetaOk, SeqsDescend, Compatible, WellArranged, UniquePaths;
    forall f | InVersion(s.version, f)
      ensures Content(DiskOf(t), f) == Content(DiskOf(s), f) && f.path in t.files
      ensures LoadDv(sys.codec, t.store.puffins, f.dv) == LoadDv(sys.codec, s.store.puffins, f.dv)
    {
      assert FileReady(sys.env, sys.codec, DiskOf(s), f);
      var e := EntryOf(s.store.manifest, f);
      assert DvOk(sys.codec, s.store, e);
      OldCoordsKept(sys.codec, s.store.puffins, t.store.puffins, f.dv, s.store.nextVer);
    }
  }

  // ── Flush: install ────────────────────────────────────────────────────────

  function InstallVersion(s: State): State
    requires s.phase.Committed?
  {
    s.(version := s.phase.next, phase := Installed(s.phase.path))
  }

  /** The file a successor adds is the only one at its path. */
  lemma AddedOnly(sys: Sys, disk: Disk, w: Version, m: Mem, path: DataPath, f: DataFile)
    requires VersionOk(sys.env, sys.codec, disk, w) && Adds(sys, disk, w, m, path) && InVersion(w, f) && f.path == path
    ensures NewFileOf(sys, disk, m, f)
  {
    hide FileReady, WellArranged, InVersion, NewFileOf, NewerRows;
    var g :| InVersion(w, g) && g.path == path && NewFileOf(sys, disk, m, g);
    assert g != f ==> Compatible(disk, f, g);
  }

  lemma NewRowIsTop(sys: Sys, disk: Disk, m: Mem, f: DataFile, x: Rec)
    requires NewFileOf(sys, disk, m, f) && HasRow(disk, f, x)
    ensures TopIn(sys.env, m, FromRow(x)) && InMem(sys.env, m, FromRow(x))
  {
    hide InMem, Content;
  }

  lemma NewFileMax(sys: Sys, disk: Disk, m: Mem, f: DataFile) returns (v: MemRec)
    requires NewFileOf(sys, disk, m, f)
    ensures InMem(sys.env, m, v) && v.key.seqno == f.meta.seqMax
  {
    hide InMem, Content, Image, HasRow, TopIn;
    var x :| HasRow(disk, f, x) && x.key.seqno == f.meta.seqMax;
    NewRowIsTop(sys, disk, m, f, x);
    v := FromRow(x);
  }

  lemma TopIsSaved(sys: Sys, disk: Disk, m: Mem, f: DataFile, v: MemRec) returns (x: Rec)
    requires NewFileOf(sys, disk, m, f) && TopIn(sys.env, m, v)
    ensures HasRow(disk, f, x) && FromRow(x) == v
  {
    hide TopIn, Content, InMem;
    TopUnique(sys.env, m, v, v);
    x :| x in Content(disk, f).rows && x.key.uk == v.key.uk;
    TopUnique(sys.env, m, FromRow(x), v);
  }

  lemma TopUnique(env: Env, m: Mem, v: MemRec, w: MemRec)
    requires TopIn(env, m, v) && TopIn(env, m, w) && v.key.uk == w.key.uk
    ensures v == w && InMem(env, m, v)
  {
    hide InMem;
  }

  lemma NoDvShows(codec: Codec, disk: Disk, f: DataFile, x: Rec)
    requires f.dv == NO_DV && HasRow(disk, f, x)
    ensures Shows(codec, disk, f, x)
  {
    hide LoadDv, Content;
    NoCoords(codec, disk.puffins);
    var pos :| 0 <= pos < |Content(disk, f).rows| && Content(disk, f).rows[pos] == x;
    assert ShowsAt(codec, disk, f, pos);
  }

  /** A row visible after the install was visible before, or is the newest
      version of its key in the flushed memtable. */
  lemma ShownAfter(sys: Sys, disk: Disk, v: Version, w: Version, m: Mem, path: DataPath, x: Rec)
    requires VersionOk(sys.env, sys.codec, disk, w) && Successor(sys, disk, v, w, m, path) &&
             OnDisk(sys.codec, disk, w, x)
    ensures OnDisk(sys.codec, disk, v, x) || TopIn(sys.env, m, FromRow(x))
  {
    hide VersionOk, InVersion, TopIn, Shows, NewFileOf, Grown;
    var h :| InVersion(w, h) && Shows(sys.codec, disk, h, x);
    if h.path == path {
      AddedOnly(sys, disk, w, m, path, h);
      ShownIsRow(sys.codec, disk, h, x);
      NewRowIsTop(sys, disk, m, h, x);
    } else {
      assert ComesFrom(sys, disk, v, m, h);
      var g :| InVersion(v, g) && Grown(sys, disk, m, g, h);
      GrownShows(sys, disk, m, g, h, x);
    }
  }

  lemma GrownShows(sys: Sys, disk: Disk, m: Mem, g: DataFile, h: DataFile, x: Rec)
    requires Grown(sys, disk, m, g, h)
    ensures Shows(sys.codec, disk, h, x) ==> Shows(sys.codec, disk, g, x)
    ensures Shows(sys.codec, disk, g, x) ==> Shows(sys.codec, disk, h, x) || HasKey(sys.env, m, x.key.uk)
  {
    hide HasKey, DvOf;
    assert Content(disk, h) == Content(disk, g);
    if Shows(sys.codec, disk, h, x) {
      var pos: nat :| ShowsAt(sys.codec, disk, h, pos) && Content(disk, h).rows[pos] == x;
      assert ShowsAt(sys.codec, disk, g, pos);
    }
    if Shows(sys.codec, disk, g, x) {
      var pos: nat :| ShowsAt(sys.codec, disk, g, pos) && Content(disk, g).rows[pos] == x;
      if pos in DvOf(sys.codec, disk, h) {
        assert SupersededBy(sys, disk, m, g, pos);
      } else {
        assert ShowsAt(sys.codec, disk, h, pos);
      }
    }
  }

  /** A row visible before is still visible unless the memtable has its key. */
  lemma ShownBefore(sys: Sys, disk: Disk, v: Version, w: Version, m: Mem, path: DataPath, x: Rec)
    requires Successor(sys, disk, v, w, m, path) && OnDisk(sys.codec, disk, v, x)
    ensures OnDisk(sys.codec, disk, w, x) || HasKey(sys.env, m, x.key.uk)
  {
    hide InVersion, HasKey, Adds, Shows, Grown;
    var g :| InVersion(v, g) && Shows(sys.codec, disk, g, x);
    assert GoesTo(sys, disk, w, m, path, g);
    var h :| InVersion(w, h) && h.path != path && Grown(sys, disk, m, g, h);
    GrownShows(sys, disk, m, g, h, x);
  }

  lemma InstallTracks(sys: Sys, s: State, spec: Spec)
    requires Inv(sys, s, spec) && s.phase.Committed?
    ensures Tracks(sys, InstallVersion(s), spec)
  {
    hide SysOk, CatalogOk, VersionOk, OnDisk, InMem, Successor, Counted, FirstsAscend, CacheOk, MemSound, VersionOf,
         FilesBelow, Below;
    var t, m := InstallVersion(s), MemAt(s, 1);
    forall k, v | 1 <= k
      ensures InLayer(sys, t, k, v) <==> InLayer(sys, s, k, v)
    {
      assert k <= Layers(s) ==> MemAt(t, k) == MemAt(s, k);
    }
    forall v | InState(sys, t, v)
      ensures v.key.uk in spec && NotNewer(v, spec[v.key.uk])
    {
      var k: nat :| InLayer(sys, t, k, v);
      if k == 0 {
        var x :| OnDisk(sys.codec, DiskOf(s), t.version, x) && FromRow(x) == v;
        ShownAfter(sys, DiskOf(s), s.version, t.version, m, s.phase.path, x);
        assert InLayer(sys, s, 0, v) || InLayer(sys, s, 1, v);
      } else {
        assert InLayer(sys, s, k, v);
      }
    }
    forall uk | uk in spec
      ensures spec[uk].key.uk == uk && InState(sys, t, spec[uk])
    {
      var v := spec[uk];
      var k: nat :| InLayer(sys, s, k, v);
      if k == 0 {
        var x :| OnDisk(sys.codec, DiskOf(s), s.version, x) && FromRow(x) == v;
        ShownBefore(sys, DiskOf(s), s.version, t.version, m, s.phase.path, x);
        if OnDisk(sys.codec, DiskOf(s), t.version, x) {
          assert InLayer(sys, t, 0, v);
        } else {
          var w :| InMem(sys.env, m, w) && w.key.uk == uk;
          assert InLayer(sys, s, 1, w);
          FileVersionOlder(sys, s, v, w);
        }
      } else {
        assert InLayer(sys, t, k, v);
      }
    }
  }

  lemma FileVersionOlder(sys: Sys, s: State, v: MemRec, w: MemRec)
    requires Layered(sys, s) && VersionOk(sys.env, sys.codec, DiskOf(s), s.version) && !s.phase.Installed?
    requires InLayer(sys, s, 0, v) && InLayer(sys, s, 1, w)
    ensures v.key.seqno < w.key.seqno
  {
    hide VersionOk, InMem, InVersion;
    var x :| OnDisk(sys.codec, DiskOf(s), s.version, x) && FromRow(x) == v;
    var f :| InVersion(s.version, f) && Shows(sys.codec, DiskOf(s), f, x);
    ShownBelow(sys, s, f, x);
    assert FilesBelow(sys, s.version, MemAt(s, 1), Exempt(s, 1));
  }

  /** Every file of the new version is an old one or holds the newest sequence
      number of the flushed memtable. */
  lemma SuccessorSeqs(sys: Sys, disk: Disk, v: Version, w: Version, m: Mem, path: DataPath, h: DataFile)
    requires VersionOk(sys.env, sys.codec, disk, w) && Successor(sys, disk, v, w, m, path) && InVersion(w, h)
    ensures if h.path == path then exists x :: InMem(sys.env, m, x) && x.key.seqno == h.meta.seqMax
            else exists g :: InVersion(v, g) && g.meta == h.meta && g.path == h.path
  {
    hide VersionOk, InVersion, InMem, NewFileOf, Grown, Adds;
    if h.path == path {
      AddedOnly(sys, disk, w, m, path, h);
      var x := NewFileMax(sys, disk, m, h);
    } else {
      assert ComesFrom(sys, disk, v, m, h);
      var g :| InVersion(v, g) && Grown(sys, disk, m, g, h);
      GrownMeta(sys, disk, m, g, h);
    }
  }

  lemma GrownMeta(sys: Sys, disk: Disk, m: Mem, g: DataFile, h: DataFile)
    requires Grown(sys, disk, m, g, h)
    ensures h.meta == g.meta && h.path == g.path
  {
  }

  lemma InstallLayered(sys: Sys, s: State, spec: Spec)
    requires Inv(sys, s, spec) && s.phase.Committed?
    ensures Layered(sys, InstallVersion(s)) && Counted(sys, InstallVersion(s))
  {
    hide SysOk, CatalogOk, VersionOk, InFiles, InMem, Successor, InVersion, FirstsAscend, CacheOk, MemSound, VersionOf,
         Tracks, MemsSound;
    var t, m := InstallVersion(s), MemAt(s, 1);
    forall k | 1 <= k <= Layers(t)
      ensures MemAt(t, k) == MemAt(s, k)
    {
    }
    forall h | InVersion(t.version, h)
      ensures h.meta.seqMax <= s.visible
      ensures forall k, x :: 1 <= k <= Layers(s) && Some(h.path) != Exempt(t, k) && InMem(sys.env, MemAt(s, k), x) ==>
              h.meta.seqMax < x.key.seqno
    {
      SuccessorSeqs(sys, DiskOf(s), s.version, t.version, m, s.phase.path, h);
      if h.path == s.phase.path {
        var y :| InMem(sys.env, m, y) && y.key.seqno == h.meta.seqMax;
        assert InLayer(sys, s, 1, y);
        forall k, x | 1 <= k <= Layers(s) && Some(h.path) != Exempt(t, k) && InMem(sys.env, MemAt(s, k), x)
          ensures h.meta.seqMax < x.key.seqno
        {
          assert Below(sys, MemAt(s, 1), MemAt(s, k));
        }
      } else {
        var g :| InVersion(s.version, g) && g.meta == h.meta && g.path == h.path;
        forall k, x | 1 <= k <= Layers(s) && InMem(sys.env, MemAt(s, k), x)
          ensures h.meta.seqMax < x.key.seqno
        {
          assert FilesBelow(sys, s.version, MemAt(s, k), Exempt(s, k));
        }
      }
    }
    forall k, v | 1 <= k
      ensures InLayer(sys, t, k, v) <==> InLayer(sys, s, k, v)
    {
    }
  }

  lemma InstallKeepsInv(sys: Sys, s: State, spec: Spec)
    requires Inv(sys, s, spec) && s.phase.Committed?
    ensures Inv(sys, InstallVersion(s), spec)
  {
    hide SysOk, CatalogOk, VersionOk, Tracks, Layered, Counted, VersionOf, Adds, InVersion, MemSound;
    var t := InstallVersion(s);
    InstallTracks(sys, s, spec);
    InstallLayered(sys, s, spec);
    forall k | 1 <= k <= Layers(t)
      ensures MemAt(t, k) == MemAt(s, k) && FirstAt(t, k) == FirstAt(s, k)
    {
    }
  }

  // ── Flush: drop ───────────────────────────────────────────────────────────

  function DropOldest(s: State): State
    requires s.phase.Installed? && s.queue != []
  {
    s.(queue := Retain(s.queue, s.queue[0].firstSeq), phase := Idle)
  }

  /** Exactly the flushed memtable goes. */
  lemma DropIsTail(s: State)
    requires FirstsAscend(s) && s.phase.Installed? && s.queue != []
    ensures DropOldest(s).queue == s.queue[1..]
    ensures forall k :: 1 <= k <= Layers(DropOldest(s)) ==> MemAt(DropOldest(s), k) == MemAt(s, k + 1)
  {
    forall i | 0 < i < |s.queue|
      ensures s.queue[i].firstSeq != s.queue[0].firstSeq
    {
      assert FirstAt(s, 1) < FirstAt(s, i + 1);
    }
    DropExact(s.queue);
  }

  /** What the dropped memtable had of newest versions is in the file. */
  lemma DroppedIsSaved(sys: Sys, s: State, v: MemRec)
    requires PhaseOk(sys, s) && s.phase.Installed? && TopIn(sys.env, MemAt(s, 1), v)
    ensures InFiles(sys, DiskOf(s), s.version, v)
  {
    hide InVersion, VersionOf, VersionOk, TopIn, NewFileOf, Shows;
    var disk, m := DiskOf(s), MemAt(s, 1);
    var f :| InVersion(s.version, f) && f.path == s.phase.path && NewFileOf(sys, disk, m, f);
    var x := TopIsSaved(sys, disk, m, f, v);
    NewFileDv(sys, disk, m, f);
    NoDvShows(sys.codec, disk, f, x);
  }

  lemma NewFileDv(sys: Sys, disk: Disk, m: Mem, f: DataFile)
    requires NewFileOf(sys, disk, m, f)
    ensures f.dv == NO_DV
  {
  }

  lemma DropTracks(sys: Sys, s: State, spec: Spec)
    requires Inv(sys, s, spec) && s.phase.Installed?
    ensures Tracks(sys, DropOldest(s), spec)
  {
    hide SysOk, CatalogOk, VersionOk, InFiles, InMem, Counted, CacheOk, MemSound, VersionOf, Layered, MemsSound, Adds;
    var t := DropOldest(s);
    DropIsTail(s);
    forall k, v | 1 <= k
      ensures InLayer(sys, t, k, v) <==> InLayer(sys, s, k + 1, v)
    {
    }
    forall v | InState(sys, t, v)
      ensures InState(sys, s, v)
    {
      var k: nat :| InLayer(sys, t, k, v);
      assert if k == 0 then InLayer(sys, s, 0, v) else InLayer(sys, s, k + 1, v);
    }
    forall uk | uk in spec
      ensures InState(sys, t, spec[uk])
    {
      var v := spec[uk];
      var k: nat :| InLayer(sys, s, k, v);
      if k == 1 {
        forall w | InMem(sys.env, MemAt(s, 1), w) && w.key.uk == uk
          ensures NotNewer(w, v)
        {
          assert InLayer(sys, s, 1, w);
        }
        DroppedIsSaved(sys, s, v);
      }
      assert if k <= 1 then InLayer(sys, t, 0, v) else InLayer(sys, t, k - 1, v);
    }
  }

  lemma DropLayered(sys: Sys, s: State, spec: Spec)
    requires Inv(sys, s, spec) && s.phase.Installed?
    ensures Layered(sys, DropOldest(s)) && Counted(sys, DropOldest(s)) && MemsSound(sys, DropOldest(s)) &&
            FirstsAscend(DropOldest(s))
  {
    hide SysOk, CatalogOk, VersionOk, InFiles, InMem, InVersion, CacheOk, MemSound, VersionOf, Tracks, Adds,
         FilesBelow, Below;
    var t := DropOldest(s);
    DropIsTail(s);
    forall j, k | 1 <= j < k <= Layers(t)
      ensures Below(sys, MemAt(t, j), MemAt(t, k)) && FirstAt(t, j) < FirstAt(t, k)
    {
      assert Below(sys, MemAt(s, j + 1), MemAt(s, k + 1)) && FirstAt(s, j + 1) < FirstAt(s, k + 1);
    }
    forall k | 1 <= k <= Layers(t)
      ensures FilesBelow(sys, t.version, MemAt(t, k), Exempt(t, k)) && MemSound(sys.env, MemAt(t, k))
    {
      assert FilesBelow(sys, s.version, MemAt(s, k + 1), Exempt(s, k + 1)) && MemSound(sys.env, MemAt(s, k + 1));
    }
    forall k, v | 1 <= k && InLayer(sys, t, k, v)
      ensures v.key.seqno <= t.visible
    {
      assert InLayer(sys, s, k + 1, v);
    }
  }

  lemma DropKeepsInv(sys: Sys, s: State, spec: Spec)
    requires Inv(sys, s, spec) && s.phase.Installed?
    ensures Inv(sys, DropOldest(s), spec)
  {
    hide SysOk, CatalogOk, VersionOk, Tracks, Layered, Counted, VersionOf, Adds, MemsSound, FirstsAscend;
    DropTracks(sys, s, spec);
    DropLayered(sys, s, spec);
  }
}
