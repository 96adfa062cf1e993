/** What one flush does (`run_flush` in `engine/flush.rs`): when it succeeds, and
    what the installed version is then. */
module FlushOutcome {
  import opened Wrappers
  import opened ByteStrings
  import opened Table
  import opened Memtable
  import opened DeletionVector
  import opened Manifest
  import opened Versions
  import opened Catalog
  import opened LiveFiles
  import opened Flush
  import opened FlushCommit
  import opened EngineState
  import opened EngineSteps
  import opened Emission
  import opened UniqueRows
  import DvResolve
  import KeyRange

  /** The rows of a file that the flush marks: what the resolver finds, or none if
      deletion vectors are not emitted. */
  ghost function Marks(sys: Sys, disk: Disk, f: DataFile, emit: bool, keys: seq<bytes>): Bitmap {
    if emit && KeyRange.FileOk(Content(disk, f)) then
      set p: u32 | p in DvResolve.Delta(sys.codec, disk, f, keys)
    else {}
  }

  /** The deltas are the marks of the live files, and no others. */
  ghost predicate DeltasAre(sys: Sys, s: State, emit: bool, keys: seq<bytes>, deltas: map<DataPath, Bitmap>) {
    (emit ==> DvResolve.AllDeltas(sys.codec, DiskOf(s), s.version, keys, deltas)) && (!emit ==> deltas == map[])
  }

  /** Every deletion vector that grows can be encoded and written. */
  ghost predicate MarksWritable(sys: Sys, s: State, emit: bool, keys: seq<bytes>, faults: Faults) {
    forall f :: InVersion(s.version, f) && Marks(sys, DiskOf(s), f, emit, keys) != {} ==>
      f.path !in faults &&
      Encodable(sys.codec, f.path, s.store.nextVer,
                DvOf(sys.codec, DiskOf(s), f) + Marks(sys, DiskOf(s), f, emit, keys))
  }

  /** When a flush of a memtable with these keys succeeds. */
  ghost predicate FlushWorks(sys: Sys, s: State, emit: bool, keys: seq<bytes>, faults: Faults, metadataOk: bool) {
    metadataOk && MarksWritable(sys, s, emit, keys, faults) &&
    (emit ==> !DvResolve.SomeUnresolvable(sys.codec, DiskOf(s), s.version, keys))
  }

  lemma MarkIs(sys: Sys, s: State, emit: bool, keys: seq<bytes>, deltas: map<DataPath, Bitmap>, f: DataFile)
    requires DeltasAre(sys, s, emit, keys, deltas) && InVersion(s.version, f)
    ensures f.path in deltas <==> Marks(sys, DiskOf(s), f, emit, keys) != {}
    ensures f.path in deltas ==> deltas[f.path] == Marks(sys, DiskOf(s), f, emit, keys)
  {
    hide InVersion, DvResolve.Delta, DvResolve.Unresolvable, KeyRange.FileOk, Content;
    if emit {
      assert DvResolve.Contributes(sys.codec, DiskOf(s), f, keys, deltas);
      assert !DvResolve.Unresolvable(sys.codec, DiskOf(s), f, keys);
      DeltaFits(sys.codec, DiskOf(s), f, keys);
    }
  }

  lemma DeltaFits(codec: Codec, disk: Disk, f: DataFile, keys: seq<bytes>)
    requires KeyRange.FileOk(Content(disk, f)) && !DvResolve.Unresolvable(codec, disk, f, keys)
    ensures forall p :: p in DvResolve.Delta(codec, disk, f, keys) ==> 0 <= p < U32
  {
    hide KeyRange.FileOk, DvResolve.Found, LoadDv, DvOf, Content;
  }

  /** What the commit merges for a live file. */
  lemma MergedMarks(sys: Sys, s: State, job: Job, f: DataFile)
    requires CatalogOk(sys.codec, s.store) && InVersion(VersionOf(s.store.manifest), f) && f.path in job.deltas
    ensures Merged(sys.codec, s.store, TxnOf(sys, job), f.path) ==
            Ok(DvOf(sys.codec, DiskOf(s), f) + job.deltas[f.path])
  {
    hide InVersion, VersionOf, CatalogOk, LoadDv, Rows, FindLive;
    var e := EntryOf(s.store.manifest, f);
    MergedIs(sys.codec, s.store, TxnOf(sys, job), e);
  }

  lemma CommitIffWritable(sys: Sys, s: State, job: Job, emit: bool, keys: seq<bytes>, faults: Faults)
    requires CatalogOk(sys.codec, s.store) && s.version == VersionOf(s.store.manifest)
    requires DeltasAre(sys, s, emit, keys, job.deltas)
    ensures CommitOk(sys.codec, s.store, TxnOf(sys, job)) && job.deltas.Keys !! faults.Keys <==>
            MarksWritable(sys, s, emit, keys, faults)
  {
    hide InVersion, VersionOf, CatalogOk, Rows, Merged, Encodable, Marks, DvOf, DvResolve.AllDeltas;
    var txn := TxnOf(sys, job);
    forall f | InVersion(s.version, f)
      ensures f.path in job.deltas <==> Marks(sys, DiskOf(s), f, emit, keys) != {}
      ensures f.path in job.deltas ==>
                Merged(sys.codec, s.store, txn, f.path) ==
                Ok(DvOf(sys.codec, DiskOf(s), f) + Marks(sys, DiskOf(s), f, emit, keys))
    {
      MarkIs(sys, s, emit, keys, job.deltas, f);
      if f.path in job.deltas { MergedMarks(sys, s, job, f); }
    }
    forall p | p in job.deltas
      ensures DvResolve.PathLive(s.version, p)
    {
      DeltaLive(sys, s, emit, keys, job.deltas, p);
    }
  }

  lemma DeltaLive(sys: Sys, s: State, emit: bool, keys: seq<bytes>, deltas: map<DataPath, Bitmap>, p: DataPath)
    requires DeltasAre(sys, s, emit, keys, deltas) && p in deltas
    ensures DvResolve.PathLive(s.version, p)
  {
    hide InVersion, DvResolve.PathLive, DvResolve.Unresolvable, DvResolve.Contributes, KeyRange.FileOk;
  }

  // ── The version afterwards ────────────────────────────────────────────────

  /** File `g` before is file `h` after: same rows, same metadata, and its mask
      grown by exactly the flush's marks. */
  ghost predicate CarriedAs(sys: Sys, s: State, t: State, emit: bool, keys: seq<bytes>, g: DataFile, h: DataFile) {
    h.path == g.path && h.meta == g.meta && Content(DiskOf(t), h) == Content(DiskOf(s), g) &&
    LoadDv(sys.codec, t.store.puffins, h.dv) ==
      Ok(DvOf(sys.codec, DiskOf(s), g) + Marks(sys, DiskOf(s), g, emit, keys))
  }

  ghost predicate GoesOn(sys: Sys, s: State, t: State, emit: bool, keys: seq<bytes>, g: DataFile) {
    exists h :: InVersion(t.version, h) && CarriedAs(sys, s, t, emit, keys, g, h)
  }

  ghost predicate WasThere(sys: Sys, s: State, t: State, emit: bool, keys: seq<bytes>, h: DataFile) {
    exists g :: InVersion(s.version, g) && CarriedAs(sys, s, t, emit, keys, g, h)
  }

  /** File `f` holds the newest record of every key of the memtable, tombstones
      included, each with its payload, and nothing else. */
  ghost predicate SavedIn(sys: Sys, t: State, m: Mem, f: DataFile) {
    MemOk(sys.env, m) && f.dv == NO_DV && f.meta.level == 0 &&
    (forall x :: NewestRec(sys.env, m, x) ==> exists row :: HasRow(DiskOf(t), f, row) && Saves(sys.pkOnly, x, row)) &&
    (forall row :: HasRow(DiskOf(t), f, row) ==> exists x :: NewestRec(sys.env, m, x) && Saves(sys.pkOnly, x, row))
  }

  /** The installed version of `t` is that of `s` after a flush of `m` to `path`. */
  ghost predicate FlushedTo(sys: Sys, s: State, t: State, emit: bool, keys: seq<bytes>, m: Mem, path: DataPath) {
    t.version.snapshotId == s.store.nextVer &&
    (forall g :: InVersion(s.version, g) ==> GoesOn(sys, s, t, emit, keys, g)) &&
    (forall h :: InVersion(t.version, h) ==> h.path == path || WasThere(sys, s, t, emit, keys, h)) &&
    (exists f :: InVersion(t.version, f) && f.path == path && SavedIn(sys, t, m, f)) &&
    (forall f, g :: InVersion(t.version, f) && InVersion(t.version, g) && f.path == g.path ==> f == g)
  }

  /** The state when the flush has committed, installed and dropped. */
  ghost function Flushed(sys: Sys, s: State, job: Job): State
    requires CommitOk(sys.codec, s.store, TxnOf(sys, job)) && s.queue != []
  {
    DropOldest(InstallVersion(CommitFlush(sys, s, job)))
  }

  lemma FlushedFiles(sys: Sys, s: State, t: State, job: Job, emit: bool, keys: seq<bytes>)
    requires JobOk(sys, s.store, s.files, job) && s.version == VersionOf(s.store.manifest)
    requires DeltasAre(sys, s, emit, keys, job.deltas)
    requires t.files == s.files[job.path := sys.writer(RowsOf(sys, job))] && t.store == StoreAfter(sys, s.store, job)
    requires t.version == VersionOf(t.store.manifest)
    ensures FlushedTo(sys, s, t, emit, keys, job.m, job.path)
  {
    hide JobOk, DeltasAre, InVersion, VersionOf, StoreAfter, Rows, CarriedAs, Content, LoadDv, DvOf, NewestRec, Saves,
         HasRow, SavedIn, Marked;
    JobCommits(sys, s.store, s.files, job);
    forall g | InVersion(s.version, g)
      ensures GoesOn(sys, s, t, emit, keys, g)
    {
      var h := FileCarried(sys, s.store, s.files, job, g);
      MarkedIsCarried(sys, s, t, job, emit, keys, g, h);
    }
    forall h | InVersion(t.version, h) && h.path != job.path
      ensures WasThere(sys, s, t, emit, keys, h)
    {
      FileOrigin(sys, s.store, s.files, job, h);
      var g :| InVersion(s.version, g) &&
        Marked(sys, DiskOf(s), DiskAfter(sys, s.store, s.files, job), TxnOf(sys, job), g, h);
      MarkedIsCarried(sys, s, t, job, emit, keys, g, h);
    }
    SavedAfter(sys, s, t, job);
    AfterUnique(sys, s, t, job);
    NextSnapshot(sys, s, t, job);
  }

  lemma MarkedIsCarried(sys: Sys, s: State, t: State, job: Job, emit: bool, keys: seq<bytes>, g: DataFile, h: DataFile)
    requires JobOk(sys, s.store, s.files, job) && s.version == VersionOf(s.store.manifest)
    requires DeltasAre(sys, s, emit, keys, job.deltas) && InVersion(s.version, g)
    requires CommitOk(sys.codec, s.store, TxnOf(sys, job))
    requires t.files == s.files[job.path := sys.writer(RowsOf(sys, job))] && t.store == StoreAfter(sys, s.store, job)
    requires Marked(sys, DiskOf(s), DiskAfter(sys, s.store, s.files, job), TxnOf(sys, job), g, h)
    ensures CarriedAs(sys, s, t, emit, keys, g, h)
  {
    hide JobOk, DeltasAre, InVersion, VersionOf, StoreAfter, Rows, LoadDv, DvOf, CommitOk, Marks;
    OldPath(sys, s.store, s.files, job, g);
    MarkIs(sys, s, emit, keys, job.deltas, g);
    assert Marks(sys, DiskOf(s), g, emit, keys) == DvFor(TxnOf(sys, job), g.path);
  }

  lemma SavedAfter(sys: Sys, s: State, t: State, job: Job)
    requires JobOk(sys, s.store, s.files, job) && CommitOk(sys.codec, s.store, TxnOf(sys, job))
    requires t.files == s.files[job.path := sys.writer(RowsOf(sys, job))] && t.store == StoreAfter(sys, s.store, job)
    requires t.version == VersionOf(t.store.manifest)
    ensures exists f :: InVersion(t.version, f) && f.path == job.path && SavedIn(sys, t, job.m, f)
  {
    hide JobOk, InVersion, VersionOf, StoreAfter, Rows, CommitOk, NewestRec, Saves, HasRow;
    JobCommits(sys, s.store, s.files, job);
    FileSavesNewest(sys, s.store, s.files, job);
    assert DiskOf(t) == DiskAfter(sys, s.store, s.files, job);
    SoundIsOk(sys.env, job.m);
    assert SavedIn(sys, t, job.m, DataFile(job.path, job.meta, NO_DV));
  }

  /** Live files still have different paths. */
  lemma AfterUnique(sys: Sys, s: State, t: State, job: Job)
    requires JobOk(sys, s.store, s.files, job) && CommitOk(sys.codec, s.store, TxnOf(sys, job))
    requires t.store == StoreAfter(sys, s.store, job) && t.version == VersionOf(t.store.manifest)
    ensures forall f, g :: InVersion(t.version, f) && InVersion(t.version, g) && f.path == g.path ==> f == g
  {
    hide JobOk, InVersion, VersionOf, StoreAfter, CommitOk, LoadDv;
    CommitStoreOk(sys, s.store, s.files, job);
    forall f, g | InVersion(t.version, f) && InVersion(t.version, g) && f.path == g.path
      ensures f == g
    {
      var d := EntryOf(t.store.manifest, f);
      var e := EntryOf(t.store.manifest, g);
      FindsEntry(t.store.manifest.entries, d);
      FindsEntry(t.store.manifest.entries, e);
    }
  }

  lemma NextSnapshot(sys: Sys, s: State, t: State, job: Job)
    requires CommitOk(sys.codec, s.store, TxnOf(sys, job))
    requires t.store == StoreAfter(sys, s.store, job) && t.version == VersionOf(t.store.manifest)
    ensures t.version.snapshotId == s.store.nextVer
  {
    hide CommitOk, Locations, Catalog.Written, Arranged, Grouped, Rows;
    var txn := TxnOf(sys, job);
    NextIds(s.store.manifest, txn, s.store.nextVer, Locations(sys.codec, s.store, txn));
  }

  /** A successful flush: the version afterwards is the one before with the
      memtable's file added and the marks made, and with deletion vectors it has
      one visible row per key, the newest, if and only if nothing was
      overlooked. */
  lemma FlushedIs(sys: Sys, s: State, spec: Spec, job: Job, emit: bool, keys: seq<bytes>)
    requires Inv(sys, s, spec) && CanCommit(sys, s, job) && CommitOk(sys.codec, s.store, TxnOf(sys, job))
    requires DeltasAre(sys, s, emit, keys, job.deltas) && (emit ==> KeysOf(sys.env, job.m, keys) && keys != [])
    ensures FlushedTo(sys, s, Flushed(sys, s, job), emit, keys, s.queue[0], job.path)
    ensures emit && StateUnique(sys, s) ==>
              (StateUnique(sys, Flushed(sys, s, job)) <==>
               NothingOverlooked(sys, DiskOf(s), s.version, s.queue[0], keys))
  {
    hide MemsSound, Tracks, Layered, Counted, FirstsAscend, CacheOk, CatalogOk, VersionOk, VersionOf, SysOk, JobReady,
         CommitOk, StoreAfter, Rows, DeltasAre, FlushedTo, Unique, NothingOverlooked, Retain, KeysOf;
    assert JobOk(sys, s.store, s.files, job);
    FlushedFiles(sys, s, Flushed(sys, s, job), job, emit, keys);
    if emit && StateUnique(sys, s) {
      EmittedIsResolved(sys, s, job, keys);
      FlushStepIff(sys, s, spec, job, keys);
      FlushUniqueIff(sys, s, spec, job);
    }
  }

  lemma EmittedIsResolved(sys: Sys, s: State, job: Job, keys: seq<bytes>)
    requires DeltasAre(sys, s, true, keys, job.deltas) && KeysOf(sys.env, job.m, keys) && keys != []
    ensures Resolved(sys, DiskOf(s), s.version, job.m, keys, job.deltas)
  {
    hide KeysOf, DvResolve.AllDeltas;
  }
}
