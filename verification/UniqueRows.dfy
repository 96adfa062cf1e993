/** With deletion vectors emitted at every flush, external readers should see
    one row per key: the rows not masked contain each key at most once, and that
    row is its newest version on disk.

    A flush keeps this if and only if the resolver overlooks none of the rows it
    supersedes. It overlooks none in files with one row per key, which is what
    flushes write, under any schema whose keys do not encode to nothing.
 */
module UniqueRows {
  import opened Wrappers
  import opened ByteStrings
  import opened Keys
  import opened Table
  import opened Sst
  import opened Memtable
  import opened DeletionVector
  import opened Manifest
  import opened Versions
  import opened Catalog
  import opened LiveFiles
  import opened Flush
  import opened FlushCommit
  import opened EngineState
  import opened EngineSteps
  import opened EngineRuns
  import opened Emission
  import DvResolve
  import KeyRange

  // ── One flush ─────────────────────────────────────────────────────────────

  /** No unmasked row of a key of the memtable escapes the resolver. */
  ghost predicate NothingOverlooked(sys: Sys, disk: Disk, v: Version, m: Mem, keys: seq<bytes>) {
    keys != [] &&
    forall f, p: nat :: InVersion(v, f) && SupersededBy(sys, disk, m, f, p) && p !in DvOf(sys.codec, disk, f) ==>
      KeyRange.FileOk(Content(disk, f)) && !DvResolve.Overlooked(disk, f, keys, p)
  }

  /** The resolver's deltas are complete exactly then. */
  lemma CompleteIffNothingOverlooked(sys: Sys, disk: Disk, v: Version, m: Mem, keys: seq<bytes>,
                                     deltas: map<DataPath, Bitmap>)
    requires VersionOk(sys.env, sys.codec, disk, v) && Resolved(sys, disk, v, m, keys, deltas)
    ensures DeltasComplete(sys, disk, v, m, deltas) <==> NothingOverlooked(sys, disk, v, m, keys)
  {
    hide VersionOk, InVersion, DvOf, KeyRange.FileOk, HasKey, DvResolve.AllDeltas, DvResolve.Overlooked, KeysOf;
    forall f, p: nat | InVersion(v, f) && SupersededBy(sys, disk, m, f, p) && p !in DvOf(sys.codec, disk, f)
      ensures KeyRange.FileOk(Content(disk, f))
      ensures f.path in deltas && p in deltas[f.path] <==> !DvResolve.Overlooked(disk, f, keys, p)
    {
      DeltaOfFile(sys, disk, v, m, keys, deltas, f, p);
    }
  }

  /** If some superseded row is not marked, the flush leaves two visible rows of
      its key. */
  lemma UnmarkedIsSecond(sys: Sys, s: Store, files: map<DataPath, File>, job: Job, g: DataFile, p: nat)
    requires JobOk(sys, s, files, job) && InVersion(VersionOf(s.manifest), g)
    requires SupersededBy(sys, Disk(files, s.puffins), job.m, g, p) && p !in DvOf(sys.codec, Disk(files, s.puffins), g)
    requires !(g.path in job.deltas && p in job.deltas[g.path])
    ensures !OneRowPerKey(sys.codec, DiskAfter(sys, s, files, job), VersionOf(StoreAfter(sys, s, job).manifest))
  {
    hide JobOk, InVersion, VersionOf, StoreAfter, HasKey, LoadDv, NewFileOf, HasRow;
    JobCommits(sys, s, files, job);
    var before, disk := Disk(files, s.puffins), DiskAfter(sys, s, files, job);
    var w, f := VersionOf(StoreAfter(sys, s, job).manifest), DataFile(job.path, job.meta, NO_DV);
    var h := FileCarried(sys, s, files, job, g);
    OldReadsKept(sys, s, files, job);
    OldPath(sys, s, files, job, g);
    assert Content(before, g) == Content(disk, g) == Content(disk, h);
    assert ShowsAt(sys.codec, disk, h, p);
    FileAdded(sys, s, files, job);
    AddedIsNewFile(sys, s, files, job);
    var z := KeyIsSaved(sys, disk, job.m, f, Content(disk, h).rows[p].key.uk);
    var q := NewRowShown(sys, disk, job.m, f, z);
    assert SameKey(disk, h, p, f, q) && h != f;
  }

  lemma NewRowShown(sys: Sys, disk: Disk, m: Mem, f: DataFile, z: Rec) returns (q: nat)
    requires NewFileOf(sys, disk, m, f) && HasRow(disk, f, z)
    ensures ShowsAt(sys.codec, disk, f, q) && Content(disk, f).rows[q] == z
  {
    hide NewFileOf, HasRow, DvOf, Content;
    NewFileDv(sys, disk, m, f);
    NoDvShows(sys.codec, disk, f, z);
    q :| ShowsAt(sys.codec, disk, f, q) && Content(disk, f).rows[q] == z;
  }

  /** A flush keeps one visible row per key if and only if it marks every row it
      supersedes. */
  lemma FlushUniqueIff(sys: Sys, s: State, spec: Spec, job: Job)
    requires Inv(sys, s, spec) && CanCommit(sys, s, job) && Unique(sys, DiskOf(s), s.version)
    ensures CommitOk(sys.codec, s.store, TxnOf(sys, job))
    ensures
      var t := CommitFlush(sys, s, job);
      Unique(sys, DiskOf(t), s.version) &&
      (Unique(sys, DiskOf(t), VersionOf(t.store.manifest)) <==>
        DeltasComplete(sys, DiskOf(s), s.version, job.m, job.deltas))
  {
    hide MemsSound, Tracks, Layered, Counted, FirstsAscend, CacheOk, CatalogOk, VersionOk, Successor, VersionOf,
         SameReads, JobReady, StoreAfter, SysOk, OneRowPerKey, NewestShown, MarksAll, SupersededBy, InVersion;
    assert JobOk(sys, s.store, s.files, job);
    JobCommits(sys, s.store, s.files, job);
    var t := CommitFlush(sys, s, job);
    var disk, w := DiskOf(t), VersionOf(t.store.manifest);
    assert disk == DiskAfter(sys, s.store, s.files, job);
    OldReadsKept(sys, s.store, s.files, job);
    SameReadsKeepUnique(sys, DiskOf(s), disk, s.version);
    if DeltasComplete(sys, DiskOf(s), s.version, job.m, job.deltas) {
      CommitKeepsInv(sys, s, spec, job);
      CompleteMarksAll(sys, s.store, s.files, job);
      OldestAbove(sys, s);
      FlushKeepsUnique(sys, disk, s.version, w, job.m, job.path);
    } else {
      var g, p: nat :| InVersion(s.version, g) && SupersededBy(sys, DiskOf(s), job.m, g, p) &&
        !(p in DvOf(sys.codec, DiskOf(s), g) || (g.path in job.deltas && p in job.deltas[g.path]));
      UnmarkedIsSecond(sys, s.store, s.files, job, g, p);
    }
  }

  lemma SameReadsKeepUnique(sys: Sys, before: Disk, after: Disk, v: Version)
    requires SameReads(sys.codec, before, after, v) && Unique(sys, before, v)
    ensures Unique(sys, after, v)
  {
    hide InVersion, Content, LoadDv;
    forall f, p: nat | InVersion(v, f)
      ensures ShowsAt(sys.codec, after, f, p) == ShowsAt(sys.codec, before, f, p)
    {
    }
    forall f, x | InVersion(v, f) && HasRow(after, f, x)
      ensures ShownFor(sys.codec, after, v, x)
    {
      assert HasRow(before, f, x);
      assert ShownFor(sys.codec, before, v, x);
      var y :| OnDisk(sys.codec, before, v, y) && y.key.uk == x.key.uk && y.key.seqno >= x.key.seqno;
      var g :| InVersion(v, g) && Shows(sys.codec, before, g, y);
      SameShown(sys.codec, before, after, g, y);
      assert OnDisk(sys.codec, after, v, y);
    }
  }

  // ── Whole runs ────────────────────────────────────────────────────────────

  /** The installed version and the committed one have one row per key. */
  ghost predicate StateUnique(sys: Sys, s: State) {
    Unique(sys, DiskOf(s), s.version) && (s.phase.Committed? ==> Unique(sys, DiskOf(s), s.phase.next))
  }

  /** Every flush hands the memtable's keys to the resolver. */
  ghost predicate Emits(sys: Sys, s: State, step: Step) {
    step.Flush? ==> Resolved(sys, DiskOf(s), s.version, step.job.m, step.keys, step.job.deltas)
  }

  /** A flush step whose resolver overlooks nothing; any other step. */
  ghost predicate Thorough(sys: Sys, s: State, step: Step) {
    step.Flush? ==> NothingOverlooked(sys, DiskOf(s), s.version, step.job.m, step.keys)
  }

  lemma StepUniqueIff(sys: Sys, s: State, spec: Spec, step: Step, s': State, spec': Spec)
    requires Inv(sys, s, spec) && EngineRuns.Next(sys, s, spec, step, s', spec') && Emits(sys, s, step)
    requires StateUnique(sys, s)
    ensures StateUnique(sys, s') <==> Thorough(sys, s, step)
  {
    hide CanCommit, RecordOk, SpecMany, CanFill, Unique, Resolved, Memtable.Fresh, Insert, MemsSound, Tracks, Layered,
         Counted, FirstsAscend, CacheOk, CatalogOk, VersionOk, Successor, VersionOf, Adds, SysOk, CommitFlush,
         CommitOk, Retain, NothingOverlooked, FlushFails;
    match step
    case Write(recs) => BatchDisk(s, recs, |recs|);
    case Flush(job, keys) => FlushStepIff(sys, s, spec, job, keys);
    case Fail => FailUnique(sys, s, spec, s');
    case _ =>
  }

  lemma FlushStepIff(sys: Sys, s: State, spec: Spec, job: Job, keys: seq<bytes>)
    requires Inv(sys, s, spec) && CanCommit(sys, s, job) && StateUnique(sys, s)
    requires Resolved(sys, DiskOf(s), s.version, job.m, keys, job.deltas)
    ensures CommitOk(sys.codec, s.store, TxnOf(sys, job))
    ensures StateUnique(sys, CommitFlush(sys, s, job)) <==> NothingOverlooked(sys, DiskOf(s), s.version, job.m, keys)
  {
    hide MemsSound, Tracks, Layered, Counted, FirstsAscend, CacheOk, CatalogOk, VersionOk, PhaseOk, VersionOf,
         CanCommit, StoreAfter, SysOk, Unique, DeltasComplete, NothingOverlooked, Resolved;
    FlushUniqueIff(sys, s, spec, job);
    CompleteIffNothingOverlooked(sys, DiskOf(s), s.version, job.m, keys, job.deltas);
  }

  lemma FailUnique(sys: Sys, s: State, spec: Spec, t: State)
    requires Inv(sys, s, spec) && FlushFails(sys, s, t) && StateUnique(sys, s)
    ensures StateUnique(sys, t)
  {
    hide MemsSound, Tracks, Layered, Counted, FirstsAscend, CacheOk, CatalogOk, VersionOk, VersionOf, SysOk, Failed,
         Unique;
    FailedReads(sys, s, t);
    SameReadsKeepUnique(sys, DiskOf(s), DiskOf(t), s.version);
  }

  lemma {:induction false} BatchDisk(s: State, recs: seq<BatchRec>, n: nat)
    requires n <= |recs| && s.counter + n <= SEQNUM_MAX
    ensures WriteMany(s, recs, n).store == s.store && WriteMany(s, recs, n).files == s.files
    ensures WriteMany(s, recs, n).version == s.version && WriteMany(s, recs, n).phase == s.phase
  {
    hide Insert;
    if n > 0 { BatchDisk(s, recs, n - 1); }
  }

  /** A run of flushes with deletion vectors, from a version with one visible row
      per key. */
  ghost predicate UniqueStart(sys: Sys, ss: seq<State>, specs: seq<Spec>, steps: seq<Step>) {
    EngineRuns.IsRun(sys, ss, specs, steps) && StateUnique(sys, ss[0]) &&
    forall k :: 0 <= k < |steps| ==> Emits(sys, ss[k], steps[k])
  }

  ghost predicate UniqueThroughout(sys: Sys, ss: seq<State>) {
    forall i :: 0 <= i < |ss| ==> StateUnique(sys, ss[i])
  }

  ghost predicate ThoroughThroughout(sys: Sys, ss: seq<State>, steps: seq<Step>)
    requires |ss| == |steps| + 1
  {
    forall k :: 0 <= k < |steps| ==> Thorough(sys, ss[k], steps[k])
  }

  /** Over every such run, every version has one visible row per key, the
      newest, if and only if no flush of the run overlooks a row. */
  lemma RunUniqueIff(sys: Sys, ss: seq<State>, specs: seq<Spec>, steps: seq<Step>)
    requires UniqueStart(sys, ss, specs, steps)
    ensures UniqueThroughout(sys, ss) <==> ThoroughThroughout(sys, ss, steps)
  {
    hide Inv, EngineRuns.Next, Emits, StateUnique, Thorough;
    if UniqueThroughout(sys, ss) {
      forall k | 0 <= k < |steps|
        ensures Thorough(sys, ss[k], steps[k])
      {
        RunKeepsInv(sys, ss, specs, steps, k);
        StepUniqueIff(sys, ss[k], specs[k], steps[k], ss[k + 1], specs[k + 1]);
      }
    }
    if ThoroughThroughout(sys, ss, steps) {
      forall i | 0 <= i < |ss|
        ensures StateUnique(sys, ss[i])
      {
        ThoroughKeepsUnique(sys, ss, specs, steps, i);
      }
    }
  }

  lemma {:induction false} ThoroughKeepsUnique(sys: Sys, ss: seq<State>, specs: seq<Spec>, steps: seq<Step>, i: nat)
    requires UniqueStart(sys, ss, specs, steps) && i < |ss| && forall k :: 0 <= k < i ==> Thorough(sys, ss[k], steps[k])
    ensures StateUnique(sys, ss[i])
  {
    hide Inv, EngineRuns.Next, Emits, StateUnique, Thorough;
    if i > 0 {
      ThoroughKeepsUnique(sys, ss, specs, steps, i - 1);
      RunKeepsInv(sys, ss, specs, steps, i - 1);
      StepUniqueIff(sys, ss[i - 1], specs[i - 1], steps[i - 1], ss[i], specs[i]);
    }
  }

  // ── Files in which nothing is overlooked ──────────────────────────────────

  ghost predicate StateTransparent(s: State) {
    Transparent(DiskOf(s), s.version) && (s.phase.Committed? ==> Transparent(DiskOf(s), s.phase.next))
  }

  lemma TransparentIsThorough(sys: Sys, s: State, spec: Spec, step: Step)
    requires Inv(sys, s, spec) && Emits(sys, s, step) && StateTransparent(s)
    ensures Thorough(sys, s, step)
  {
    hide MemsSound, Tracks, Layered, Counted, FirstsAscend, CacheOk, CatalogOk, VersionOk, PhaseOk, SysOk, Resolved,
         DeltasComplete, NothingOverlooked, Transparent;
    if step.Flush? {
      var disk, m := DiskOf(s), step.job.m;
      ResolvedIsComplete(sys, disk, s.version, m, step.keys, step.job.deltas);
      CompleteIffNothingOverlooked(sys, disk, s.version, m, step.keys, step.job.deltas);
    }
  }

  lemma SameReadsKeepTransparent(codec: Codec, before: Disk, after: Disk, v: Version)
    requires SameReads(codec, before, after, v) && Transparent(before, v)
    ensures Transparent(after, v)
  {
    hide InVersion, Content, LoadDv, KeyRange.NoneLost;
  }

  lemma KeyNotEmpty(env: Env, k: InternalKey)
    requires ValidKey(env, k) && !ZeroWidth(env.keyTypes)
    ensures k.uk != []
  {
    var vs :| EncodePk(vs, env.keyTypes) == Ok(k.uk);
    EmptyUserKey(vs, env.keyTypes);
  }

  lemma BoundsNotEmpty(env: Env, file: File)
    requires WellFormed(file, env) && file.rows != [] && !ZeroWidth(env.keyTypes)
    ensures file.keyMin != [] && file.keyMax != []
  {
    hide ZeroWidth, IsUserKey, IndexOk, BloomOk, Sum, Sorted;
    KeyNotEmpty(env, file.rows[0].key);
    KeyNotEmpty(env, file.rows[|file.rows| - 1].key);
  }

  lemma NewFileTransparent(sys: Sys, disk: Disk, m: Mem, f: DataFile)
    requires NewFileOf(sys, disk, m, f) && FileReady(sys.env, sys.codec, disk, f) && !ZeroWidth(sys.env.keyTypes)
    ensures KeyRange.NoneLost(Content(disk, f)) && f.meta.keyMin != [] && f.meta.keyMax != []
  {
    hide ZeroWidth, Image, LoadDv, SeqsDescend, IsUserKey, IndexOk, BloomOk, Sum, Sorted, Content, KeyRange.NoneLost;
    var file := Content(disk, f);
    var x :| HasRow(disk, f, x) && x.key.seqno == f.meta.seqMax;
    BoundsNotEmpty(sys.env, file);
    forall i, j | 0 <= i < j < |file.rows|
      ensures file.rows[i].key.uk != file.rows[j].key.uk
    {
      if SameKey(disk, f, i, f, j) { NewKeysApart(sys, disk, m, f, i, j); }
    }
    KeyRange.SingleVersionNoneLost(file);
  }

  /** Flushing leaves the resolver nothing to overlook later. */
  lemma NextTransparent(sys: Sys, disk: Disk, v: Version, w: Version, m: Mem, path: DataPath)
    requires VersionOk(sys.env, sys.codec, disk, w) && Successor(sys, disk, v, w, m, path) && Transparent(disk, v)
    requires !ZeroWidth(sys.env.keyTypes)
    ensures Transparent(disk, w)
  {
    hide ZeroWidth, InVersion, NewFileOf, Grown, FileReady, Compatible, WellArranged, KeyRange.NoneLost;
    forall h | InVersion(w, h)
      ensures KeyRange.NoneLost(Content(disk, h)) && h.meta.keyMin != [] && h.meta.keyMax != []
    {
      if h.path == path {
        AddedOnly(sys, disk, w, m, path, h);
        NewFileTransparent(sys, disk, m, h);
      } else {
        assert ComesFrom(sys, disk, v, m, h);
        var g :| InVersion(v, g) && Grown(sys, disk, m, g, h);
        GrownMeta(sys, disk, m, g, h);
        assert Content(disk, h) == Content(disk, g);
      }
    }
  }

  lemma FlushTransparent(sys: Sys, s: State, spec: Spec, job: Job)
    requires Inv(sys, s, spec) && CanCommit(sys, s, job) && !ZeroWidth(sys.env.keyTypes) && StateTransparent(s)
    ensures CommitOk(sys.codec, s.store, TxnOf(sys, job)) && StateTransparent(CommitFlush(sys, s, job))
  {
    hide ZeroWidth, MemsSound, Tracks, Layered, Counted, FirstsAscend, CacheOk, CatalogOk, VersionOk, Successor,
         VersionOf, SameReads, JobReady, StoreAfter, SysOk, Transparent;
    assert JobOk(sys, s.store, s.files, job);
    JobCommits(sys, s.store, s.files, job);
    var t := CommitFlush(sys, s, job);
    assert DiskOf(t) == DiskAfter(sys, s.store, s.files, job);
    OldReadsKept(sys, s.store, s.files, job);
    SameReadsKeepTransparent(sys.codec, DiskOf(s), DiskOf(t), s.version);
    CommitKeepsInv(sys, s, spec, job);
    NextTransparent(sys, DiskOf(t), s.version, VersionOf(t.store.manifest), job.m, job.path);
  }

  lemma StepKeepsTransparent(sys: Sys, s: State, spec: Spec, step: Step, s': State, spec': Spec)
    requires Inv(sys, s, spec) && EngineRuns.Next(sys, s, spec, step, s', spec')
    requires StateTransparent(s) && !ZeroWidth(sys.env.keyTypes)
    ensures StateTransparent(s')
  {
    hide ZeroWidth, CanCommit, RecordOk, SpecMany, CanFill, Transparent, Memtable.Fresh, Insert, MemsSound, Tracks,
         Layered, Counted, FirstsAscend, CacheOk, CatalogOk, VersionOk, Successor, VersionOf, Adds, SysOk, CommitFlush,
         CommitOk, Retain, FlushFails;
    match step
    case Write(recs) => BatchDisk(s, recs, |recs|);
    case Flush(job, _) => FlushTransparent(sys, s, spec, job);
    case Fail => FailTransparent(sys, s, spec, s');
    case _ =>
  }

  lemma FailTransparent(sys: Sys, s: State, spec: Spec, t: State)
    requires Inv(sys, s, spec) && FlushFails(sys, s, t) && StateTransparent(s)
    ensures StateTransparent(t)
  {
    hide MemsSound, Tracks, Layered, Counted, FirstsAscend, CacheOk, CatalogOk, VersionOk, VersionOf, SysOk, Failed,
         Transparent;
    FailedReads(sys, s, t);
    SameReadsKeepTransparent(sys.codec, DiskOf(s), DiskOf(t), s.version);
  }

  lemma {:induction false} RunKeepsTransparent(sys: Sys, ss: seq<State>, specs: seq<Spec>, steps: seq<Step>, i: nat)
    requires EngineRuns.IsRun(sys, ss, specs, steps) && i < |ss|
    requires StateTransparent(ss[0]) && !ZeroWidth(sys.env.keyTypes)
    ensures StateTransparent(ss[i])
  {
    hide Inv, EngineRuns.Next, ZeroWidth, StateTransparent;
    if i > 0 {
      RunKeepsTransparent(sys, ss, specs, steps, i - 1);
      RunKeepsInv(sys, ss, specs, steps, i - 1);
      StepKeepsTransparent(sys, ss[i - 1], specs[i - 1], steps[i - 1], ss[i], specs[i]);
    }
  }

  /** From files with one row per key (or none that a page boundary separates)
      and with keys that do not encode to nothing, every run keeps one visible
      row per key. */
  lemma RunKeepsUnique(sys: Sys, ss: seq<State>, specs: seq<Spec>, steps: seq<Step>)
    requires UniqueStart(sys, ss, specs, steps) && StateTransparent(ss[0]) && !ZeroWidth(sys.env.keyTypes)
    ensures UniqueThroughout(sys, ss)
  {
    hide Inv, EngineRuns.Next, Emits, StateUnique, Thorough, ZeroWidth, StateTransparent;
    forall k | 0 <= k < |steps|
      ensures Thorough(sys, ss[k], steps[k])
    {
      RunKeepsInv(sys, ss, specs, steps, k);
      RunKeepsTransparent(sys, ss, specs, steps, k);
      TransparentIsThorough(sys, ss[k], specs[k], steps[k]);
    }
    RunUniqueIff(sys, ss, specs, steps);
  }
}
