/** What becomes of a stored version (flushes and drops in `engine/flush.rs`,
    rotations and drops in `memtable/manager.rs`).

    A version stays stored until an install masks its row, or until the memtable
    that holds it is dropped although it is not the newest of its key there: the
    flushed file keeps the newest only. Versions never come back.
 */
module VersionFate {
  import opened ByteStrings
  import opened Keys
  import opened Table
  import opened Memtable
  import opened Versions
  import opened Catalog
  import opened LiveFiles
  import opened Flush
  import opened FlushCommit
  import opened EngineState
  import opened EngineSteps
  import opened EngineRuns

  ghost predicate InMemory(sys: Sys, s: State, v: MemRec) {
    exists k: nat :: 1 <= k && InLayer(sys, s, k, v)
  }

  /** Every version of the key in a memtable is above `r`. */
  ghost predicate MemAbove(sys: Sys, s: State, uk: bytes, r: nat) {
    r < s.counter && forall k, v :: 1 <= k && InLayer(sys, s, k, v) && v.key.uk == uk ==> v.key.seqno > r
  }

  /** The step that loses `v`: the install of a flush that has the key and masks
      the row, or the drop of a memtable that has `v` and a newer version. */
  ghost predicate Loses(sys: Sys, s: State, step: Step, v: MemRec) {
    match step
    case Install =>
      s.phase.Committed? && s.queue != [] && HasKey(sys.env, s.queue[0], v.key.uk) &&
      InFiles(sys, DiskOf(s), s.version, v) && !InFiles(sys, DiskOf(s), s.phase.next, v)
    case Drop => s.queue != [] && InMem(sys.env, s.queue[0], v) && !TopIn(sys.env, s.queue[0], v)
    case _ => false
  }

  // ── Memtables only gain newer versions ────────────────────────────────────

  lemma WriteAbove(sys: Sys, s: State, spec: Spec, rec: BatchRec, uk: bytes, r: nat)
    requires Inv(sys, s, spec) && s.counter < SEQNUM_MAX && RecordOk(sys, rec) && MemAbove(sys, s, uk, r)
    ensures MemAbove(sys, WriteOne(s, rec), uk, r)
  {
    hide SysOk, Tracks, Layered, CatalogOk, VersionOk, PhaseOk, CacheOk, FirstsAscend, InLayer, RecordOk, Insert,
         MemsSound, Counted;
    var t := WriteOne(s, rec);
    forall k, v | 1 <= k && InLayer(sys, t, k, v) && v.key.uk == uk
      ensures v.key.seqno > r
    {
      WriteLayers(sys, s, rec, k, v);
    }
  }

  lemma {:induction false} BatchAbove(sys: Sys, s: State, spec: Spec, recs: seq<BatchRec>, n: nat, uk: bytes, r: nat)
    requires Inv(sys, s, spec) && n <= |recs| && s.counter + n <= SEQNUM_MAX && MemAbove(sys, s, uk, r)
    requires forall i :: 0 <= i < |recs| ==> RecordOk(sys, recs[i])
    ensures MemAbove(sys, WriteMany(s, recs, n), uk, r)
  {
    hide Inv, RecordOk, WriteOne, MemAbove;
    if n > 0 {
      BatchAbove(sys, s, spec, recs, n - 1, uk, r);
      BatchKeepsInv(sys, s, spec, recs, n - 1);
      WriteAbove(sys, WriteMany(s, recs, n - 1), SpecMany(spec, recs, s.counter, n - 1), recs[n - 1], uk, r);
    }
  }

  lemma RotateAbove(sys: Sys, s: State, uk: bytes, r: nat)
    requires MemAbove(sys, s, uk, r)
    ensures MemAbove(sys, Rotated(s), uk, r)
  {
    hide InLayer;
    forall k, v | 1 <= k && InLayer(sys, Rotated(s), k, v) && v.key.uk == uk
      ensures v.key.seqno > r
    {
      RotateLayers(sys, s, k, v);
    }
  }

  lemma DropAbove(sys: Sys, s: State, uk: bytes, r: nat)
    requires MemAbove(sys, s, uk, r) && FirstsAscend(s) && s.phase.Installed? && s.queue != []
    ensures MemAbove(sys, DropOldest(s), uk, r)
  {
    hide InMem, InFiles;
    DropIsTail(s);
    forall k, v | 1 <= k && InLayer(sys, DropOldest(s), k, v) && v.key.uk == uk
      ensures v.key.seqno > r
    {
      assert InLayer(sys, s, k + 1, v);
    }
  }

  lemma SameMemsAbove(sys: Sys, s: State, t: State, uk: bytes, r: nat)
    requires MemAbove(sys, s, uk, r) && t.active == s.active && t.queue == s.queue && t.counter >= s.counter
    ensures MemAbove(sys, t, uk, r)
  {
    hide InMem, InFiles;
    forall k, v | 1 <= k && InLayer(sys, t, k, v) && v.key.uk == uk
      ensures v.key.seqno > r
    {
      assert k <= Layers(s) && MemAt(t, k) == MemAt(s, k);
      assert InLayer(sys, s, k, v);
    }
  }

  lemma StepAbove(sys: Sys, s: State, spec: Spec, step: Step, s': State, spec': Spec, uk: bytes, r: nat)
    requires Inv(sys, s, spec) && EngineRuns.Next(sys, s, spec, step, s', spec') && MemAbove(sys, s, uk, r)
    ensures MemAbove(sys, s', uk, r)
  {
    hide CanCommit, RecordOk, SpecMany, WriteMany, CanFill, MemsSound, Tracks, Layered, Counted, FirstsAscend, CacheOk,
         CatalogOk, VersionOk, PhaseOk, SysOk, CommitOk, StoreAfter, Rows, MemAbove, Rotated, DropOldest, VersionOf;
    match step
    case Write(recs) => BatchAbove(sys, s, spec, recs, |recs|, uk, r);
    case Rotate => RotateAbove(sys, s, uk, r);
    case Drop => DropAbove(sys, s, uk, r);
    case _ => SameMemsAbove(sys, s, s', uk, r);
  }

  // ── One step ──────────────────────────────────────────────────────────────

  lemma SameState(sys: Sys, s: State, t: State, v: MemRec)
    requires forall k: nat :: InLayer(sys, t, k, v) <==> InLayer(sys, s, k, v)
    ensures InState(sys, t, v) == InState(sys, s, v)
  {
    hide InLayer;
    if InState(sys, s, v) {
      var k: nat :| InLayer(sys, s, k, v);
      assert InLayer(sys, t, k, v);
    }
  }

  lemma {:induction false} BatchFate(sys: Sys, s: State, spec: Spec, recs: seq<BatchRec>, n: nat, v: MemRec)
    requires Inv(sys, s, spec) && n <= |recs| && s.counter + n <= SEQNUM_MAX && v.key.seqno < s.counter
    requires forall i :: 0 <= i < |recs| ==> RecordOk(sys, recs[i])
    ensures InState(sys, WriteMany(s, recs, n), v) == InState(sys, s, v)
  {
    hide Inv, RecordOk, WriteOne, InState;
    if n > 0 {
      BatchFate(sys, s, spec, recs, n - 1, v);
      BatchKeepsInv(sys, s, spec, recs, n - 1);
      WriteFate(sys, WriteMany(s, recs, n - 1), SpecMany(spec, recs, s.counter, n - 1), recs[n - 1], v);
    }
  }

  lemma WriteFate(sys: Sys, s: State, spec: Spec, rec: BatchRec, v: MemRec)
    requires Inv(sys, s, spec) && s.counter < SEQNUM_MAX && RecordOk(sys, rec) && v.key.seqno < s.counter
    ensures InState(sys, WriteOne(s, rec), v) == InState(sys, s, v)
  {
    hide SysOk, Tracks, Layered, CatalogOk, VersionOk, PhaseOk, CacheOk, FirstsAscend, InLayer, RecordOk, WriteOne,
         MemsSound, Counted, InState;
    forall k: nat
      ensures InLayer(sys, WriteOne(s, rec), k, v) <==> InLayer(sys, s, k, v)
    {
      WriteLayers(sys, s, rec, k, v);
    }
    SameState(sys, s, WriteOne(s, rec), v);
  }

  /** Same memtables and the same visible rows. */
  lemma SameRowsFate(sys: Sys, s: State, t: State, v: MemRec)
    requires t.active == s.active && t.queue == s.queue
    requires InFiles(sys, DiskOf(t), t.version, v) == InFiles(sys, DiskOf(s), s.version, v)
    ensures InState(sys, t, v) == InState(sys, s, v)
  {
    hide InFiles, InMem, InState;
    forall k: nat
      ensures InLayer(sys, t, k, v) <==> InLayer(sys, s, k, v)
    {
      assert 1 <= k <= Layers(s) ==> MemAt(t, k) == MemAt(s, k);
    }
    SameState(sys, s, t, v);
  }

  lemma RotateFate(sys: Sys, s: State, v: MemRec)
    ensures InState(sys, Rotated(s), v) == InState(sys, s, v)
  {
    hide InLayer, InState, Rotated;
    forall k: nat
      ensures InLayer(sys, Rotated(s), k, v) <==> InLayer(sys, s, k, v)
    {
      RotateLayers(sys, s, k, v);
    }
    SameState(sys, s, Rotated(s), v);
  }

  lemma SameReadsFiles(sys: Sys, before: Disk, after: Disk, w: Version, v: MemRec)
    requires SameReads(sys.codec, before, after, w) && VersionOk(sys.env, sys.codec, before, w)
    ensures InFiles(sys, after, w, v) == InFiles(sys, before, w, v)
  {
    hide SameReads, VersionOk, OnDisk;
    SameReadsKeepOk(sys.env, sys.codec, before, after, w);
  }

  lemma FlushFate(sys: Sys, s: State, spec: Spec, job: Job, v: MemRec)
    requires Inv(sys, s, spec) && CanCommit(sys, s, job)
    ensures CommitOk(sys.codec, s.store, TxnOf(sys, job)) &&
            InState(sys, CommitFlush(sys, s, job), v) == InState(sys, s, v)
  {
    hide MemsSound, Tracks, Layered, Counted, FirstsAscend, CacheOk, CatalogOk, VersionOk, VersionOf, SysOk, JobReady,
         SameReads, StoreAfter, InFiles, InState;
    assert JobOk(sys, s.store, s.files, job);
    JobCommits(sys, s.store, s.files, job);
    var t := CommitFlush(sys, s, job);
    assert DiskOf(t) == DiskAfter(sys, s.store, s.files, job);
    OldReadsKept(sys, s.store, s.files, job);
    SameReadsFiles(sys, DiskOf(s), DiskOf(t), s.version, v);
    SameRowsFate(sys, s, t, v);
  }

  lemma FailFate(sys: Sys, s: State, spec: Spec, t: State, v: MemRec)
    requires Inv(sys, s, spec) && FlushFails(sys, s, t)
    ensures InState(sys, t, v) == InState(sys, s, v)
  {
    hide MemsSound, Tracks, Layered, Counted, FirstsAscend, CacheOk, CatalogOk, VersionOk, VersionOf, SysOk, Failed,
         SameReads, InFiles, InState;
    FailedReads(sys, s, t);
    SameReadsFiles(sys, DiskOf(s), DiskOf(t), s.version, v);
    SameRowsFate(sys, s, t, v);
  }

  /** A version in a file is in no memtable, unless the file is the image of the
      memtable still to be dropped. */
  lemma FileOrMemory(sys: Sys, s: State, spec: Spec, k: nat, v: MemRec)
    requires Inv(sys, s, spec) && 1 <= k && InLayer(sys, s, 0, v) && InLayer(sys, s, k, v)
    ensures k == 1 && s.phase.Installed? && TopIn(sys.env, MemAt(s, 1), v)
  {
    hide InMem, SysOk, CatalogOk, VersionOk, CacheOk, MemsSound, VersionOf, Counted, FirstsAscend, Tracks, TopIn,
         InVersion, Adds, Shows, PhaseOk;
    var x :| OnDisk(sys.codec, DiskOf(s), s.version, x) && FromRow(x) == v;
    var f :| InVersion(s.version, f) && Shows(sys.codec, DiskOf(s), f, x);
    ShownBelow(sys, s, f, x);
    assert FilesBelow(sys, s.version, MemAt(s, k), Exempt(s, k));
    ExemptIsImage(sys, s, f, x);
  }

  /** A version is in one memtable only. */
  lemma OneMemory(sys: Sys, s: State, j: nat, k: nat, v: MemRec)
    requires Layered(sys, s) && 1 <= j < k && InLayer(sys, s, j, v)
    ensures !InLayer(sys, s, k, v)
  {
    hide InMem, FilesBelow;
    if k <= Layers(s) { assert Below(sys, MemAt(s, j), MemAt(s, k)); }
  }

  lemma InstallFate(sys: Sys, s: State, spec: Spec, v: MemRec)
    requires Inv(sys, s, spec) && s.phase.Committed?
    ensures InState(sys, InstallVersion(s), v) <==> InState(sys, s, v) && !Loses(sys, s, Install, v)
  {
    hide SysOk, MemsSound, Tracks, Layered, Counted, FirstsAscend, CacheOk, CatalogOk, VersionOk, VersionOf, OnDisk,
         HasKey, Successor, TopIn, InMem;
    var t, m, w := InstallVersion(s), MemAt(s, 1), s.phase.next;
    forall k: nat | 1 <= k
      ensures InLayer(sys, t, k, v) <==> InLayer(sys, s, k, v)
    {
      assert k <= Layers(s) ==> MemAt(t, k) == MemAt(s, k);
    }
    if InLayer(sys, t, 0, v) {
      var x :| OnDisk(sys.codec, DiskOf(s), w, x) && FromRow(x) == v;
      ShownAfter(sys, DiskOf(s), s.version, w, m, s.phase.path, x);
      TopIsIn(sys.env, m, v);
      assert InLayer(sys, s, 0, v) || InLayer(sys, s, 1, v);
    }
    if InLayer(sys, s, 0, v) {
      forall k: nat | 1 <= k
        ensures !InLayer(sys, s, k, v)
      {
        if InLayer(sys, s, k, v) { FileOrMemory(sys, s, spec, k, v); }
      }
      var x :| OnDisk(sys.codec, DiskOf(s), s.version, x) && FromRow(x) == v;
      ShownBefore(sys, DiskOf(s), s.version, w, m, s.phase.path, x);
    }
  }

  lemma TopIsIn(env: Env, m: Mem, v: MemRec)
    ensures TopIn(env, m, v) ==> InMem(env, m, v)
  {
  }

  lemma DropFate(sys: Sys, s: State, spec: Spec, v: MemRec)
    requires Inv(sys, s, spec) && s.phase.Installed?
    ensures s.queue != []
    ensures InState(sys, DropOldest(s), v) <==> InState(sys, s, v) && !Loses(sys, s, Drop, v)
  {
    hide SysOk, MemsSound, Tracks, Layered, Counted, FirstsAscend, CacheOk, CatalogOk, VersionOk, VersionOf, InFiles,
         Adds, TopIn, InMem;
    var t := DropOldest(s);
    DropIsTail(s);
    forall k: nat | 1 <= k
      ensures InLayer(sys, t, k, v) <==> InLayer(sys, s, k + 1, v)
    {
    }
    if InLayer(sys, s, 1, v) {
      if TopIn(sys.env, MemAt(s, 1), v) {
        DroppedIsSaved(sys, s, v);
        assert InLayer(sys, t, 0, v);
      } else {
        if InLayer(sys, s, 0, v) { FileOrMemory(sys, s, spec, 1, v); }
        forall k: nat | 1 <= k
          ensures !InLayer(sys, t, k, v)
        {
          OneMemory(sys, s, 1, k + 1, v);
        }
      }
    } else if InState(sys, s, v) {
      var k: nat :| InLayer(sys, s, k, v);
      assert if k == 0 then InLayer(sys, t, 0, v) else InLayer(sys, t, k - 1, v);
    }
    if InState(sys, t, v) {
      var k: nat :| InLayer(sys, t, k, v);
      assert if k == 0 then InLayer(sys, s, 0, v) else InLayer(sys, s, k + 1, v);
    }
  }

  /** What a step does to a version that was given its number before. */
  lemma StepFate(sys: Sys, s: State, spec: Spec, step: Step, s': State, spec': Spec, v: MemRec)
    requires Inv(sys, s, spec) && EngineRuns.Next(sys, s, spec, step, s', spec') && v.key.seqno < s.counter
    ensures s.counter <= s'.counter
    ensures InState(sys, s', v) <==> InState(sys, s, v) && !Loses(sys, s, step, v)
  {
    hide CanCommit, RecordOk, SpecMany, WriteMany, CanFill, MemsSound, Tracks, Layered, Counted, FirstsAscend, CacheOk,
         CatalogOk, VersionOk, PhaseOk, SysOk, CommitOk, StoreAfter, Rows, Rotated, DropOldest, VersionOf, InState,
         InFiles, InMem, TopIn, HasKey, CommitFlush, FlushFails;
    match step
    case Write(recs) => BatchFate(sys, s, spec, recs, |recs|, v);
    case Rotate =>
      RotateFate(sys, s, v);
      RotatedCounter(s);
    case Flush(job, _) =>
      FlushFate(sys, s, spec, job, v);
      CommittedCounter(sys, s, job);
    case Fail =>
      FailFate(sys, s, spec, s', v);
      FailedCounter(sys, s, s');
    case Install => InstallFate(sys, s, spec, v);
    case Drop =>
      DropFate(sys, s, spec, v);
      DroppedCounter(s);
    case _ => SameRowsFate(sys, s, s', v);
  }

  lemma RotatedCounter(s: State)
    ensures Rotated(s).counter == s.counter
  {
  }

  lemma CommittedCounter(sys: Sys, s: State, job: Job)
    requires CommitOk(sys.codec, s.store, TxnOf(sys, job))
    ensures CommitFlush(sys, s, job).counter == s.counter
  {
    hide CommitOk, StoreAfter, VersionOf;
  }

  lemma FailedCounter(sys: Sys, s: State, t: State)
    requires FlushFails(sys, s, t)
    ensures t.counter == s.counter
  {
    hide Failed;
  }

  lemma DroppedCounter(s: State)
    requires s.phase.Installed? && s.queue != []
    ensures DropOldest(s).counter == s.counter
  {
  }

  // ── Whole runs ────────────────────────────────────────────────────────────

  ghost predicate NeverLost(sys: Sys, ss: seq<State>, steps: seq<Step>, i: nat, j: nat, v: MemRec)
    requires i <= j < |ss| == |steps| + 1
  {
    forall l :: i <= l < j ==> !Loses(sys, ss[l], steps[l], v)
  }

  /** Over every run: a version numbered before state `i` is stored in state `j`
      if and only if it was stored in state `i` and no step in between lost it. */
  lemma {:induction false} VersionsOverTime(sys: Sys, ss: seq<State>, specs: seq<Spec>, steps: seq<Step>, i: nat,
                                            j: nat, v: MemRec)
    requires EngineRuns.IsRun(sys, ss, specs, steps) && i <= j < |ss| && v.key.seqno < ss[i].counter
    ensures InState(sys, ss[j], v) <==> InState(sys, ss[i], v) && NeverLost(sys, ss, steps, i, j, v)
    ensures ss[i].counter <= ss[j].counter
    decreases j
  {
    hide Inv, EngineRuns.Next, InState, Loses;
    if i < j {
      VersionsOverTime(sys, ss, specs, steps, i, j - 1, v);
      RunKeepsInv(sys, ss, specs, steps, j - 1);
      StepFate(sys, ss[j - 1], specs[j - 1], steps[j - 1], ss[j], specs[j], v);
    }
  }

  lemma {:induction false} RunAbove(sys: Sys, ss: seq<State>, specs: seq<Spec>, steps: seq<Step>, i: nat, j: nat,
                                    uk: bytes, r: nat)
    requires EngineRuns.IsRun(sys, ss, specs, steps) && i <= j < |ss| && MemAbove(sys, ss[i], uk, r)
    ensures MemAbove(sys, ss[j], uk, r)
    decreases j
  {
    hide Inv, EngineRuns.Next, MemAbove;
    if i < j {
      RunAbove(sys, ss, specs, steps, i, j - 1, uk, r);
      RunKeepsInv(sys, ss, specs, steps, j - 1);
      StepAbove(sys, ss[j - 1], specs[j - 1], steps[j - 1], ss[j], specs[j], uk, r);
    }
  }
}
