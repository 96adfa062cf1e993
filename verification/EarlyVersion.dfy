/** A range scan in its three moments (`range_scan` in `engine/read_path.rs`).

    A scan takes its version first, fixes its read sequence number next, and
    reads the memtables last. A flush that is installed and dropped in between
    moves rows out of the memtables into a file the scan does not look at.
 */
module EarlyVersion {
  import opened Wrappers
  import opened ByteStrings
  import opened Memtable
  import opened Versions
  import opened Catalog
  import opened LiveFiles
  import opened Flush
  import opened FlushCommit
  import opened EngineState
  import opened EngineSteps
  import opened EngineRuns
  import opened VersionFate
  import opened SplitLookup
  import opened LookupWindow

  // ── A pinned version reads the same for good ──────────────────────────────

  /** Files and deletion vectors of the version are where they were, and of older
      snapshots. */
  ghost predicate Pinned(sys: Sys, s: State, w: Version) {
    RefsBelow(w, s.store.nextVer) &&
    forall f :: InVersion(w, f) ==> f.path in s.files && LoadDv(sys.codec, s.store.puffins, f.dv).Ok?
  }

  lemma PinnedNow(sys: Sys, s: State, spec: Spec)
    requires Inv(sys, s, spec)
    ensures Pinned(sys, s, s.version)
  {
    hide MemsSound, Tracks, Layered, Counted, FirstsAscend, CacheOk, CatalogOk, VersionOf, SysOk, InVersion, LoadDv,
         Successor, Adds, RefsBelow, MetaOk, SeqsDescend, Compatible, WellArranged;
    LiveRefsBelow(sys.codec, s.store);
    forall f | InVersion(s.version, f)
      ensures f.path in s.files && LoadDv(sys.codec, s.store.puffins, f.dv).Ok?
    {
      assert FileReady(sys.env, sys.codec, DiskOf(s), f);
    }
  }

  lemma KeptReads(sys: Sys, s: State, t: State, w: Version)
    requires Pinned(sys, s, w) && s.store.nextVer <= t.store.nextVer
    requires KeepsOlder(s.store.puffins, t.store.puffins, s.store.nextVer)
    requires forall p :: p in s.files ==> p in t.files && t.files[p] == s.files[p]
    ensures Pinned(sys, t, w) && SameReads(sys.codec, DiskOf(s), DiskOf(t), w)
  {
    hide InVersion, LoadDv, KeepsOlder;
    forall f | InVersion(w, f)
      ensures LoadDv(sys.codec, t.store.puffins, f.dv) == LoadDv(sys.codec, s.store.puffins, f.dv)
    {
      OldCoordsKept(sys.codec, s.store.puffins, t.store.puffins, f.dv, s.store.nextVer);
    }
  }

  lemma PinnedFlush(sys: Sys, s: State, spec: Spec, job: Job, w: Version)
    requires Inv(sys, s, spec) && CanCommit(sys, s, job) && Pinned(sys, s, w)
    ensures CommitOk(sys.codec, s.store, TxnOf(sys, job))
    ensures var t := CommitFlush(sys, s, job);
            Pinned(sys, t, w) && SameReads(sys.codec, DiskOf(s), DiskOf(t), w)
  {
    hide MemsSound, Tracks, Layered, Counted, FirstsAscend, CacheOk, CatalogOk, VersionOk, VersionOf, SysOk, CommitOk,
         DescribesRows, MemSound, EntriesOf, DeltasSound, Next, Locations, Catalog.Written, Pinned, SameReads,
           KeepsOlder;
    CommitKeepsOlder(sys.codec, s.store, TxnOf(sys, job));
    KeptReads(sys, s, CommitFlush(sys, s, job), w);
  }

  lemma PinnedFail(sys: Sys, s: State, t: State, w: Version)
    requires FlushFails(sys, s, t) && Pinned(sys, s, w)
    ensures Pinned(sys, t, w) && SameReads(sys.codec, DiskOf(s), DiskOf(t), w)
  {
    hide Pinned, SameReads, KeepsOlder;
    KeptReads(sys, s, t, w);
  }

  lemma PinnedStep(sys: Sys, s: State, spec: Spec, step: Step, s': State, spec': Spec, w: Version)
    requires Inv(sys, s, spec) && EngineRuns.Next(sys, s, spec, step, s', spec') && Pinned(sys, s, w)
    ensures Pinned(sys, s', w) && SameReads(sys.codec, DiskOf(s), DiskOf(s'), w)
  {
    hide CanCommit, RecordOk, SpecMany, CanFill, MemsSound, Tracks, Layered, Counted, FirstsAscend, CacheOk, CatalogOk,
         VersionOk, PhaseOk, SysOk, CommitOk, StoreAfter, Rows, VersionOf, Insert, Retain, Memtable.Fresh, CommitFlush,
         FlushFails, WriteMany, LoadDv, InVersion;
    match step
    case Write(recs) => BatchIsMany(s, recs, |recs|);
    case Flush(job, _) => PinnedFlush(sys, s, spec, job, w);
    case Fail => PinnedFail(sys, s, s', w);
    case _ =>
  }

  lemma {:induction false} PinnedReads(sys: Sys, ss: seq<State>, specs: seq<Spec>, steps: seq<Step>, i: nat, j: nat)
    requires EngineRuns.IsRun(sys, ss, specs, steps) && i <= j < |ss|
    ensures Pinned(sys, ss[j], ss[i].version)
    ensures SameReads(sys.codec, DiskOf(ss[i]), DiskOf(ss[j]), ss[i].version)
    decreases j
  {
    hide Inv, EngineRuns.Next, Pinned, InVersion, LoadDv, Content;
    if i < j {
      PinnedReads(sys, ss, specs, steps, i, j - 1);
      RunKeepsInv(sys, ss, specs, steps, j - 1);
      PinnedStep(sys, ss[j - 1], specs[j - 1], steps[j - 1], ss[j], specs[j], ss[i].version);
    } else {
      RunKeepsInv(sys, ss, specs, steps, i);
      PinnedNow(sys, ss[i], specs[i]);
    }
  }

  lemma PinnedFiles(sys: Sys, ss: seq<State>, specs: seq<Spec>, steps: seq<Step>, i: nat, j: nat, v: MemRec)
    requires EngineRuns.IsRun(sys, ss, specs, steps) && i <= j < |ss|
    ensures InFiles(sys, DiskOf(ss[j]), ss[i].version, v) == InLayer(sys, ss[i], 0, v)
  {
    hide Inv, EngineRuns.Next, Pinned, SameReads, InFiles;
    PinnedReads(sys, ss, specs, steps, i, j);
    RunKeepsInv(sys, ss, specs, steps, i);
    InvVersion(sys, ss[i], specs[i]);
    SameReadsFiles(sys, DiskOf(ss[i]), DiskOf(ss[j]), ss[i].version, v);
  }

  lemma InvVersion(sys: Sys, s: State, spec: Spec)
    requires Inv(sys, s, spec)
    ensures VersionOk(sys.env, sys.codec, DiskOf(s), s.version)
  {
  }

  // ── What the scan harvests ────────────────────────────────────────────────

  /** In the files of version `w` or in the memtables of `t`. */
  ghost predicate Harvested(sys: Sys, w: Version, t: State, v: MemRec) {
    InFiles(sys, DiskOf(t), w, v) || InMemory(sys, t, v)
  }

  /** What the scan keeps of a key: the newest it harvests that is not above the
      read sequence number. */
  ghost predicate Kept(sys: Sys, w: Version, t: State, uk: bytes, r: nat, kept: Option<MemRec>) {
    match kept
    case None => forall u :: Harvested(sys, w, t, u) && u.key.uk == uk ==> u.key.seqno > r
    case Some(v) =>
      Harvested(sys, w, t, v) && v.key.uk == uk && v.key.seqno <= r &&
      forall u :: Harvested(sys, w, t, u) && u.key.uk == uk && u.key.seqno <= r ==> NotNewer(u, v)
  }

  ghost predicate Installs(steps: seq<Step>, i: nat, l: nat)
    requires l <= |steps|
  {
    exists k :: i <= k < l && steps[k].Install?
  }

  /** A memtable with `v` is dropped from state `i` to state `j`, after an install
      in that time. */
  ghost predicate Unseen(sys: Sys, ss: seq<State>, steps: seq<Step>, i: nat, j: nat, v: MemRec)
    requires i <= j < |ss| == |steps| + 1
  {
    exists l :: i <= l < j && steps[l].Drop? && DropsIt(sys, ss[l], v) && Installs(steps, i, l)
  }

  ghost predicate DropsIt(sys: Sys, s: State, v: MemRec) {
    s.queue != [] && InMem(sys.env, s.queue[0], v)
  }

  lemma {:induction false} SameVersion(sys: Sys, ss: seq<State>, specs: seq<Spec>, steps: seq<Step>, i: nat, l: nat)
    requires EngineRuns.IsRun(sys, ss, specs, steps) && i <= l < |ss| && !Installs(steps, i, l)
    ensures ss[l].version == ss[i].version
    decreases l
  {
    hide Inv, CanCommit, CommitOk, RecordOk, WriteMany, SpecMany, CanFill, StoreAfter, VersionOf;
    if i < l {
      SameVersion(sys, ss, specs, steps, i, l - 1);
      assert EngineRuns.Next(sys, ss[l - 1], specs[l - 1], steps[l - 1], ss[l], specs[l]);
      if steps[l - 1].Write? { BatchIsMany(ss[l - 1], steps[l - 1].recs, |steps[l - 1].recs|); }
    }
  }

  // ── What is dropped unseen is not harvested ───────────────────────────────

  /** Right before its install, a flush's memtable is above every file of the
      installed version, and so is all that memory ever holds afterwards. */
  lemma {:induction false} InstallAbove(sys: Sys, ss: seq<State>, specs: seq<Spec>, steps: seq<Step>, i: nat, l: nat,
                                        uk: bytes, f: DataFile)
    requires EngineRuns.IsRun(sys, ss, specs, steps) && i <= l < |ss| && Installs(steps, i, l)
    requires InVersion(ss[i].version, f)
    ensures MemAbove(sys, ss[l], uk, f.meta.seqMax)
    decreases l
  {
    hide Inv, EngineRuns.Next, InVersion, MemAbove;
    RunKeepsInv(sys, ss, specs, steps, l - 1);
    if Installs(steps, i, l - 1) {
      InstallAbove(sys, ss, specs, steps, i, l - 1, uk, f);
    } else {
      SameVersion(sys, ss, specs, steps, i, l - 1);
      CommittedAbove(sys, ss[l - 1], specs[l - 1], ss[l], specs[l], uk, f);
    }
    StepAbove(sys, ss[l - 1], specs[l - 1], steps[l - 1], ss[l], specs[l], uk, f.meta.seqMax);
  }

  lemma CommittedAbove(sys: Sys, s: State, spec: Spec, s': State, spec': Spec, uk: bytes, f: DataFile)
    requires Inv(sys, s, spec) && EngineRuns.Next(sys, s, spec, Install, s', spec') && InVersion(s.version, f)
    ensures MemAbove(sys, s, uk, f.meta.seqMax)
  {
    hide SysOk, MemsSound, Tracks, FirstsAscend, CacheOk, CatalogOk, VersionOk, VersionOf, Successor, InMem, InVersion,
         InFiles;
    forall k, v | 1 <= k && InLayer(sys, s, k, v) && v.key.uk == uk
      ensures v.key.seqno > f.meta.seqMax
    {
      assert FilesBelow(sys, s.version, MemAt(s, k), Exempt(s, k));
    }
  }

  lemma DroppedAbove(sys: Sys, s: State, spec: Spec, s': State, spec': Spec, v: MemRec)
    requires Inv(sys, s, spec) && EngineRuns.Next(sys, s, spec, Drop, s', spec') && DropsIt(sys, s, v)
    ensures MemAbove(sys, s', v.key.uk, v.key.seqno) && InMemory(sys, s, v)
  {
    hide SysOk, MemsSound, Tracks, FirstsAscend, CacheOk, CatalogOk, VersionOk, VersionOf, Adds, InMem, InFiles,
         FilesBelow;
    assert InLayer(sys, s, 1, v);
    DropIsTail(s);
    forall j, w | 1 <= j && InLayer(sys, s', j, w) && w.key.uk == v.key.uk
      ensures w.key.seqno > v.key.seqno
    {
      assert InLayer(sys, s, j + 1, w);
      assert Below(sys, MemAt(s, 1), MemAt(s, j + 1));
    }
  }

  lemma UnseenIsGone(sys: Sys, ss: seq<State>, specs: seq<Spec>, steps: seq<Step>, i: nat, j: nat, v: MemRec)
    requires EngineRuns.IsRun(sys, ss, specs, steps) && i <= j < |ss| && Unseen(sys, ss, steps, i, j, v)
    ensures !InLayer(sys, ss[i], 0, v) && !InMemory(sys, ss[j], v)
  {
    hide Inv, EngineRuns.Next, InVersion, MemAbove, DropsIt, Installs, InFiles, InMemory;
    var l :| i <= l < j && steps[l].Drop? && DropsIt(sys, ss[l], v) && Installs(steps, i, l);
    RunKeepsInv(sys, ss, specs, steps, l);
    DroppedAbove(sys, ss[l], specs[l], ss[l + 1], specs[l + 1], v);
    RunAbove(sys, ss, specs, steps, l + 1, j, v.key.uk, v.key.seqno);
    AboveIsOut(sys, ss[j], v);
    if InLayer(sys, ss[i], 0, v) {
      RunKeepsInv(sys, ss, specs, steps, i);
      var f := FileOf(sys, ss[i], specs[i], v);
      InstallAbove(sys, ss, specs, steps, i, l, v.key.uk, f);
      AboveFileIsOut(sys, ss[l], v, f.meta.seqMax);
    }
  }

  lemma AboveIsOut(sys: Sys, s: State, v: MemRec)
    requires MemAbove(sys, s, v.key.uk, v.key.seqno)
    ensures !InMemory(sys, s, v)
  {
    hide InLayer;
  }

  lemma AboveFileIsOut(sys: Sys, s: State, v: MemRec, r: nat)
    requires MemAbove(sys, s, v.key.uk, r) && v.key.seqno <= r
    ensures !InMemory(sys, s, v)
  {
    hide InLayer;
  }

  lemma FileOf(sys: Sys, s: State, spec: Spec, v: MemRec) returns (f: DataFile)
    requires Inv(sys, s, spec) && InLayer(sys, s, 0, v)
    ensures InVersion(s.version, f) && v.key.seqno <= f.meta.seqMax
  {
    hide SysOk, MemsSound, Tracks, FirstsAscend, CacheOk, CatalogOk, VersionOk, PhaseOk, Layered, Counted, InVersion,
         Shows;
    var x :| OnDisk(sys.codec, DiskOf(s), s.version, x) && FromRow(x) == v;
    f :| InVersion(s.version, f) && Shows(sys.codec, DiskOf(s), f, x);
    ShownBelow(sys, s, f, x);
  }

  // ── Everything else is ────────────────────────────────────────────────────

  /** Only a drop takes versions out of memory. */
  lemma MemoryLeaves(sys: Sys, s: State, spec: Spec, step: Step, s': State, spec': Spec, v: MemRec)
    requires Inv(sys, s, spec) && EngineRuns.Next(sys, s, spec, step, s', spec')
    requires InMemory(sys, s, v)
    ensures InMemory(sys, s', v) || (step.Drop? && DropsIt(sys, s, v))
  {
    hide CanCommit, RecordOk, SpecMany, WriteMany, CanFill, MemsSound, Tracks, Layered, Counted, FirstsAscend, CacheOk,
         CatalogOk, VersionOk, PhaseOk, SysOk, CommitOk, StoreAfter, Rows, Rotated, DropOldest, VersionOf, InMemory;
    match step
    case Write(recs) => BatchMemory(sys, s, spec, recs, |recs|, v);
    case Rotate => RotateMemory(sys, s, v);
    case Drop => DropLeaves(sys, s, v);
    case _ => SameMemory(sys, s, s', v);
  }

  lemma DropLeaves(sys: Sys, s: State, v: MemRec)
    requires FirstsAscend(s) && s.phase.Installed? && s.queue != []
    requires InMemory(sys, s, v)
    ensures InMemory(sys, DropOldest(s), v) || DropsIt(sys, s, v)
  {
    hide FirstsAscend, InMem, DropOldest;
    DropIsTail(s);
    var k: nat :| 1 <= k && InLayer(sys, s, k, v);
    if k > 1 { assert InLayer(sys, DropOldest(s), k - 1, v); }
  }

  /** Only a write brings in something new, and into memory. */
  lemma NewIsWritten(sys: Sys, s: State, spec: Spec, step: Step, s': State, spec': Spec, v: MemRec)
    requires Inv(sys, s, spec) && EngineRuns.Next(sys, s, spec, step, s', spec')
    requires InLayer(sys, s', 0, v)
    ensures InState(sys, s, v)
  {
    hide MemsSound, Tracks, Layered, FirstsAscend, CacheOk, CatalogOk, VersionOk, PhaseOk, SysOk, InState, Loses,
         EngineRuns.Next, InFiles;
    StepKeepsInv(sys, s, spec, step, s', spec');
    LayerStored(sys, s', v);
    NewFileSeqs(sys, s, spec, step, s', spec', v);
    StepFate(sys, s, spec, step, s', spec', v);
  }

  lemma LayerStored(sys: Sys, s: State, v: MemRec)
    requires InLayer(sys, s, 0, v)
    ensures InState(sys, s, v)
  {
  }

  lemma NewFileSeqs(sys: Sys, s: State, spec: Spec, step: Step, s': State, spec': Spec, v: MemRec)
    requires Inv(sys, s, spec) && EngineRuns.Next(sys, s, spec, step, s', spec') && Inv(sys, s', spec')
    requires InLayer(sys, s', 0, v)
    ensures v.key.seqno < s.counter
  {
    hide CanCommit, RecordOk, SpecMany, WriteMany, CanFill, MemsSound, Tracks, Layered, FirstsAscend, CacheOk,
         CatalogOk, VersionOk, PhaseOk, SysOk, CommitOk, StoreAfter, Rows, Rotated, DropOldest, VersionOf, Counted,
         CommitFlush, FlushFails, InFiles;
    if step.Write? {
      BatchIsMany(s, step.recs, |step.recs|);
      FilesCounted(sys, s);
      assert InLayer(sys, s, 0, v);
    } else {
      FilesCounted(sys, s');
      CountedBelow(sys, s, spec);
      SameCounter(sys, s, spec, step, s', spec');
    }
  }

  lemma SameCounter(sys: Sys, s: State, spec: Spec, step: Step, s': State, spec': Spec)
    requires EngineRuns.Next(sys, s, spec, step, s', spec') && !step.Write?
    ensures s'.visible == s.visible
  {
    hide CanCommit, CanFill, CommitOk, StoreAfter, Rows, VersionOf, Failed;
  }

  /** Up to the moment a version is stored, it is harvested or was dropped
      unseen. */
  lemma {:induction false} StoredOrUnseen(sys: Sys, ss: seq<State>, specs: seq<Spec>, steps: seq<Step>, i: nat, l: nat,
                                          v: MemRec)
    requires EngineRuns.IsRun(sys, ss, specs, steps) && i <= l < |ss| && InState(sys, ss[l], v)
    ensures InLayer(sys, ss[i], 0, v) || InMemory(sys, ss[l], v) || Unseen(sys, ss, steps, i, l, v)
    decreases l
  {
    hide Inv, EngineRuns.Next, InFiles, DropsIt, Installs, InMem;
    var k: nat :| InLayer(sys, ss[l], k, v);
    if i < l && k == 0 {
      RunKeepsInv(sys, ss, specs, steps, l - 1);
      NewIsWritten(sys, ss[l - 1], specs[l - 1], steps[l - 1], ss[l], specs[l], v);
      StoredOrUnseen(sys, ss, specs, steps, i, l - 1, v);
      if InMemory(sys, ss[l - 1], v) && !InMemory(sys, ss[l], v) {
        MemoryLeaves(sys, ss[l - 1], specs[l - 1], steps[l - 1], ss[l], specs[l], v);
        DropOrUnseen(sys, ss, specs, steps, i, l, v);
      }
    }
  }

  /** A version still on disk after the drop of its memtable. */
  lemma DropOrUnseen(sys: Sys, ss: seq<State>, specs: seq<Spec>, steps: seq<Step>, i: nat, l: nat, v: MemRec)
    requires EngineRuns.IsRun(sys, ss, specs, steps) && i < l < |ss| && InLayer(sys, ss[l], 0, v)
    requires steps[l - 1].Drop? && DropsIt(sys, ss[l - 1], v)
    ensures InLayer(sys, ss[i], 0, v) || Unseen(sys, ss, steps, i, l, v)
  {
    hide Inv, EngineRuns.Next, InFiles, DropsIt, Installs;
    if !Installs(steps, i, l - 1) {
      NoInstallHere(steps, i, l);
      SameVersion(sys, ss, specs, steps, i, l);
      PinnedFiles(sys, ss, specs, steps, i, l, v);
    }
  }

  lemma NoInstallHere(steps: seq<Step>, i: nat, l: nat)
    requires i < l <= |steps| && !Installs(steps, i, l - 1) && !steps[l - 1].Install?
    ensures !Installs(steps, i, l)
  {
  }

  lemma {:induction false} VisibleGrows(sys: Sys, ss: seq<State>, specs: seq<Spec>, steps: seq<Step>, i: nat, j: nat)
    requires EngineRuns.IsRun(sys, ss, specs, steps) && i <= j < |ss|
    ensures ss[i].visible <= ss[j].visible
    decreases j
  {
    hide Inv, EngineRuns.Next;
    if i < j {
      VisibleGrows(sys, ss, specs, steps, i, j - 1);
      RunKeepsInv(sys, ss, specs, steps, j - 1);
      VisibleStep(sys, ss[j - 1], specs[j - 1], steps[j - 1], ss[j], specs[j]);
    }
  }

  lemma VisibleStep(sys: Sys, s: State, spec: Spec, step: Step, s': State, spec': Spec)
    requires Inv(sys, s, spec) && EngineRuns.Next(sys, s, spec, step, s', spec')
    ensures s.visible <= s'.visible
  {
    hide CanCommit, RecordOk, SpecMany, WriteMany, CanFill, MemsSound, Tracks, Layered, FirstsAscend, CacheOk,
         CatalogOk, VersionOk, PhaseOk, SysOk, CommitOk, StoreAfter, Rows, VersionOf, Inv;
    CountedBelow(sys, s, spec);
    if step.Write? {
      BatchIsMany(s, step.recs, |step.recs|);
    } else {
      SameCounter(sys, s, spec, step, s', spec');
    }
  }

  /** From the moment the read sequence number is fixed, the key's last operation
      is harvested or dropped unseen. */
  lemma {:induction false} LastOrUnseen(sys: Sys, ss: seq<State>, specs: seq<Spec>, steps: seq<Step>, i: nat, m: nat,
                                        l: nat, uk: bytes)
    requires EngineRuns.IsRun(sys, ss, specs, steps) && i <= m <= l < |ss| && uk in specs[m]
    ensures InLayer(sys, ss[i], 0, specs[m][uk]) || InMemory(sys, ss[l], specs[m][uk]) ||
            Unseen(sys, ss, steps, i, l, specs[m][uk])
    decreases l
  {
    hide Inv, EngineRuns.Next, InFiles, DropsIt, Installs, InMem, InMemory, InLayer;
    var v := specs[m][uk];
    if m < l {
      LastOrUnseen(sys, ss, specs, steps, i, m, l - 1, uk);
      RunKeepsInv(sys, ss, specs, steps, l - 1);
      if InMemory(sys, ss[l - 1], v) && !InMemory(sys, ss[l], v) {
        MemoryLeaves(sys, ss[l - 1], specs[l - 1], steps[l - 1], ss[l], specs[l], v);
        if !Installs(steps, i, l - 1) { DroppedIsSeen(sys, ss, specs, steps, i, m, l - 1, uk); }
      }
    } else {
      RunKeepsInv(sys, ss, specs, steps, m);
      LastIsOld(sys, ss[m], specs[m], uk);
      StoredOrUnseen(sys, ss, specs, steps, i, m, v);
    }
  }

  /** The memtable of a flush installed before the scan began: its newest
      versions are in the scan's version. */
  lemma DroppedIsSeen(sys: Sys, ss: seq<State>, specs: seq<Spec>, steps: seq<Step>, i: nat, m: nat, l: nat, uk: bytes)
    requires EngineRuns.IsRun(sys, ss, specs, steps) && i <= m <= l < |steps| && uk in specs[m]
    requires steps[l].Drop? && DropsIt(sys, ss[l], specs[m][uk]) && !Installs(steps, i, l)
    ensures InLayer(sys, ss[i], 0, specs[m][uk])
  {
    hide Inv, EngineRuns.Next, InMem, InFiles;
    var s, v := ss[l], specs[m][uk];
    RunKeepsInv(sys, ss, specs, steps, m);
    LastIsOld(sys, ss[m], specs[m], uk);
    RunKeepsInv(sys, ss, specs, steps, l);
    StaysClean(sys, ss, specs, steps, i, l, uk);
    VisibleGrows(sys, ss, specs, steps, i, m);
    DropPhase(sys, s, specs[l], ss[l + 1], specs[l + 1]);
    forall w | InMem(sys.env, s.queue[0], w) && w.key.uk == uk
      ensures NotNewer(w, v)
    {
      assert InLayer(sys, s, 1, w);
      NothingNewer(sys, ss, specs, steps, m, l, w);
    }
    DroppedIsSaved(sys, s, v);
    SameVersion(sys, ss, specs, steps, i, l);
    PinnedFiles(sys, ss, specs, steps, i, l, v);
  }

  lemma DropPhase(sys: Sys, s: State, spec: Spec, s': State, spec': Spec)
    requires Inv(sys, s, spec) && EngineRuns.Next(sys, s, spec, Drop, s', spec')
    ensures s.phase.Installed? && PhaseOk(sys, s)
  {
    hide SysOk, MemsSound, Tracks, Layered, Counted, FirstsAscend, CacheOk, CatalogOk, VersionOk, PhaseOk;
  }

  // ── Nothing harvested is too new ──────────────────────────────────────────

  lemma SpecStep(sys: Sys, s: State, spec: Spec, step: Step, s': State, spec': Spec, uk: bytes)
    requires Inv(sys, s, spec) && EngineRuns.Next(sys, s, spec, step, s', spec') && uk in spec
    ensures uk in spec' && NotNewer(spec[uk], spec'[uk])
  {
    hide Inv, CanCommit, RecordOk, SpecMany, WriteMany, CanFill, CommitOk, StoreAfter, Rows, VersionOf, CommitFlush,
         FlushFails, DropOldest, Rotated, LastIndex;
    LastIsOld(sys, s, spec, uk);
    if step.Write? { SpecManyIs(spec, step.recs, s.counter, |step.recs|, uk); }
  }

  lemma {:induction false} SpecGrows(sys: Sys, ss: seq<State>, specs: seq<Spec>, steps: seq<Step>, i: nat, m: nat,
                                     uk: bytes)
    requires EngineRuns.IsRun(sys, ss, specs, steps) && i <= m < |ss| && uk in specs[i]
    ensures uk in specs[m] && NotNewer(specs[i][uk], specs[m][uk])
    decreases m
  {
    hide Inv, EngineRuns.Next;
    if i < m {
      SpecGrows(sys, ss, specs, steps, i, m - 1, uk);
      RunKeepsInv(sys, ss, specs, steps, m - 1);
      SpecStep(sys, ss[m - 1], specs[m - 1], steps[m - 1], ss[m], specs[m], uk);
    }
  }

  lemma HarvestedIsOld(sys: Sys, ss: seq<State>, specs: seq<Spec>, steps: seq<Step>, i: nat, m: nat, j: nat, v: MemRec)
    requires EngineRuns.IsRun(sys, ss, specs, steps) && i <= m <= j < |ss|
    requires Harvested(sys, ss[i].version, ss[j], v) && v.key.seqno <= ss[m].visible
    ensures v.key.uk in specs[m] && NotNewer(v, specs[m][v.key.uk])
  {
    hide Inv, EngineRuns.Next, InLayer, InFiles;
    PinnedFiles(sys, ss, specs, steps, i, j, v);
    if InMemory(sys, ss[j], v) {
      NothingNewer(sys, ss, specs, steps, m, j, v);
    } else {
      RunKeepsInv(sys, ss, specs, steps, i);
      StoredTracked(sys, ss[i], specs[i], v);
      SpecGrows(sys, ss, specs, steps, i, m, v.key.uk);
    }
  }

  lemma StoredTracked(sys: Sys, s: State, spec: Spec, v: MemRec)
    requires Inv(sys, s, spec) && InState(sys, s, v)
    ensures v.key.uk in spec && NotNewer(v, spec[v.key.uk])
  {
    hide SysOk, MemsSound, Layered, Counted, FirstsAscend, CacheOk, CatalogOk, VersionOk, PhaseOk, InState;
  }

  /** Over every run: a scan that takes its version in state `i`, fixes its read
      sequence number in state `m` and reads the memtables in state `j` keeps the
      key's last operation of state `m` if and only if no memtable that holds it
      is dropped from `i` to `j` after an install in that time. */
  lemma EarlyVersionIff(sys: Sys, ss: seq<State>, specs: seq<Spec>, steps: seq<Step>, i: nat, m: nat, j: nat, uk: bytes,
                        kept: Option<MemRec>)
    requires EngineRuns.IsRun(sys, ss, specs, steps) && i <= m <= j < |ss|
    requires Kept(sys, ss[i].version, ss[j], uk, ss[m].visible, kept)
    ensures kept == LastOp(specs[m], uk) <==> uk !in specs[m] || !Unseen(sys, ss, steps, i, j, specs[m][uk])
  {
    hide Inv, EngineRuns.Next, InLayer, InFiles, Unseen, InMemory;
    if kept.Some? { HarvestedIsOld(sys, ss, specs, steps, i, m, j, kept.value); }
    if uk in specs[m] {
      var v := specs[m][uk];
      RunKeepsInv(sys, ss, specs, steps, m);
      LastIsOld(sys, ss[m], specs[m], uk);
      PinnedFiles(sys, ss, specs, steps, i, j, v);
      if Unseen(sys, ss, steps, i, j, v) {
        UnseenIsGone(sys, ss, specs, steps, i, j, v);
      } else {
        LastOrUnseen(sys, ss, specs, steps, i, m, j, uk);
      }
    }
  }
}
