/** Runs and states in which promises of the engine fail. */
module Counterexamples {
  import opened Wrappers
  import opened ByteStrings
  import opened Table
  import opened Memtable
  import opened DeletionVector
  import opened Manifest
  import opened Versions
  import opened Catalog
  import opened LiveFiles
  import opened ReadPath
  import opened Flush
  import opened FlushCommit
  import opened EngineState
  import opened EngineSteps
  import opened EngineRuns
  import opened Emission
  import opened Hazards
  import opened EngineReads
  import opened VersionFate
  import opened SplitLookup
  import opened LookupWindow
  import opened EarlyVersion
  import opened Samples
  import DvResolve
  import KeyRange

  const Q: DataPath := DataPath("data/L0", "q")

  // ── A lookup that misses a live key ───────────────────────────────────────

  const MARK: map<DataPath, Bitmap> := map[P := {0}]

  function FlushJob(): Job {
    RewriteJob(2, Q, MARK)
  }

  lemma OldDelta()
    ensures KeyRange.FileOk(Content(OldDisk(), OLD_FILE))
    ensures DvResolve.Delta(SampleCodec(), OldDisk(), OLD_FILE, [UK]) == {0}
    ensures !DvResolve.Unresolvable(SampleCodec(), OldDisk(), OLD_FILE, [UK])
    ensures KeyRange.NoneLost(Content(OldDisk(), OLD_FILE))
  {
    hide FileReady, DvResolve.Delta, DvOf, LoadDv;
    OldRowReady();
    NoCoords(SampleCodec(), map[]);
    var env, codec, disk := SampleSys().env, SampleCodec(), OldDisk();
    DvResolve.ReadyParts(env, codec, disk, OLD_FILE);
    assert UK in [UK];
    DvResolve.DeltaExact(env, codec, disk, OLD_FILE, [UK]);
    assert DvResolve.Wanted(codec, disk, OLD_FILE, [UK]) == {0};
    assert DvResolve.Fits(codec, disk, OLD_FILE, [UK]) by {
      forall p | DvResolve.Searched(codec, disk, OLD_FILE, [UK]) && p in DvResolve.Found(disk, OLD_FILE, [UK])
        ensures p < U32
      {
        DvResolve.FoundIs(env, codec, disk, OLD_FILE, [UK], p);
      }
    }
  }

  lemma FlushResolved()
    ensures Resolved(SampleSys(), OldDisk(), VersionOf(OldStore().manifest), RewriteMem(2, 2), [UK], MARK)
  {
    hide VersionOf, InVersion, RewriteMem, HasKey, DvResolve.Delta, DvResolve.Unresolvable, KeyRange.FileOk, OnDisk,
         CatalogOk, VersionOk;
    OldTableOk();
    OldDelta();
    forall uk
      ensures uk in [UK] <==> HasKey(SampleSys().env, RewriteMem(2, 2), uk)
    {
      RewriteHasKey(2, 2, uk);
    }
  }

  lemma FlushCommits()
    ensures CommitOk(SampleCodec(), OldStore(), TxnOf(SampleSys(), FlushJob()))
  {
    hide RewriteMem, Encodable;
    var txn := TxnOf(SampleSys(), FlushJob());
    assert Merged(SampleCodec(), OldStore(), txn, P) == Ok({} + {0}) && {} + {0} == {0 as u32};
    SampleEncodable(P, 2, {0});
  }

  lemma FlushCanCommit()
    ensures CanCommit(SampleSys(), WrittenState(OldStore(), OldFiles(), 2), FlushJob())
    ensures CommitOk(SampleCodec(), OldStore(), TxnOf(SampleSys(), FlushJob()))
  {
    hide VersionOf, CommitOk, CanCommit, RewriteMem, Resolved, DeltasSound, VersionOk, CatalogOk, OnDisk, InVersion;
    FlushCommits();
    FlushResolved();
    OldTableOk();
    ResolvedIsSound(SampleSys(), OldDisk(), VersionOf(OldStore().manifest), RewriteMem(2, 2), [UK], MARK);
    RewriteCommits(OldStore(), OldFiles(), 2, Q, MARK);
  }

  /** The states: opened with one row of the key, written again, rotated,
      flushed with deletion vectors, installed. */
  ghost function States(): seq<State> {
    FlushCanCommit();
    SampleStates(OldStore(), OldFiles(), 2, FlushJob())
  }

  function Specs(): seq<Spec> {
    SampleSpecs(OLD_SPEC, 2)
  }

  function Steps(): seq<Step> {
    SampleSteps(FlushJob(), [UK])
  }

  lemma StatesAreRun()
    ensures EngineRuns.IsRun(SampleSys(), States(), Specs(), Steps())
    ensures Inv(SampleSys(), States()[3], Specs()[3])
  {
    hide Inv, EngineRuns.Next, SampleStates, SampleSpecs, SampleSteps, CanCommit, CommitOk, NewestOnDisk;
    FlushCanCommit();
    OldTableOpens();
    FirstState();
    SampleRun(OldStore(), OldFiles(), 2, OLD_SPEC, FlushJob(), [UK]);
    RunKeepsInv(SampleSys(), States(), Specs(), Steps(), 3);
  }

  /** The state in which the flush has committed but is not installed. */
  lemma CommittedState()
    ensures
      var s := States()[3];
      s.phase.Committed? && s.queue == [RewriteMem(2, 2)] && s.version == VersionOf(OldStore().manifest) &&
      s.phase.path == Q && MarksAll(SampleSys(), DiskOf(s), s.phase.next, s.queue[0], Q)
  {
    hide VersionOf, CommitOk, RewriteMem, Resolved, DeltasComplete, VersionOk, OnDisk, InVersion, MarksAll, StoreAfter,
         JobReady, SysOk, CatalogOk, WriteMany, Rotated, Rows;
    FlushCanCommit();
    FlushResolved();
    OldTableOk();
    OldDelta();
    SampleSysOk();
    WrittenStateIs(OldStore(), OldFiles(), 2);
    var sys, v := SampleSys(), VersionOf(OldStore().manifest);
    ResolvedIsComplete(sys, OldDisk(), v, RewriteMem(2, 2), [UK], MARK);
    assert JobOk(sys, OldStore(), OldFiles(), FlushJob());
    CompleteMarksAll(sys, OldStore(), OldFiles(), FlushJob());
  }

  /** The lookup begins in the first state and takes its version in the last. The
      key is live throughout, but the lookup finds nothing. */
  lemma LookupMissesLiveKey()
    ensures EngineRuns.IsRun(SampleSys(), States(), Specs(), Steps())
    ensures forall i :: 0 <= i <= 4 ==> Answer(Specs()[i], UK).Some?
    ensures Found(SampleSys(), States()[0], States()[4], UK, States()[0].visible, None)
  {
    hide Inv, EngineRuns.Next, SampleSteps, VersionOf, CommitOk, States, MemNewest, NewestOnDisk;
    StatesAreRun();
    FirstState();
    MissesAtFirst();
    forall y | OnDisk(SampleSys().codec, DiskOf(States()[4]), States()[4].version, y)
      ensures !Readable(y, UK, 1)
    {
      if Readable(y, UK, 1) { NothingLeft(y); }
    }
    NothingSeen(SampleSys(), States()[4], UK, 1);
    assert Reads(SampleSys(), States()[4], UK, 1, None) && AsVersion(None) == None;
  }

  lemma NothingSeen(sys: Sys, s: State, uk: bytes, r: nat)
    requires forall y :: OnDisk(sys.codec, DiskOf(s), s.version, y) ==> !Readable(y, uk, r)
    ensures Reads(sys, s, uk, r, None)
  {
  }

  lemma FirstState()
    ensures |States()| == 5 && States()[0].visible == 1 && States()[0].counter == 2
    ensures States()[0].queue == [] && States()[0].active.slots == []
    ensures forall y :: OnDisk(SampleCodec(), DiskOf(States()[0]), States()[0].version, y) <==> y == OLD_ROW
  {
    hide Inv, VersionOf, CommitOk, NewestOnDisk, OnDisk, CatalogOk, VersionOk, InVersion;
    FlushCanCommit();
    OldTableOpens();
    OldTableOk();
  }

  lemma MissesAtFirst()
    ensures MemtablesOk(SampleSys(), States()[0])
    ensures MemNewest(SampleSys().env, States()[0].active, States()[0].queue, UK, 1) == None
  {
    hide States, InFiles, AboveFrom;
    FirstState();
    var sys, s := SampleSys(), States()[0];
    OpenLayers(sys, s, 0, FromRow(OLD_ROW));
    SoundMemtables(sys, s);
    MemoryUpTo(sys, s, UK, 1);
    forall k, v
      ensures !TopUpTo(sys, s, k, UK, 1, v)
    {
      OpenLayers(sys, s, k, v);
    }
  }

  /** The only row of the key at the beginning is masked at the end. */
  lemma NothingLeft(y: Rec)
    requires y.key.uk == UK && y.key.seqno <= 1
    ensures !OnDisk(SampleCodec(), DiskOf(States()[4]), States()[4].version, y)
  {
    hide States, OnDisk, InState;
    FirstState();
    LostAtInstall(FromRow(y));
    NotStoredNotShown(SampleSys(), States()[4], y);
  }

  lemma NotStoredNotShown(sys: Sys, s: State, y: Rec)
    requires !InState(sys, s, FromRow(y))
    ensures !OnDisk(sys.codec, DiskOf(s), s.version, y)
  {
    hide OnDisk;
    assert !InLayer(sys, s, 0, FromRow(y));
  }

  lemma LostAtInstall(v: MemRec)
    requires v.key.uk == UK && v.key.seqno <= 1
    ensures !InState(SampleSys(), States()[4], v)
  {
    hide Inv, EngineRuns.Next, SampleSteps, VersionOf, CommitOk, States, MarksAll, InFiles, HasKey, Loses, InState;
    var sys, ss := SampleSys(), States();
    StatesAreRun();
    FirstState();
    StepsAre();
    CommittedState();
    VersionsOverTime(sys, ss, Specs(), Steps(), 0, 3, v);
    VersionsOverTime(sys, ss, Specs(), Steps(), 3, 4, v);
    if InState(sys, ss[3], v) {
      MemoryAbove();
      OldOnDisk(sys, ss[3], v, 1);
      RewriteHasKey(2, 2, UK);
      CompleteFlushLoses(sys, ss[3], Specs()[3], v);
      assert Loses(sys, ss[3], Steps()[3], v);
    }
  }

  lemma OldOnDisk(sys: Sys, s: State, v: MemRec, r: nat)
    requires MemAbove(sys, s, v.key.uk, r) && v.key.seqno <= r && InState(sys, s, v)
    ensures InFiles(sys, DiskOf(s), s.version, v)
  {
    hide InMem, InFiles;
    var k: nat :| InLayer(sys, s, k, v);
  }

  /** An old version is not in the memtable of the rewrite. */
  lemma MemoryAbove()
    ensures MemAbove(SampleSys(), States()[3], UK, 1)
  {
    hide Inv, EngineRuns.Next, States, InFiles, InMem;
    StatesAreRun();
    FirstState();
    forall k, v
      ensures InLayer(SampleSys(), States()[0], k, v) ==> k == 0
    {
      OpenLayers(SampleSys(), States()[0], k, v);
    }
    RunAbove(SampleSys(), States(), Specs(), Steps(), 0, 3, UK, 1);
  }

  lemma StepsAre()
    ensures |Steps()| == 4 && Steps()[3] == Install
  {
  }

  // ── A scan that takes its version too early ───────────────────────────────

  /** The same run, with the flushed memtable dropped. */
  ghost function LongStates(): seq<State> {
    FirstState();
    InstalledState();
    States() + [DropOldest(States()[4])]
  }

  function LongSpecs(): seq<Spec> {
    Specs() + [Specs()[4]]
  }

  function LongSteps(): seq<Step> {
    Steps() + [Drop]
  }

  lemma InstalledState()
    ensures
      var s := States()[4];
      s.phase.Installed? && s.queue == [RewriteMem(2, 2)]
  {
    hide VersionOf, CommitOk, RewriteMem, StoreAfter, WriteMany, Rotated, Rows;
    FlushCanCommit();
    WrittenStateIs(OldStore(), OldFiles(), 2);
  }

  lemma LongRun()
    ensures EngineRuns.IsRun(SampleSys(), LongStates(), LongSpecs(), LongSteps())
  {
    hide Inv, EngineRuns.Next, States, SampleSteps, SampleSpecs, DropOldest;
    StatesAreRun();
    FirstState();
    InstalledState();
    DropIsNext(SampleSys(), States()[4], Specs()[4]);
  }

  lemma DropIsNext(sys: Sys, s: State, spec: Spec)
    requires s.phase.Installed? && s.queue != []
    ensures EngineRuns.Next(sys, s, spec, Drop, DropOldest(s), spec)
  {
  }

  /** A scan that takes its version before the install and reads the memtables
      after the drop does not harvest the key's last operation. */
  lemma EarlyScanMisses()
    ensures EngineRuns.IsRun(SampleSys(), LongStates(), LongSpecs(), LongSteps())
    ensures Answer(LongSpecs()[5], UK).Some?
    ensures !Harvested(SampleSys(), LongStates()[3].version, LongStates()[5], LongSpecs()[5][UK])
  {
    hide Inv, EngineRuns.Next, States, DropOldest, InMem, InFiles, InMemory, EngineRuns.IsRun;
    LongRun();
    FirstState();
    InstalledState();
    RewriteInMem(2, 2, Rewritten(2));
    var sys, ss, steps, v := SampleSys(), LongStates(), LongSteps(), LongSpecs()[5][UK];
    assert steps[3] == Install && steps[4] == Drop && v == Rewritten(2);
    assert Unseen(sys, ss, steps, 3, 5, v);
    UnseenIsGone(sys, ss, LongSpecs(), steps, 3, 5, v);
    PinnedFiles(sys, ss, LongSpecs(), steps, 3, 5, v);
  }

  // ── A rotation of an empty memtable ───────────────────────────────────────

  /** A manual flush of a table with nothing in memory: rotate, then drop. */
  lemma EmptyFlushKeepsInv(sys: Sys, s: State, spec: Spec)
    requires Inv(sys, s, spec) && s.queue == [] && s.active.slots == []
    ensures DropEmpty(Rotated(s)) == s.(active := Memtable.Fresh(s.counter + 1))
    ensures Inv(sys, DropEmpty(Rotated(s)), spec)
  {
    hide SysOk, CatalogOk, VersionOk, InFiles, InMem, VersionOf, InVersion, MemSound;
    var t := s.(active := Memtable.Fresh(s.counter + 1));
    RetainSelf(s.active.(sealed := true));
    assert Rotated(s).queue == [s.active.(sealed := true)];
    EmptyMem(sys.env, s.counter + 1);
    forall k: nat, v
      ensures InLayer(sys, s, k, v) <==> k == 0 && InFiles(sys, DiskOf(s), s.version, v)
      ensures InLayer(sys, t, k, v) <==> k == 0 && InFiles(sys, DiskOf(t), t.version, v)
    {
      OpenLayers(sys, s, k, v);
      OpenLayers(sys, t, k, v);
    }
    SameLayersTrack(sys, s, t, spec);
    OpenLayers(sys, t, 0, Rewritten(0));
    assert MemsSound(sys, t) && Counted(sys, t) && FirstsAscend(t) && PhaseOk(sys, t) && CacheOk(t, spec);
    assert Layered(sys, t);
  }

  lemma RetainSelf(m: Mem)
    ensures Retain([m], m.firstSeq) == []
  {
    assert [m][1..] == [];
  }

  /** After such a flush of a new table the premises of
      `Hazards.EmptyRotationLosesWrites` hold. */
  lemma EmptyRotationIsReachable()
    ensures
      var s := DropEmpty(Rotated(Opened(Store(EMPTY_MANIFEST, 1, map[]), map[], 1)));
      Inv(SampleSys(), s, map[]) && s.queue == [] && s.active.slots == [] && s.active.firstSeq == s.counter + 1 &&
      RecordOk(SampleSys(), REWRITE)
  {
    hide Inv, VersionOf, RecordOk, SysOk;
    SampleSysOk();
    NewTableOk(SampleSys());
    EmptyFlushKeepsInv(SampleSys(), Opened(Store(EMPTY_MANIFEST, 1, map[]), map[], 1), map[]);
    RewriteOk();
  }
}
