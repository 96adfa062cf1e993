/** A concrete engine to show that the premises of the theorems can be met, and
    small tables for runs in which promises fail. */
module Samples {
  import opened Wrappers
  import opened ByteStrings
  import opened Keys
  import opened Table
  import opened Visibility
  import opened Sst
  import opened Memtable
  import opened DeletionVector
  import opened Manifest
  import opened Versions
  import opened Catalog
  import opened LiveFiles
  import opened ReadPath
  import opened Flush
  import opened FlushCommit
  import opened EngineState
  import opened EngineSteps
  import opened EngineRuns

  // ── A codec and a writer ──────────────────────────────────────────────────

  /** One more than the greatest position. */
  ghost function Bound(dv: Bitmap): (n: nat)
    ensures n <= U32 && (forall x :: x in dv ==> x < n) && (n == 0 || n - 1 in dv)
    decreases |dv|
  {
    if dv == {} then 0
    else
      var x :| x in dv;
      assert forall y :: y in dv ==> y == x || y in dv - {x};
      var n := Bound(dv - {x});
      if x + 1 > n then x + 1 else n
  }

  /** One byte per position. */
  ghost function Bits(dv: Bitmap): (s: bytes)
    ensures |s| == Bound(dv)
  {
    seq(Bound(dv), i requires 0 <= i < Bound(dv) => if i in dv then 1 else 0)
  }

  function Unbits(s: bytes): Result<Bitmap> {
    if |s| > U32 then Err(Corruption) else Ok(set i: u32 | 0 <= i < |s| && s[i] == 1)
  }

  lemma BitsRoundTrip(dv: Bitmap)
    ensures Unbits(Bits(dv)) == Ok(dv)
  {
    var s := Bits(dv);
    assert (set i: u32 | 0 <= i < |s| && s[i] == 1) == dv;
  }

  ghost function SampleCodec(): Codec {
    Codec(dv => Bits(dv), s => Unbits(s), s => 0, (path, snapshot, dv) => [])
  }

  /** A table with one key column of one byte. */
  ghost function SampleSys(): Sys {
    Sys(Env([FixedLen(1)], k => 0), SampleCodec(), rows => PlainFile(rows), uk => Row([]))
  }

  lemma SampleSysOk()
    ensures SysOk(SampleSys()) && Faithful(SampleCodec())
  {
    forall dv: Bitmap
      ensures SampleCodec().deserialize(SampleCodec().serialize(dv)) == Ok(dv)
    {
      BitsRoundTrip(dv);
    }
    forall rows | Sorted(rows) && AllValid(SampleSys().env, rows)
      ensures WriterOk(SampleSys(), rows)
    {
      PlainFileOk(SampleSys().env, rows);
    }
  }

  /** Small bitmaps can be encoded. */
  lemma SampleEncodable(path: DataPath, snapshot: nat, dv: Bitmap)
    requires forall x :: x in dv ==> x < 8
    ensures Encodable(SampleCodec(), path, snapshot, dv)
  {
    hide ToLe, Bits;
    assert |SampleCodec().serialize(dv)| <= 8;
  }

  // ── Keys and records ──────────────────────────────────────────────────────

  const UK: bytes := [7]

  lemma SampleKey()
    ensures IsUserKey(UK, SampleSys().env.keyTypes) && !ZeroWidth(SampleSys().env.keyTypes)
  {
    var vs, ts := [BytesVal(UK)], SampleSys().env.keyTypes;
    assert vs[1..] == [] && ts[1..] == [];
    assert EncodeField(vs[0], ts[0]) == Ok(UK) && EncodeFields([], []) == Ok([]);
    assert EncodeFields(vs, ts) == Ok(UK + []) && UK + [] == UK;
    assert EncodePk(vs, ts) == Ok(UK);
    assert ts[0] != FixedLen(0);
  }

  const REWRITE: BatchRec := BatchRec(Put, UK, Some(Row([])))

  // ── A table with one file ─────────────────────────────────────────────────

  const P: DataPath := DataPath("data/L0", "p")

  function OneFileManifest(meta: FileMeta, dv: DvCoords): Manifest {
    EMPTY_MANIFEST.(snapshotId := 1, entries := [Entry(P, meta, dv, Added, Some(0))])
  }

  lemma OneFileVersion(meta: FileMeta, dv: DvCoords)
    ensures WellArranged(VersionOf(OneFileManifest(meta, dv)))
    ensures forall f :: InVersion(VersionOf(OneFileManifest(meta, dv)), f) <==> f == DataFile(P, meta, dv)
  {
    hide VersionOf, InVersion, WellArranged;
    var m := OneFileManifest(meta, dv);
    VersionListsLive(m);
    forall f
      ensures FromEntry(m.entries, f) <==> f == DataFile(P, meta, dv)
    {
      assert LiveEntry(m.entries, m.entries[0]);
    }
  }

  /** A sound file makes a sound table. */
  lemma OneFileTable(sys: Sys, s: Store, file: File, meta: FileMeta, dv: DvCoords)
    requires s.manifest == OneFileManifest(meta, dv) && RefOlder(dv, s.nextVer)
    requires FileReady(sys.env, sys.codec, Disk(map[P := file], s.puffins), DataFile(P, meta, dv))
    ensures CatalogOk(sys.codec, s)
    ensures VersionOk(sys.env, sys.codec, Disk(map[P := file], s.puffins), VersionOf(s.manifest))
  {
    hide VersionOf, InVersion, WellArranged, FileSound, LoadDv;
    OneFileVersion(meta, dv);
    forall e | LiveEntry(s.manifest.entries, e)
      ensures DvOk(sys.codec, s, e)
    {
      assert e == s.manifest.entries[0];
    }
  }

  // ── One write, rotated ────────────────────────────────────────────────────

  lemma RewriteOk()
    ensures RecordOk(SampleSys(), REWRITE)
  {
    SampleKey();
  }

  /** The version the write gets. */
  function Rewritten(seqno: nat): MemRec {
    Stored(InternalKey(UK, seqno, Put), Some(Row([])))
  }

  /** A memtable that holds just this write. */
  function RewriteMem(firstSeq: nat, seqno: nat): Mem
    requires seqno < SEQNUM_MAX
  {
    Mem([SlotFor(REWRITE, seqno)], firstSeq, if seqno > firstSeq then seqno else firstSeq, true)
  }

  lemma RewriteRecs(firstSeq: nat, seqno: nat)
    requires seqno < SEQNUM_MAX
    ensures MemOk(SampleSys().env, RewriteMem(firstSeq, seqno))
    ensures Recs(SampleSys().env, RewriteMem(firstSeq, seqno).slots) == [Rewritten(seqno)]
  {
    hide IsUserKey, SeqOf, UserKeyOf, EncodeIkey, Less, Tag;
    SampleKey();
    SlotForOk(SampleSys().env, REWRITE, seqno);
  }

  lemma RewriteInMem(firstSeq: nat, seqno: nat, v: MemRec)
    requires seqno < SEQNUM_MAX
    ensures InMem(SampleSys().env, RewriteMem(firstSeq, seqno), v) <==> v == Rewritten(seqno)
  {
    hide SlotFor, Recs, MemOk;
    RewriteRecs(firstSeq, seqno);
    assert Rewritten(seqno) in [Rewritten(seqno)];
  }

  lemma RewriteHasKey(firstSeq: nat, seqno: nat, uk: bytes)
    requires seqno < SEQNUM_MAX
    ensures HasKey(SampleSys().env, RewriteMem(firstSeq, seqno), uk) <==> uk == UK
  {
    hide InMem, RewriteMem;
    RewriteInMem(firstSeq, seqno, Rewritten(seqno));
    forall v
      ensures InMem(SampleSys().env, RewriteMem(firstSeq, seqno), v) <==> v == Rewritten(seqno)
    {
      RewriteInMem(firstSeq, seqno, v);
    }
  }

  lemma RewriteEntries(firstSeq: nat, seqno: nat)
    requires seqno < SEQNUM_MAX
    ensures MemOk(SampleSys().env, RewriteMem(firstSeq, seqno))
    ensures EntriesOf(SampleSys().env, RewriteMem(firstSeq, seqno), [Rewritten(seqno)])
  {
    hide SlotFor, Less;
    RewriteRecs(firstSeq, seqno);
    var recs := [Rewritten(seqno)];
    assert Hit(recs[0], 0, Query(UK, SEQNUM_MAX, {}));
    assert Occurs(recs, 1, recs[0]) && Listed(recs, UK);
  }

  /** Opening the table, writing the key and rotating. */
  ghost function WrittenState(store: Store, files: map<DataPath, File>, init: nat): State
    requires 1 <= init < SEQNUM_MAX
  {
    Rotated(WriteMany(Opened(store, files, init), [REWRITE], 1))
  }

  lemma WrittenStateIs(store: Store, files: map<DataPath, File>, init: nat)
    requires 1 <= init < SEQNUM_MAX
    ensures WrittenState(store, files, init) ==
            State(Memtable.Fresh(init + 2), [RewriteMem(init, init)], init + 1, init, store, files,
                  VersionOf(store.manifest), Idle, map[])
    ensures WriteMany(Opened(store, files, init), [REWRITE], 1).active.slots != []
  {
    hide VersionOf, SlotFor;
  }

  /** The flush of that memtable, with the given deltas. */
  function RewriteJob(init: nat, path: DataPath, deltas: map<DataPath, Bitmap>): Job
    requires init < SEQNUM_MAX
  {
    Job(RewriteMem(init, init), [Rewritten(init)], path, FileMeta(0, init, init, UK, UK, 1), deltas)
  }

  lemma RewriteSound(firstSeq: nat, seqno: nat)
    requires seqno < SEQNUM_MAX
    ensures MemSound(SampleSys().env, RewriteMem(firstSeq, seqno))
  {
    hide InMem, RewriteMem, MemOk;
    RewriteRecs(firstSeq, seqno);
    forall v
      ensures InMem(SampleSys().env, RewriteMem(firstSeq, seqno), v) <==> v == Rewritten(seqno)
    {
      RewriteInMem(firstSeq, seqno, v);
    }
  }

  lemma RewriteDescribed(init: nat, path: DataPath, deltas: map<DataPath, Bitmap>)
    requires init < SEQNUM_MAX
    ensures var job := RewriteJob(init, path, deltas);
            RowsOf(SampleSys(), job) == [Stored(InternalKey(UK, init, Put), Row([]))] &&
            DescribesRows(job.meta, RowsOf(SampleSys(), job))
  {
    hide RewriteMem;
    var job := RewriteJob(init, path, deltas);
    var rows := RowsOf(SampleSys(), job);
    assert |rows| == 1 && rows[0] == RowFor(SampleSys().pkOnly, job.entries[0]);
    assert rows[0].key.seqno == job.meta.seqMin == job.meta.seqMax;
  }

  /** The flush can commit in the state after the write. */
  lemma RewriteCommits(store: Store, files: map<DataPath, File>, init: nat, path: DataPath,
                       deltas: map<DataPath, Bitmap>)
    requires 1 <= init < SEQNUM_MAX && PathFree(store, files, path)
    requires DeltasSound(SampleSys(), Disk(files, store.puffins), VersionOf(store.manifest), RewriteMem(init, init),
                         deltas)
    requires CommitOk(SampleCodec(), store, TxnOf(SampleSys(), RewriteJob(init, path, deltas)))
    ensures CanCommit(SampleSys(), WrittenState(store, files, init), RewriteJob(init, path, deltas))
  {
    hide VersionOf, CommitOk, DescribesRows, EntriesOf, MemSound, DeltasSound, Rows, RewriteMem, WriteMany, Rotated,
         Opened;
    RewriteSound(init, init);
    RewriteEntries(init, init);
    RewriteDescribed(init, path, deltas);
    WrittenStateIs(store, files, init);
  }

  ghost function SampleStates(store: Store, files: map<DataPath, File>, init: nat, job: Job): seq<State>
    requires 1 <= init < SEQNUM_MAX && CommitOk(SampleCodec(), store, TxnOf(SampleSys(), job))
  {
    var s0 := Opened(store, files, init);
    var s1 := WriteMany(s0, [REWRITE], 1);
    WrittenStateIs(store, files, init);
    var s3 := CommitFlush(SampleSys(), Rotated(s1), job);
    [s0, s1, Rotated(s1), s3, InstallVersion(s3)]
  }

  function SampleSpecs(spec: Spec, init: nat): seq<Spec> {
    var after := SpecMany(spec, [REWRITE], init, 1);
    [spec, after, after, after, after]
  }

  function SampleSteps(job: Job, keys: seq<bytes>): seq<Step> {
    [Write([REWRITE]), Rotate, Step.Flush(job, keys), Install]
  }

  /** Open, write, rotate, flush, install. */
  lemma SampleRun(store: Store, files: map<DataPath, File>, init: nat, spec: Spec, job: Job, keys: seq<bytes>)
    requires 1 <= init < SEQNUM_MAX && Inv(SampleSys(), Opened(store, files, init), spec)
    requires CanCommit(SampleSys(), WrittenState(store, files, init), job)
    ensures CommitOk(SampleCodec(), store, TxnOf(SampleSys(), job))
    ensures EngineRuns.IsRun(SampleSys(), SampleStates(store, files, init, job), SampleSpecs(spec, init),
                             SampleSteps(job, keys))
  {
    hide Inv, RecordOk, WriteMany, SpecMany, VersionOf, JobReady, CommitOk, Rotated, CommitFlush, Opened;
    RewriteOk();
    WrittenStateIs(store, files, init);
    OpenedCounter(store, files, init);
    ReadyCommits(SampleSys(), WrittenState(store, files, init), job);
    CommitPhase(SampleSys(), WrittenState(store, files, init), job);
    var ss, specs, steps := SampleStates(store, files, init, job), SampleSpecs(spec, init), SampleSteps(job, keys);
    assert EngineRuns.Next(SampleSys(), ss[0], specs[0], steps[0], ss[1], specs[1]);
    assert EngineRuns.Next(SampleSys(), ss[1], specs[1], steps[1], ss[2], specs[2]);
    assert EngineRuns.Next(SampleSys(), ss[2], specs[2], steps[2], ss[3], specs[3]);
    assert EngineRuns.Next(SampleSys(), ss[3], specs[3], steps[3], ss[4], specs[4]);
  }

  lemma OpenedCounter(store: Store, files: map<DataPath, File>, init: nat)
    requires init >= 1
    ensures Opened(store, files, init).counter == init
  {
  }

  lemma CommitPhase(sys: Sys, s: State, job: Job)
    requires CommitOk(sys.codec, s.store, TxnOf(sys, job))
    ensures CommitFlush(sys, s, job).phase.Committed? && CommitFlush(sys, s, job).queue == s.queue
  {
  }

  lemma ReadyCommits(sys: Sys, s: State, job: Job)
    requires CanCommit(sys, s, job)
    ensures CommitOk(sys.codec, s.store, TxnOf(sys, job))
  {
  }

  // ── A table with one row ──────────────────────────────────────────────────

  const OLD_ROW: Rec := Stored(InternalKey(UK, 1, Put), Row([]))
  const OLD_META: FileMeta := FileMeta(0, 1, 1, UK, UK, 1)
  const OLD_FILE: DataFile := DataFile(P, OLD_META, NO_DV)

  function OldStore(): Store {
    Store(OneFileManifest(OLD_META, NO_DV), 2, map[])
  }

  function OldFiles(): map<DataPath, File> {
    map[P := PlainFile([OLD_ROW])]
  }

  function OldDisk(): Disk {
    Disk(OldFiles(), map[])
  }

  lemma OldRowReady()
    ensures FileReady(SampleSys().env, SampleCodec(), OldDisk(), OLD_FILE)
    ensures Content(OldDisk(), OLD_FILE) == PlainFile([OLD_ROW]) && DvOf(SampleCodec(), OldDisk(), OLD_FILE) == {}
  {
    hide IsUserKey;
    SampleKey();
    PlainFileOk(SampleSys().env, [OLD_ROW]);
    NoCoords(SampleCodec(), map[]);
    LessIrreflexive(UK);
  }

  lemma OldTableOk()
    ensures CatalogOk(SampleCodec(), OldStore())
    ensures VersionOk(SampleSys().env, SampleCodec(), OldDisk(), VersionOf(OldStore().manifest))
    ensures forall f :: InVersion(VersionOf(OldStore().manifest), f) <==> f == OLD_FILE
    ensures forall x :: OnDisk(SampleCodec(), OldDisk(), VersionOf(OldStore().manifest), x) <==> x == OLD_ROW
  {
    hide VersionOf, InVersion, FileReady, CatalogOk, VersionOk, DvOf;
    OldRowReady();
    OneFileVersion(OLD_META, NO_DV);
    OneFileTable(SampleSys(), OldStore(), PlainFile([OLD_ROW]), OLD_META, NO_DV);
    assert ShowsAt(SampleCodec(), OldDisk(), OLD_FILE, 0);
    assert Shows(SampleCodec(), OldDisk(), OLD_FILE, OLD_ROW);
  }

  const OLD_SPEC: Spec := map[UK := Stored(InternalKey(UK, 1, Put), Some(Row([])))]

  /** Opening it, with the next sequence number 2. */
  lemma OldTableOpens()
    ensures Inv(SampleSys(), Opened(OldStore(), OldFiles(), 2), OLD_SPEC)
    ensures NewestOnDisk(SampleCodec(), OldDisk(), VersionOf(OldStore().manifest), UK, 1, Some(OLD_ROW))
  {
    hide VersionOf, InVersion, SysOk, CatalogOk, VersionOk, OnDisk, Inv;
    SampleSysOk();
    OldTableOk();
    var v := VersionOf(OldStore().manifest);
    assert NewestOnDisk(SampleCodec(), OldDisk(), v, UK, 1, Some(OLD_ROW)) && OLD_SPEC[UK] == FromRow(OLD_ROW);
    assert DiskSpec(SampleSys(), OldDisk(), v, 1, OLD_SPEC);
    OpenedOk(SampleSys(), OldStore(), OldFiles(), 2, OLD_SPEC);
  }
}
