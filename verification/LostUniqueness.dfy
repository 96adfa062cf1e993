/** A flush with deletion vectors, from a version with one visible row per key,
    after which a key has two: its versions lie on two pages, the older one is
    masked, and the resolver's stream skips the page of the newer one. */
module LostUniqueness {
  import opened Wrappers
  import opened ByteStrings
  import opened Keys
  import opened Table
  import opened Sst
  import opened DeletionVector
  import opened Manifest
  import opened Versions
  import opened Catalog
  import opened LiveFiles
  import opened ReadPath
  import opened Flush
  import opened FlushCommit
  import opened EngineState
  import opened EngineSteps
  import opened EngineRuns
  import opened Emission
  import opened Samples
  import opened UniqueRows
  import Straddling
  import DvResolve
  import KeyRange
  import KvIndex

  const Q: DataPath := DataPath("data/L0", "q")
  const META: FileMeta := FileMeta(0, 1, 2, UK, UK, 2)

  // ── The table ─────────────────────────────────────────────────────────────

  ghost function TwoVersions(): File {
    Straddling.TwoPagesOk();
    Straddling.TwoPages()
  }

  /** The older version is masked. */
  ghost function Coords(): DvCoords {
    DvCoords(Some(PuffinPath(P, 1)), Some(4), Some(|Blob(SampleCodec(), {1})|))
  }

  ghost function SplitStore(): Store {
    Store(OneFileManifest(META, Coords()), 2, map[PuffinPath(P, 1) := PuffinFile(SampleCodec(), P, 1, {1})])
  }

  ghost function SplitFiles(): map<DataPath, File> {
    map[P := TwoVersions()]
  }

  ghost function SplitDisk(): Disk {
    Disk(SplitFiles(), SplitStore().puffins)
  }

  ghost function SplitFile(): DataFile {
    DataFile(P, META, Coords())
  }

  lemma SplitMask()
    ensures LoadDv(SampleCodec(), SplitDisk().puffins, Coords()) == Ok({1})
    ensures DvOf(SampleCodec(), SplitDisk(), SplitFile()) == {1}
  {
    hide Blob, PuffinFile, LoadDv, Encodable, SampleCodec, TwoVersions, OneFileManifest, Faithful;
    SampleSysOk();
    SampleEncodable(P, 1, {1});
    WrittenLoads(SampleCodec(), SplitDisk().puffins, P, 1, {1});
  }

  lemma WrittenLoads(codec: Codec, puffins: Puffins, path: DataPath, snapshot: nat, dv: Bitmap)
    requires Faithful(codec) && Encodable(codec, path, snapshot, dv) && PuffinPath(path, snapshot) in puffins
    requires puffins[PuffinPath(path, snapshot)] == PuffinFile(codec, path, snapshot, dv)
    ensures LoadDv(codec, puffins, DvCoords(Some(PuffinPath(path, snapshot)), Some(4), Some(|Blob(codec, dv)|))) ==
            Ok(dv)
  {
    hide Blob, PuffinFile, DecodeBlob, Encodable, Faithful;
    BlobRoundTrip(codec, path, snapshot, dv);
  }

  lemma SplitContent()
    ensures Content(SplitDisk(), SplitFile()) == TwoVersions()
    ensures TwoVersions().rows == [Straddling.NEWER, Straddling.OLDER] && KeyRange.FileOk(TwoVersions())
    ensures WellFormed(TwoVersions(), SampleSys().env)
  {
    hide KvIndex.Encoded, KvIndex.View, KvIndex.Valid, KvIndex.HeaderOk, IsUserKey, KvIndex.Entries, IndexOk;
    Straddling.TwoPagesOk();
    SampleKey();
  }

  lemma SplitReady()
    ensures FileReady(SampleSys().env, SampleCodec(), SplitDisk(), SplitFile())
  {
    hide TwoVersions, LoadDv, WellFormed, KeyRange.FileOk, Less;
    SplitMask();
    SplitContent();
    SplitBounds();
    LessIrreflexive(UK);
  }

  lemma SplitBounds()
    ensures TwoVersions().keyMin == UK && TwoVersions().keyMax == UK
  {
    hide KvIndex.Encoded, KvIndex.View, KvIndex.HeaderOk;
    Straddling.TwoPagesOk();
  }

  /** Only the newer version is visible. */
  lemma SplitShows()
    ensures forall p: nat :: ShowsAt(SampleCodec(), SplitDisk(), SplitFile(), p) <==> p == 0
    ensures forall x :: Shows(SampleCodec(), SplitDisk(), SplitFile(), x) <==> x == Straddling.NEWER
  {
    hide SplitDisk, SplitFile, TwoVersions, WellFormed, KeyRange.FileOk;
    SplitMask();
    SplitContent();
    FirstShows(SampleCodec(), SplitDisk(), SplitFile(), Straddling.NEWER, Straddling.OLDER);
  }

  lemma FirstShows(codec: Codec, disk: Disk, f: DataFile, x: Rec, y: Rec)
    requires Content(disk, f).rows == [x, y] && DvOf(codec, disk, f) == {1}
    ensures forall p: nat :: ShowsAt(codec, disk, f, p) <==> p == 0
    ensures forall z :: Shows(codec, disk, f, z) <==> z == x
  {
    hide DvOf, Content;
    assert ShowsAt(codec, disk, f, 0);
  }

  lemma SplitTableOk()
    ensures CatalogOk(SampleCodec(), SplitStore())
    ensures VersionOk(SampleSys().env, SampleCodec(), SplitDisk(), VersionOf(SplitStore().manifest))
    ensures forall f :: InVersion(VersionOf(SplitStore().manifest), f) <==> f == SplitFile()
    ensures forall p: nat :: ShowsAt(SampleCodec(), SplitDisk(), SplitFile(), p) <==> p == 0
    ensures forall x :: OnDisk(SampleCodec(), SplitDisk(), VersionOf(SplitStore().manifest), x) <==>
            x == Straddling.NEWER
  {
    hide VersionOf, InVersion, FileReady, CatalogOk, VersionOk, Shows, ShowsAt, TwoVersions, Coords;
    SplitReady();
    SplitShows();
    OneFileVersion(META, Coords());
    SplitRefs();
    OneFileTable(SampleSys(), SplitStore(), TwoVersions(), META, Coords());
    assert InVersion(VersionOf(SplitStore().manifest), SplitFile());
  }

  lemma SplitRefs()
    ensures RefOlder(Coords(), 2)
  {
  }

  const SPEC: Spec := map[UK := Stored(InternalKey(UK, 2, Put), Some(Row([])))]

  lemma SplitTableOpens()
    ensures Inv(SampleSys(), Opened(SplitStore(), SplitFiles(), 3), SPEC)
  {
    hide VersionOf, InVersion, SysOk, CatalogOk, VersionOk, OnDisk, Inv, ShowsAt, TwoVersions, Coords;
    SampleSysOk();
    SplitTableOk();
    var v := VersionOf(SplitStore().manifest);
    assert NewestOnDisk(SampleCodec(), SplitDisk(), v, UK, 2, Some(Straddling.NEWER));
    assert SPEC[UK] == FromRow(Straddling.NEWER);
    assert DiskSpec(SampleSys(), SplitDisk(), v, 2, SPEC);
    OpenedOk(SampleSys(), SplitStore(), SplitFiles(), 3, SPEC);
  }

  /** One visible row per key, the newest. */
  lemma SplitIsUnique()
    ensures Unique(SampleSys(), SplitDisk(), VersionOf(SplitStore().manifest))
  {
    hide VersionOf, InVersion, CatalogOk, VersionOk, ShowsAt, OnDisk, TwoVersions, Coords, KeyRange.FileOk, WellFormed;
    SplitTableOk();
    SplitContent();
  }

  // ── The flush ─────────────────────────────────────────────────────────────

  lemma FewRowsFit(env: Env, codec: Codec, disk: Disk, f: DataFile, keys: seq<bytes>)
    requires FileReady(env, codec, disk, f) && KeyRange.FileOk(Content(disk, f)) && DvResolve.KeysAscend(keys)
    requires keys != [] && |Content(disk, f).rows| < U32
    ensures DvResolve.Fits(codec, disk, f, keys)
  {
    hide FileReady, DvOf, LoadDv, KeyRange.FileOk, DvResolve.Found, DvResolve.KeysAscend;
    forall p | DvResolve.Searched(codec, disk, f, keys) && p in DvResolve.Found(disk, f, keys)
      ensures p < U32
    {
      DvResolve.FoundIs(env, codec, disk, f, keys, p);
    }
  }

  /** The newer version's page is skipped. */
  lemma NewerOverlooked()
    ensures KeyRange.FileOk(Content(SplitDisk(), SplitFile()))
    ensures DvResolve.Overlooked(SplitDisk(), SplitFile(), [UK], 0)
    ensures DvResolve.Delta(SampleCodec(), SplitDisk(), SplitFile(), [UK]) == {}
    ensures !DvResolve.Unresolvable(SampleCodec(), SplitDisk(), SplitFile(), [UK])
  {
    hide FileReady, DvOf, LoadDv, TwoVersions, WellFormed, DvResolve.Delta, KeyRange.FileOk, Coords;
    SplitContent();
    SplitReady();
    SplitMask();
    var env, codec, disk, f := SampleSys().env, SampleCodec(), SplitDisk(), SplitFile();
    LostFirst();
    forall p: nat
      ensures p !in DvResolve.Delta(codec, disk, f, [UK])
    {
      DvResolve.DeltaIs(env, codec, disk, f, [UK], p);
    }
    FewRowsFit(env, codec, disk, f, [UK]);
  }

  lemma LostFirst()
    ensures KeyRange.FileOk(TwoVersions()) && KeyRange.LostAt(TwoVersions(), UK, 0)
    ensures DvResolve.Lower(META, [UK]) == UK
  {
    hide KvIndex.Encoded, KvIndex.View, KvIndex.Valid, KvIndex.Entries, KvIndex.HeaderOk, KeyRange.FileOk, Tag;
    Straddling.TwoPagesOk();
    Straddling.FileOkIndex(TwoVersions());
    LessIrreflexive(UK);
    assert KeyRange.StartsLater(TwoVersions(), UK, 0, 1);
  }

  lemma SplitResolved()
    ensures Resolved(SampleSys(), SplitDisk(), VersionOf(SplitStore().manifest), RewriteMem(3, 3), [UK], map[])
  {
    hide VersionOf, InVersion, RewriteMem, HasKey, DvResolve.Delta, DvResolve.Unresolvable, KeyRange.FileOk, OnDisk,
         CatalogOk, VersionOk, TwoVersions, Coords, DvResolve.Overlooked, ShowsAt;
    SplitTableOk();
    NewerOverlooked();
    forall uk
      ensures uk in [UK] <==> HasKey(SampleSys().env, RewriteMem(3, 3), uk)
    {
      RewriteHasKey(3, 3, uk);
    }
  }

  function FlushJob(): Job {
    RewriteJob(3, Q, map[])
  }

  lemma SplitCommits()
    ensures CanCommit(SampleSys(), WrittenState(SplitStore(), SplitFiles(), 3), FlushJob())
  {
    hide VersionOf, CanCommit, RewriteMem, TwoVersions, Coords, InVersion, SupersededBy;
    RewriteCommits(SplitStore(), SplitFiles(), 3, Q, map[]);
  }

  /** The flush is given the memtable's keys, the version before it has one
      visible row per key, and the version after it does not. */
  lemma EmittedFlushLosesUniqueness()
    ensures
      var s := WrittenState(SplitStore(), SplitFiles(), 3);
      Inv(SampleSys(), s, SpecMany(SPEC, [REWRITE], 3, 1)) && StateUnique(SampleSys(), s) &&
      CanCommit(SampleSys(), s, FlushJob()) && CommitOk(SampleCodec(), s.store, TxnOf(SampleSys(), FlushJob())) &&
      Resolved(SampleSys(), DiskOf(s), s.version, FlushJob().m, [UK], FlushJob().deltas) &&
      !StateUnique(SampleSys(), CommitFlush(SampleSys(), s, FlushJob()))
  {
    hide Inv, VersionOf, CanCommit, CommitOk, Resolved, Unique, TwoVersions, Coords, RewriteMem, WriteMany, Rotated,
         SpecMany, CommitFlush, NothingOverlooked;
    var sys, s, job := SampleSys(), WrittenState(SplitStore(), SplitFiles(), 3), FlushJob();
    SplitWritten();
    SplitCommits();
    SplitResolved();
    SplitIsUnique();
    WrittenStateIs(SplitStore(), SplitFiles(), 3);
    FlushStepIff(sys, s, SpecMany(SPEC, [REWRITE], 3, 1), job, [UK]);
    NotThorough();
  }

  lemma SplitWritten()
    ensures Inv(SampleSys(), WrittenState(SplitStore(), SplitFiles(), 3), SpecMany(SPEC, [REWRITE], 3, 1))
  {
    hide Inv, WriteMany, SpecMany, RecordOk, TwoVersions, Coords, VersionOf, Rotated;
    SplitTableOpens();
    RewriteOk();
    WrittenStateIs(SplitStore(), SplitFiles(), 3);
    OpenedCounter(SplitStore(), SplitFiles(), 3);
    BatchKeepsInv(SampleSys(), Opened(SplitStore(), SplitFiles(), 3), SPEC, [REWRITE], 1);
    RotateKeepsInv(SampleSys(), WriteMany(Opened(SplitStore(), SplitFiles(), 3), [REWRITE], 1),
      SpecMany(SPEC, [REWRITE], 3, 1));
  }

  lemma NotThorough()
    ensures !NothingOverlooked(SampleSys(), SplitDisk(), VersionOf(SplitStore().manifest), RewriteMem(3, 3), [UK])
  {
    hide VersionOf, InVersion, CatalogOk, VersionOk, OnDisk, ShowsAt, TwoVersions, Coords, RewriteMem, HasKey, DvOf,
         DvResolve.Overlooked, KeyRange.FileOk, WellFormed, DvResolve.Delta, DvResolve.Unresolvable;
    SplitTableOk();
    SplitMask();
    SplitContent();
    NewerOverlooked();
    RewriteHasKey(3, 3, UK);
    assert SupersededBy(SampleSys(), SplitDisk(), RewriteMem(3, 3), SplitFile(), 0);
  }
}
