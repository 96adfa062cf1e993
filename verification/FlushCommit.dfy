/** What committing a flush does to the live files (`engine/flush.rs`, the part
    under the commit lock). */
module FlushCommit {
  import opened Wrappers
  import opened ByteStrings
  import opened Keys
  import opened Table
  import opened Sst
  import opened Memtable
  import opened DeletionVector
  import opened Manifest
  import opened Versions
  import opened Catalog
  import opened LiveFiles
  import opened Flush

  /** What the engine is given: the table, the bitmap codec, the Parquet writer
      and the row that stands for a tombstone without pre-image. */
  datatype Sys = Sys(env: Env, codec: Codec, writer: seq<Rec> -> File, pkOnly: bytes -> Row)

  ghost predicate WriterOk(sys: Sys, rows: seq<Rec>) {
    sys.writer(rows).rows == rows && WellFormed(sys.writer(rows), sys.env)
  }

  ghost predicate SysOk(sys: Sys) {
    Faithful(sys.codec) &&
    forall rows :: Sorted(rows) && AllValid(sys.env, rows) ==> WriterOk(sys, rows)
  }

  /** The plainest writer: one row group, no index, no bloom filter. */
  function PlainFile(rows: seq<Rec>): File {
    File(rows, [|rows|], None, None,
      if rows == [] then [] else rows[0].key.uk,
      if rows == [] then [] else rows[|rows| - 1].key.uk)
  }

  /** It meets what is asked of a writer. */
  lemma PlainFileOk(env: Env, rows: seq<Rec>)
    requires Sorted(rows) && AllValid(env, rows)
    ensures WellFormed(PlainFile(rows), env)
  {
    assert [|rows|][1..] == [];
  }

  // ── The relation between the versions before and after ────────────────────

  /** `h` is `g` with more rows masked, all of them versions of keys of `m`. */
  ghost predicate Grown(sys: Sys, disk: Disk, m: Mem, g: DataFile, h: DataFile) {
    h.path == g.path && h.meta == g.meta && DvOf(sys.codec, disk, g) <= DvOf(sys.codec, disk, h) &&
    forall p :: p in DvOf(sys.codec, disk, h) && p !in DvOf(sys.codec, disk, g) ==> SupersededBy(sys, disk, m, g, p)
  }

  ghost predicate SupersededBy(sys: Sys, disk: Disk, m: Mem, g: DataFile, p: nat) {
    p < |Content(disk, g).rows| && HasKey(sys.env, m, Content(disk, g).rows[p].key.uk)
  }

  /** `f` is the file a flush of `m` adds. */
  ghost predicate NewFileOf(sys: Sys, disk: Disk, m: Mem, f: DataFile) {
    f.meta.level == 0 && f.dv == NO_DV && Image(sys.env, m, Content(disk, f)) &&
    exists x :: HasRow(disk, f, x) && x.key.seqno == f.meta.seqMax
  }

  ghost predicate ComesFrom(sys: Sys, disk: Disk, v: Version, m: Mem, h: DataFile) {
    exists g :: InVersion(v, g) && Grown(sys, disk, m, g, h)
  }

  ghost predicate GoesTo(sys: Sys, disk: Disk, w: Version, m: Mem, path: DataPath, g: DataFile) {
    exists h :: InVersion(w, h) && h.path != path && Grown(sys, disk, m, g, h)
  }

  ghost predicate Adds(sys: Sys, disk: Disk, w: Version, m: Mem, path: DataPath) {
    exists f :: InVersion(w, f) && f.path == path && NewFileOf(sys, disk, m, f)
  }

  /** `w` is `v` after a flush of `m` to `path`. */
  ghost predicate Successor(sys: Sys, disk: Disk, v: Version, w: Version, m: Mem, path: DataPath) {
    Adds(sys, disk, w, m, path) &&
    (forall h :: InVersion(w, h) && h.path != path ==> ComesFrom(sys, disk, v, m, h)) &&
    (forall g :: InVersion(v, g) ==> GoesTo(sys, disk, w, m, path, g))
  }

  // ── The transaction ───────────────────────────────────────────────────────

  /** A flush: the memtable, its entries, the new file's path and metadata, and
      the rows to mark in older files. */
  datatype Job = Job(m: Mem, entries: seq<MemRec>, path: DataPath, meta: FileMeta, deltas: map<DataPath, Bitmap>)

  function RowsOf(sys: Sys, job: Job): seq<Rec> {
    Rows(sys.pkOnly, job.entries)
  }

  function TxnOf(sys: Sys, job: Job): Txn {
    Txn([NewFile(job.path, |RowsOf(sys, job)|, job.meta)], [], job.deltas)
  }

  /** Only superseded rows are marked. */
  ghost predicate DeltasSound(sys: Sys, disk: Disk, v: Version, m: Mem, deltas: map<DataPath, Bitmap>) {
    forall f, p :: InVersion(v, f) && f.path in deltas && p in deltas[f.path] ==> SupersededBy(sys, disk, m, f, p)
  }

  /** All superseded rows are marked. */
  ghost predicate DeltasComplete(sys: Sys, disk: Disk, v: Version, m: Mem, deltas: map<DataPath, Bitmap>) {
    forall f, p: nat :: InVersion(v, f) && SupersededBy(sys, disk, m, f, p) ==>
      p in DvOf(sys.codec, disk, f) || (f.path in deltas && p in deltas[f.path])
  }

  ghost predicate PathFree(s: Store, files: map<DataPath, File>, path: DataPath) {
    path !in files && forall e :: e in s.manifest.entries ==> e.path != path
  }

  /** The flush is about to commit, and will succeed. */
  ghost predicate JobReady(sys: Sys, s: Store, files: map<DataPath, File>, job: Job) {
    MemSound(sys.env, job.m) && EntriesOf(sys.env, job.m, job.entries) && job.entries != [] &&
    DescribesRows(job.meta, RowsOf(sys, job)) && PathFree(s, files, job.path) &&
    DeltasSound(sys, Disk(files, s.puffins), VersionOf(s.manifest), job.m, job.deltas) &&
    CommitOk(sys.codec, s, TxnOf(sys, job))
  }

  ghost predicate JobOk(sys: Sys, s: Store, files: map<DataPath, File>, job: Job) {
    SysOk(sys) && CatalogOk(sys.codec, s) && JobReady(sys, s, files, job) &&
    VersionOk(sys.env, sys.codec, Disk(files, s.puffins), VersionOf(s.manifest))
  }

  function StoreAfter(sys: Sys, s: Store, job: Job): Store
    requires CommitOk(sys.codec, s, TxnOf(sys, job))
  {
    After(sys.codec, s, TxnOf(sys, job))
  }

  function DiskAfter(sys: Sys, s: Store, files: map<DataPath, File>, job: Job): Disk
    requires CommitOk(sys.codec, s, TxnOf(sys, job))
  {
    Disk(files[job.path := sys.writer(RowsOf(sys, job))], StoreAfter(sys, s, job).puffins)
  }

  // ── Old versions still read the same ──────────────────────────────────────

  /** The disk after a step keeps every file and coordinate of version `v`. */
  ghost predicate SameReads(codec: Codec, before: Disk, after: Disk, v: Version) {
    forall f :: InVersion(v, f) ==>
      Content(after, f) == Content(before, f) &&
        LoadDv(codec, after.puffins, f.dv) == LoadDv(codec, before.puffins, f.dv) &&
      (f.path in after.files <==> f.path in before.files)
  }

  lemma SameReadsKeepOk(env: Env, codec: Codec, before: Disk, after: Disk, v: Version)
    requires VersionOk(env, codec, before, v) && SameReads(codec, before, after, v)
    ensures VersionOk(env, codec, after, v)
    ensures forall x :: OnDisk(codec, after, v, x) <==> OnDisk(codec, before, v, x)
  {
    hide WellFormed, MetaOk, SeqsDescend, WellArranged, InVersion, Compatible, LoadDv, Content;
    forall f | InVersion(v, f)
      ensures FileReady(env, codec, after, f)
    {
      SameReady(env, codec, before, after, f);
    }
    forall f, g | InVersion(v, f) && InVersion(v, g) && f != g
      ensures Compatible(after, f, g)
    {
      assert Compatible(before, f, g);
      SameCompatible(before, after, f, g);
    }
    forall x
      ensures OnDisk(codec, after, v, x) <==> OnDisk(codec, before, v, x)
    {
      forall f | InVersion(v, f)
        ensures Shows(codec, after, f, x) <==> Shows(codec, before, f, x)
      {
        SameShown(codec, before, after, f, x);
      }
    }
  }

  lemma SameReady(env: Env, codec: Codec, before: Disk, after: Disk, f: DataFile)
    requires FileReady(env, codec, before, f) && f.path in after.files
    requires Content(after, f) == Content(before, f) &&
             LoadDv(codec, after.puffins, f.dv) == LoadDv(codec, before.puffins, f.dv)
    ensures FileReady(env, codec, after, f)
  {
    hide WellFormed, MetaOk, SeqsDescend, LoadDv;
    assert DvOf(codec, after, f) == DvOf(codec, before, f);
  }

  lemma SameCompatible(before: Disk, after: Disk, f: DataFile, g: DataFile)
    requires Content(after, f) == Content(before, f) && Content(after, g) == Content(before, g)
    ensures Compatible(after, f, g) == Compatible(before, f, g)
  {
    hide Content, Less;
    assert forall x :: HasRow(after, f, x) == HasRow(before, f, x);
    assert forall y :: HasRow(after, g, y) == HasRow(before, g, y);
  }

  lemma SameShown(codec: Codec, before: Disk, after: Disk, f: DataFile, x: Rec)
    requires Content(after, f) == Content(before, f) &&
             LoadDv(codec, after.puffins, f.dv) == LoadDv(codec, before.puffins, f.dv)
    ensures Shows(codec, after, f, x) <==> Shows(codec, before, f, x)
  {
    hide LoadDv, Content;
    forall pos: nat
      ensures ShowsAt(codec, after, f, pos) == ShowsAt(codec, before, f, pos)
    {
    }
  }

  lemma EntryOf(m: Manifest, f: DataFile) returns (e: Entry)
    requires InVersion(VersionOf(m), f)
    ensures LiveEntry(m.entries, e) && AsDataFile(e) == f
  {
    hide VersionOf, InVersion;
    VersionListsLive(m);
    e :| LiveEntry(m.entries, e) && AsDataFile(e) == f;
  }

  lemma EntryListed(m: Manifest, e: Entry)
    requires LiveEntry(m.entries, e)
    ensures InVersion(VersionOf(m), AsDataFile(e))
  {
    hide VersionOf, InVersion;
    VersionListsLive(m);
    assert FromEntry(m.entries, AsDataFile(e));
  }

  /** Readers of the version before the flush see no difference. */
  lemma OldReadsKept(sys: Sys, s: Store, files: map<DataPath, File>, job: Job)
    requires JobOk(sys, s, files, job)
    ensures SameReads(sys.codec, Disk(files, s.puffins), DiskAfter(sys, s, files, job), VersionOf(s.manifest))
  {
    hide InVersion, VersionOf, LoadDv, SysOk, VersionOk, Next, Locations, Written, CommitOk, DescribesRows, MemSound,
         EntriesOf;
    var after := StoreAfter(sys, s, job);
    assert CommitOk(sys.codec, s, TxnOf(sys, job));
    CommitKeepsOlder(sys.codec, s, TxnOf(sys, job));
    forall f | InVersion(VersionOf(s.manifest), f)
      ensures f.path != job.path && LoadDv(sys.codec, after.puffins, f.dv) == LoadDv(sys.codec, s.puffins, f.dv)
    {
      var e := EntryOf(s.manifest, f);
      assert DvOk(sys.codec, s, e);
      OldCoordsKept(sys.codec, s.puffins, after.puffins, f.dv, s.nextVer);
    }
  }

  /** The deletion vectors of the version are of older snapshots. */
  ghost predicate RefsBelow(v: Version, bound: nat) {
    forall f :: InVersion(v, f) ==> RefOlder(f.dv, bound)
  }

  lemma LiveRefsBelow(codec: Codec, s: Store)
    requires CatalogOk(codec, s)
    ensures RefsBelow(VersionOf(s.manifest), s.nextVer)
  {
    hide InVersion, VersionOf, LoadDv, UniquePaths;
    forall f | InVersion(VersionOf(s.manifest), f)
      ensures RefOlder(f.dv, s.nextVer)
    {
      var e := EntryOf(s.manifest, f);
      assert DvOk(codec, s, e);
    }
  }

  lemma CommitKeepsOlder(codec: Codec, s: Store, txn: Txn)
    requires CommitOk(codec, s, txn)
    ensures KeepsOlder(s.puffins, After(codec, s, txn).puffins, s.nextVer)
  {
    hide Next, DvWritable, Locations;
    WrittenKeepsOlder(codec, s, txn, txn.dvs.Keys);
  }

  // ── Where the files of the new version come from ──────────────────────────

  /** File `h` after the commit is file `g` before it. */
  ghost predicate Marked(sys: Sys, before: Disk, after: Disk, txn: Txn, g: DataFile, h: DataFile) {
    h.path == g.path && h.meta == g.meta &&
    LoadDv(sys.codec, after.puffins, h.dv) == Ok(DvOf(sys.codec, before, g) + DvFor(txn, g.path))
  }

  lemma FileCarried(sys: Sys, s: Store, files: map<DataPath, File>, job: Job, g: DataFile) returns (h: DataFile)
    requires JobOk(sys, s, files, job) && InVersion(VersionOf(s.manifest), g)
    ensures InVersion(VersionOf(StoreAfter(sys, s, job).manifest), h)
    ensures Marked(sys, Disk(files, s.puffins), DiskAfter(sys, s, files, job), TxnOf(sys, job), g, h)
  {
    hide InVersion, VersionOf, LoadDv, VersionOk, Next, Written, CommitOk, DescribesRows, MemSound, EntriesOf,
         CatalogOk, PathFree, DeltasSound, Locations, Carry;
    var txn := TxnOf(sys, job);
    assert CommitOk(sys.codec, s, txn);
    var o := EntryOf(s.manifest, g);
    var e := NextCarries(s.manifest, txn, s.nextVer, Locations(sys.codec, s, txn), o);
    CarriedMask(sys.codec, s, txn, o, e);
    h := AsDataFile(e);
    EntryListed(StoreAfter(sys, s, job).manifest, e);
  }

  lemma FileOrigin(sys: Sys, s: Store, files: map<DataPath, File>, job: Job, h: DataFile)
    requires JobOk(sys, s, files, job) && InVersion(VersionOf(StoreAfter(sys, s, job).manifest), h)
    ensures h == DataFile(job.path, job.meta, NO_DV) ||
            exists g :: InVersion(VersionOf(s.manifest), g) &&
                        Marked(sys, Disk(files, s.puffins), DiskAfter(sys, s, files, job), TxnOf(sys, job), g, h)
  {
    hide InVersion, VersionOf, LoadDv, VersionOk, Next, Written, CommitOk, DescribesRows, MemSound, EntriesOf,
         CatalogOk, PathFree, DeltasSound, Locations, Carry;
    var txn := TxnOf(sys, job);
    assert CommitOk(sys.codec, s, txn);
    var locs := Locations(sys.codec, s, txn);
    var e := EntryOf(StoreAfter(sys, s, job).manifest, h);
    NextEntry(s.manifest, txn, s.nextVer, locs, e);
    if WasCarried(s.manifest.entries, txn, locs, e) {
      var o :| o in s.manifest.entries && CarriedTo(o, txn, locs, e);
      CarriedMask(sys.codec, s, txn, o, e);
      EntryListed(s.manifest, o);
      assert Marked(sys, Disk(files, s.puffins), DiskAfter(sys, s, files, job), txn, AsDataFile(o), h);
    }
  }

  lemma FileAdded(sys: Sys, s: Store, files: map<DataPath, File>, job: Job)
    requires JobOk(sys, s, files, job)
    ensures InVersion(VersionOf(StoreAfter(sys, s, job).manifest), DataFile(job.path, job.meta, NO_DV))
  {
    hide InVersion, VersionOf, VersionOk, Next, Written, CommitOk, DescribesRows, MemSound, EntriesOf, CatalogOk,
         PathFree, DeltasSound, Locations;
    var txn := TxnOf(sys, job);
    assert CommitOk(sys.codec, s, txn);
    var e := NextAdds(s.manifest, txn, s.nextVer, Locations(sys.codec, s, txn), txn.adds[0]);
    EntryListed(StoreAfter(sys, s, job).manifest, e);
  }

  lemma NewContent(sys: Sys, s: Store, files: map<DataPath, File>, job: Job)
    requires JobOk(sys, s, files, job)
    ensures var f := DataFile(job.path, job.meta, NO_DV);
            Content(DiskAfter(sys, s, files, job), f).rows == RowsOf(sys, job) &&
            WellFormed(Content(DiskAfter(sys, s, files, job), f), sys.env)
  {
    hide Rows, WellFormed, EntriesOf, DescribesRows, CommitOk, VersionOk, CatalogOk, PathFree, DeltasSound, Faithful,
         MemSound;
    assert CommitOk(sys.codec, s, TxnOf(sys, job));
    RowsAreSorted(sys.env, sys.pkOnly, job.m, job.entries);
    assert WriterOk(sys, RowsOf(sys, job));
  }

  lemma AddedIsNewFile(sys: Sys, s: Store, files: map<DataPath, File>, job: Job)
    requires JobOk(sys, s, files, job)
    ensures NewFileOf(sys, DiskAfter(sys, s, files, job), job.m, DataFile(job.path, job.meta, NO_DV))
  {
    hide Rows, WellFormed, EntriesOf, CommitOk, VersionOk, CatalogOk, PathFree, DeltasSound, Faithful, MemSound, Image,
         SysOk;
    assert CommitOk(sys.codec, s, TxnOf(sys, job));
    var f, disk := DataFile(job.path, job.meta, NO_DV), DiskAfter(sys, s, files, job);
    NewContent(sys, s, files, job);
    RowsAreImage(sys.env, sys.pkOnly, job.m, job.entries, Content(disk, f));
    var rows := RowsOf(sys, job);
    var i :| 0 <= i < |rows| && rows[i].key.seqno == job.meta.seqMax;
    assert HasRow(disk, f, rows[i]);
  }

  /** The committed file holds the newest record of every key of the memtable,
      tombstones included, with the payload it was written with. */
  lemma FileSavesNewest(sys: Sys, s: Store, files: map<DataPath, File>, job: Job)
    requires JobOk(sys, s, files, job)
    ensures InVersion(VersionOf(StoreAfter(sys, s, job).manifest), DataFile(job.path, job.meta, NO_DV))
    ensures
      var f, disk := DataFile(job.path, job.meta, NO_DV), DiskAfter(sys, s, files, job);
      (forall x :: NewestRec(sys.env, job.m, x) ==> exists row :: HasRow(disk, f, row) && Saves(sys.pkOnly, x, row)) &&
      (forall row :: HasRow(disk, f, row) ==> exists x :: NewestRec(sys.env, job.m, x) && Saves(sys.pkOnly, x, row))
  {
    hide Rows, WellFormed, EntriesOf, DescribesRows, CommitOk, VersionOk, CatalogOk, PathFree, DeltasSound, Faithful,
         SysOk, NewestRec, Saves, StoreAfter, VersionOf, InVersion, MemSound;
    JobCommits(sys, s, files, job);
    SoundIsOk(sys.env, job.m);
    FileAdded(sys, s, files, job);
    NewContent(sys, s, files, job);
    RowsSaveNewest(sys.env, sys.pkOnly, job.m, job.entries);
    var f, disk := DataFile(job.path, job.meta, NO_DV), DiskAfter(sys, s, files, job);
    assert forall row :: HasRow(disk, f, row) <==> row in RowsOf(sys, job);
  }

  /** A file marked by the transaction has grown in the sense above. */
  lemma MarkedIsGrown(sys: Sys, s: Store, files: map<DataPath, File>, job: Job, g: DataFile, h: DataFile)
    requires JobOk(sys, s, files, job) && InVersion(VersionOf(s.manifest), g)
    requires Marked(sys, Disk(files, s.puffins), DiskAfter(sys, s, files, job), TxnOf(sys, job), g, h)
    ensures Grown(sys, DiskAfter(sys, s, files, job), job.m, g, h)
    ensures g.path != job.path
  {
    hide InVersion, VersionOf, LoadDv, SysOk, VersionOk, CommitOk, DescribesRows, MemSound, EntriesOf, CatalogOk,
         HasKey, Content, Rows, StoreAfter;
    assert CommitOk(sys.codec, s, TxnOf(sys, job));
    OldReadsKept(sys, s, files, job);
    OldPath(sys, s, files, job, g);
    assert DvOf(sys.codec, DiskAfter(sys, s, files, job), g) == DvOf(sys.codec, Disk(files, s.puffins), g);
  }

  lemma OldPath(sys: Sys, s: Store, files: map<DataPath, File>, job: Job, g: DataFile)
    requires JobOk(sys, s, files, job) && InVersion(VersionOf(s.manifest), g)
    ensures g.path != job.path
  {
    hide InVersion, VersionOf, SysOk, VersionOk, CommitOk, DescribesRows, MemSound, EntriesOf, CatalogOk, DeltasSound;
    var e := EntryOf(s.manifest, g);
  }

  /** The version a flush commits is a successor of the one before. */
  lemma FlushSucceeds(sys: Sys, s: Store, files: map<DataPath, File>, job: Job)
    requires JobOk(sys, s, files, job)
    ensures Successor(sys, DiskAfter(sys, s, files, job), VersionOf(s.manifest),
                      VersionOf(StoreAfter(sys, s, job).manifest), job.m, job.path)
  {
    hide JobOk, InVersion, VersionOf, Marked, Grown, NewFileOf, StoreAfter;
    JobCommits(sys, s, files, job);
    var disk, v, w := DiskAfter(sys, s, files, job), VersionOf(s.manifest), VersionOf(StoreAfter(sys, s, job).manifest);
    AddedIsNewFile(sys, s, files, job);
    FileAdded(sys, s, files, job);
    forall h | InVersion(w, h) && h.path != job.path
      ensures ComesFrom(sys, disk, v, job.m, h)
    {
      FileOrigin(sys, s, files, job, h);
      var g :| InVersion(v, g) && Marked(sys, Disk(files, s.puffins), disk, TxnOf(sys, job), g, h);
      MarkedIsGrown(sys, s, files, job, g, h);
    }
    forall g | InVersion(v, g)
      ensures GoesTo(sys, disk, w, job.m, job.path, g)
    {
      var h := FileCarried(sys, s, files, job, g);
      MarkedIsGrown(sys, s, files, job, g, h);
      MarkedPath(sys, Disk(files, s.puffins), disk, TxnOf(sys, job), g, h);
    }
  }

  lemma MarkedPath(sys: Sys, before: Disk, after: Disk, txn: Txn, g: DataFile, h: DataFile)
    requires Marked(sys, before, after, txn, g, h)
    ensures h.path == g.path && h.meta == g.meta
  {
  }

  lemma JobCommits(sys: Sys, s: Store, files: map<DataPath, File>, job: Job)
    requires JobOk(sys, s, files, job)
    ensures CommitOk(sys.codec, s, TxnOf(sys, job)) && MemSound(sys.env, job.m) && job.meta.level == 0
  {
  }

  // ── The new version is sound ──────────────────────────────────────────────

  /** Every live file, but for the one at `except`, is older than everything in
      the memtable. */
  ghost predicate FilesBelow(sys: Sys, v: Version, m: Mem, except: Option<DataPath>) {
    forall f, x :: InVersion(v, f) && Some(f.path) != except && InMem(sys.env, m, x) ==> f.meta.seqMax < x.key.seqno
  }

  lemma WellFormedBounds(env: Env, file: File)
    requires WellFormed(file, env)
    ensures BoundsOk(file)
  {
  }

  lemma NewFileReady(sys: Sys, s: Store, files: map<DataPath, File>, job: Job)
    requires JobOk(sys, s, files, job)
    ensures FileReady(sys.env, sys.codec, DiskAfter(sys, s, files, job), DataFile(job.path, job.meta, NO_DV))
  {
    hide Rows, EntriesOf, CommitOk, VersionOk, CatalogOk, PathFree, DeltasSound, MemSound, SysOk, StoreAfter,
         WellFormed, Less, VersionLess, AllValid;
    assert CommitOk(sys.codec, s, TxnOf(sys, job));
    NewContent(sys, s, files, job);
    RowsAreSorted(sys.env, sys.pkOnly, job.m, job.entries);
    SortedUserKeys(RowsOf(sys, job), 0, |RowsOf(sys, job)| - 1);
    WellFormedBounds(sys.env, Content(DiskAfter(sys, s, files, job), DataFile(job.path, job.meta, NO_DV)));
    NoCoords(sys.codec, DiskAfter(sys, s, files, job).puffins);
  }

  lemma OldFileReady(sys: Sys, s: Store, files: map<DataPath, File>, job: Job, g: DataFile, h: DataFile)
    requires JobOk(sys, s, files, job) && InVersion(VersionOf(s.manifest), g)
    requires Marked(sys, Disk(files, s.puffins), DiskAfter(sys, s, files, job), TxnOf(sys, job), g, h)
    ensures FileReady(sys.env, sys.codec, DiskAfter(sys, s, files, job), h)
    ensures Content(DiskAfter(sys, s, files, job), h) == Content(DiskAfter(sys, s, files, job), g)
  {
    hide InVersion, VersionOf, LoadDv, SysOk, JobReady, CatalogOk, HasKey, WellFormed, MetaOk, SeqsDescend, StoreAfter,
         WellArranged, Compatible;
    JobCommits(sys, s, files, job);
    OldReadsKept(sys, s, files, job);
    MarkedIsGrown(sys, s, files, job, g, h);
    var before, after := Disk(files, s.puffins), DiskAfter(sys, s, files, job);
    assert FileReady(sys.env, sys.codec, before, g);
    assert DvOf(sys.codec, after, g) == DvOf(sys.codec, before, g);
    assert Content(after, h) == Content(after, g);
  }

  /** The added file's rows are newer than anything below the memtable. */
  lemma FlushedAbove(sys: Sys, s: Store, files: map<DataPath, File>, job: Job, bound: nat)
    requires JobOk(sys, s, files, job)
    requires forall x :: InMem(sys.env, job.m, x) ==> bound < x.key.seqno
    ensures bound < job.meta.seqMin
    ensures forall x :: HasRow(DiskAfter(sys, s, files, job), DataFile(job.path, job.meta, NO_DV), x) ==>
            bound < x.key.seqno
  {
    hide SysOk, VersionOk, CommitOk, CatalogOk, MemSound, EntriesOf, Rows, StoreAfter, PathFree, DeltasSound, InMem;
    assert CommitOk(sys.codec, s, TxnOf(sys, job));
    var disk, f := DiskAfter(sys, s, files, job), DataFile(job.path, job.meta, NO_DV);
    AddedIsNewFile(sys, s, files, job);
    NewContent(sys, s, files, job);
    forall x | HasRow(disk, f, x)
      ensures bound < x.key.seqno
    {
      assert TopIn(sys.env, job.m, FromRow(x));
    }
    var rows := RowsOf(sys, job);
    var i :| 0 <= i < |rows| && rows[i].key.seqno == job.meta.seqMin;
    assert HasRow(disk, f, rows[i]);
  }

  /** A newer L0 file is compatible with an older file. */
  lemma AboveIsCompatible(disk: Disk, f: DataFile, h: DataFile)
    requires f.meta.level == 0 && f.path != h.path && h.meta.seqMax < f.meta.seqMin
    requires forall x :: HasRow(disk, f, x) ==> h.meta.seqMax < x.key.seqno
    requires forall y :: HasRow(disk, h, y) ==> y.key.seqno <= h.meta.seqMax
    ensures Compatible(disk, f, h) && Compatible(disk, h, f)
  {
    hide HasRow, KeysApart;
  }

  lemma RowsBelowMax(env: Env, codec: Codec, disk: Disk, h: DataFile)
    requires FileReady(env, codec, disk, h)
    ensures forall y :: HasRow(disk, h, y) ==> y.key.seqno <= h.meta.seqMax
  {
    hide FileSound, HasRow, Covers;
    forall y | HasRow(disk, h, y)
      ensures y.key.seqno <= h.meta.seqMax
    {
      RowInBounds(env, codec, disk, h, y);
    }
  }

  lemma FlushKeepsVersionOk(sys: Sys, s: Store, files: map<DataPath, File>, job: Job)
    requires JobOk(sys, s, files, job) && FilesBelow(sys, VersionOf(s.manifest), job.m, None)
    ensures VersionOk(sys.env, sys.codec, DiskAfter(sys, s, files, job), VersionOf(StoreAfter(sys, s, job).manifest))
  {
    hide JobOk, InVersion, VersionOf, Marked, StoreAfter, WellArranged, FileReady, Compatible, InMem;
    JobCommits(sys, s, files, job);
    var before, disk := Disk(files, s.puffins), DiskAfter(sys, s, files, job);
    var v, w, f := VersionOf(s.manifest), VersionOf(StoreAfter(sys, s, job).manifest),
      DataFile(job.path, job.meta, NO_DV);
    VersionListsLive(StoreAfter(sys, s, job).manifest);
    NewFileReady(sys, s, files, job);
    forall h | InVersion(w, h)
      ensures h == f || ComparableTo(sys, s, files, job, h)
    {
      FileOrigin(sys, s, files, job, h);
      if h != f {
        var g :| InVersion(v, g) && Marked(sys, before, disk, TxnOf(sys, job), g, h);
        OldFileReady(sys, s, files, job, g, h);
        MarkedPath(sys, before, disk, TxnOf(sys, job), g, h);
        OldPath(sys, s, files, job, g);
        RowsBelowMax(sys.env, sys.codec, disk, h);
        FlushedAbove(sys, s, files, job, h.meta.seqMax);
        AboveIsCompatible(disk, f, h);
      }
    }
    forall h, k | InVersion(w, h) && InVersion(w, k) && h != k
      ensures Compatible(disk, h, k)
    {
      if h != f && k != f {
        BothOld(sys, s, files, job, h, k);
      }
    }
  }

  ghost predicate ComparableTo(sys: Sys, s: Store, files: map<DataPath, File>, job: Job, h: DataFile)
    requires CommitOk(sys.codec, s, TxnOf(sys, job))
  {
    var disk, f := DiskAfter(sys, s, files, job), DataFile(job.path, job.meta, NO_DV);
    FileReady(sys.env, sys.codec, disk, h) && Compatible(disk, f, h) && Compatible(disk, h, f)
  }

  lemma BothOld(sys: Sys, s: Store, files: map<DataPath, File>, job: Job, h: DataFile, k: DataFile)
    requires JobOk(sys, s, files, job)
    requires InVersion(VersionOf(StoreAfter(sys, s, job).manifest), h) && h != DataFile(job.path, job.meta, NO_DV)
    requires InVersion(VersionOf(StoreAfter(sys, s, job).manifest), k) && k != DataFile(job.path, job.meta, NO_DV)
    requires h != k
    ensures Compatible(DiskAfter(sys, s, files, job), h, k)
  {
    hide JobOk, InVersion, VersionOf, Marked, StoreAfter, FileReady, Compatible, Content;
    JobCommits(sys, s, files, job);
    var before, disk, v, txn := Disk(files, s.puffins), DiskAfter(sys, s, files, job), VersionOf(s.manifest),
      TxnOf(sys, job);
    FileOrigin(sys, s, files, job, h);
    FileOrigin(sys, s, files, job, k);
    var g :| InVersion(v, g) && Marked(sys, before, disk, txn, g, h);
    var j :| InVersion(v, j) && Marked(sys, before, disk, txn, j, k);
    OldFileReady(sys, s, files, job, g, h);
    OldFileReady(sys, s, files, job, j, k);
    MarkedPath(sys, before, disk, txn, g, h);
    MarkedPath(sys, before, disk, txn, j, k);
    SamePathSameFile(sys, s, files, job, h, k);
    OldCompatible(sys, s, files, job, g, j);
    MovedCompatible(disk, g, j, h, k);
  }

  /** Two files of the new version do not share a path. */
  lemma SamePathSameFile(sys: Sys, s: Store, files: map<DataPath, File>, job: Job, h: DataFile, k: DataFile)
    requires JobOk(sys, s, files, job)
    requires InVersion(VersionOf(StoreAfter(sys, s, job).manifest), h) &&
             InVersion(VersionOf(StoreAfter(sys, s, job).manifest), k)
    ensures h.path == k.path ==> h == k
  {
    hide InVersion, VersionOf, DvOk, Next, Locations, Written, CommitOk, VersionOk, DescribesRows, MemSound, EntriesOf,
         DeltasSound;
    assert CommitOk(sys.codec, s, TxnOf(sys, job));
    var after := StoreAfter(sys, s, job);
    CommitKeepsOk(sys.codec, s, TxnOf(sys, job));
    var d := EntryOf(after.manifest, h);
    var e := EntryOf(after.manifest, k);
    FindsEntry(after.manifest.entries, d);
    FindsEntry(after.manifest.entries, e);
  }

  lemma OldCompatible(sys: Sys, s: Store, files: map<DataPath, File>, job: Job, g: DataFile, j: DataFile)
    requires JobOk(sys, s, files, job) && g.path != j.path
    requires InVersion(VersionOf(s.manifest), g) && InVersion(VersionOf(s.manifest), j)
    ensures Compatible(DiskAfter(sys, s, files, job), g, j)
  {
    hide InVersion, VersionOf, SysOk, CatalogOk, JobReady, Compatible, FileReady, StoreAfter, Content, LoadDv,
         WellArranged;
    JobCommits(sys, s, files, job);
    OldReadsKept(sys, s, files, job);
    SameCompatible(Disk(files, s.puffins), DiskAfter(sys, s, files, job), g, j);
  }

  lemma MovedCompatible(disk: Disk, g: DataFile, j: DataFile, h: DataFile, k: DataFile)
    requires Compatible(disk, g, j) && h.path == g.path && h.meta == g.meta && k.path == j.path && k.meta == j.meta
    ensures Compatible(disk, h, k)
  {
    hide Less;
    assert Content(disk, h) == Content(disk, g) && Content(disk, k) == Content(disk, j);
    assert forall x :: HasRow(disk, h, x) == HasRow(disk, g, x);
    assert forall x :: HasRow(disk, k, x) == HasRow(disk, j, x);
  }
}
