/** Flush-time deletion vectors: what the resolver's deltas mean for a flush,
    and that with them every key has one visible row. */
module Emission {
  import opened Wrappers
  import opened ByteStrings
  import opened Keys
  import opened Table
  import opened Sst
  import opened Memtable
  import opened DeletionVector
  import opened Versions
  import opened Catalog
  import opened LiveFiles
  import opened Flush
  import opened FlushCommit
  import opened EngineSteps
  import DvResolve
  import KeyRange

  /** `keys` are the memtable's keys, as the resolver wants them. */
  ghost predicate KeysOf(env: Env, m: Mem, keys: seq<bytes>) {
    DvResolve.KeysAscend(keys) && forall uk :: uk in keys <==> HasKey(env, m, uk)
  }

  /** The deltas are what the resolver computes for the memtable. */
  ghost predicate Resolved(sys: Sys, disk: Disk, v: Version, m: Mem, keys: seq<bytes>, deltas: map<DataPath, Bitmap>) {
    KeysOf(sys.env, m, keys) && keys != [] && DvResolve.AllDeltas(sys.codec, disk, v, keys, deltas)
  }

  lemma DeltaOfFile(sys: Sys, disk: Disk, v: Version, m: Mem, keys: seq<bytes>, deltas: map<DataPath, Bitmap>,
                    f: DataFile, p: nat)
    requires VersionOk(sys.env, sys.codec, disk, v) && Resolved(sys, disk, v, m, keys, deltas) && InVersion(v, f)
    ensures KeyRange.FileOk(Content(disk, f))
    ensures f.path in deltas && p in deltas[f.path] <==>
            SupersededBy(sys, disk, m, f, p) && p !in DvOf(sys.codec, disk, f) &&
              !DvResolve.Overlooked(disk, f, keys, p)
  {
    hide InVersion, HasKey, DvResolve.Delta, DvResolve.Overlooked, DvOf, DvResolve.Unresolvable, FileReady, Compatible,
         WellArranged, KeyRange.FileOk, DvResolve.KeysAscend;
    assert FileReady(sys.env, sys.codec, disk, f);
    DvResolve.ReadyParts(sys.env, sys.codec, disk, f);
    DvResolve.DeltaIs(sys.env, sys.codec, disk, f, keys, p);
    assert DvResolve.Contributes(sys.codec, disk, f, keys, deltas);
  }

  /** The resolver marks only superseded rows, whatever the files look like. */
  lemma ResolvedIsSound(sys: Sys, disk: Disk, v: Version, m: Mem, keys: seq<bytes>, deltas: map<DataPath, Bitmap>)
    requires VersionOk(sys.env, sys.codec, disk, v) && Resolved(sys, disk, v, m, keys, deltas)
    ensures DeltasSound(sys, disk, v, m, deltas)
  {
    hide VersionOk, Resolved, InVersion, SupersededBy, DvOf, DvResolve.Overlooked;
    forall f, p | InVersion(v, f) && f.path in deltas && p in deltas[f.path]
      ensures SupersededBy(sys, disk, m, f, p)
    {
      DeltaOfFile(sys, disk, v, m, keys, deltas, f, p);
    }
  }

  /** Files in which the resolver overlooks nothing. */
  ghost predicate Transparent(disk: Disk, v: Version) {
    forall f :: InVersion(v, f) ==> KeyRange.NoneLost(Content(disk, f)) && f.meta.keyMin != [] && f.meta.keyMax != []
  }

  /** Then it marks all of them. */
  lemma ResolvedIsComplete(sys: Sys, disk: Disk, v: Version, m: Mem, keys: seq<bytes>, deltas: map<DataPath, Bitmap>)
    requires VersionOk(sys.env, sys.codec, disk, v) && Resolved(sys, disk, v, m, keys, deltas) && Transparent(disk, v)
    ensures DeltasComplete(sys, disk, v, m, deltas)
  {
    hide VersionOk, InVersion, DvOf, KeyRange.FileOk, HasKey, KeyRange.LostAt, DvResolve.AllDeltas;
    forall f, p: nat | InVersion(v, f) && SupersededBy(sys, disk, m, f, p)
      ensures p in DvOf(sys.codec, disk, f) || (f.path in deltas && p in deltas[f.path])
    {
      DeltaOfFile(sys, disk, v, m, keys, deltas, f, p);
    }
  }

  // ── One visible row per key ───────────────────────────────────────────────

  predicate SameKey(disk: Disk, f: DataFile, p: nat, g: DataFile, q: nat)
    requires p < |Content(disk, f).rows| && q < |Content(disk, g).rows|
  {
    Content(disk, f).rows[p].key.uk == Content(disk, g).rows[q].key.uk
  }

  /** At most one visible row per key in all files together... */
  ghost predicate OneRowPerKey(codec: Codec, disk: Disk, v: Version) {
    forall f, g, p: nat, q: nat ::
      InVersion(v, f) && InVersion(v, g) && ShowsAt(codec, disk, f, p) && ShowsAt(codec, disk, g, q) &&
        SameKey(disk, f, p, g, q) ==>
        f == g && p == q
  }

  /** ...and for every stored row, masked or not, a visible one of the same key
      that is at least as new. */
  ghost predicate NewestShown(codec: Codec, disk: Disk, v: Version) {
    forall f, x :: InVersion(v, f) && HasRow(disk, f, x) ==> ShownFor(codec, disk, v, x)
  }

  ghost predicate ShownFor(codec: Codec, disk: Disk, v: Version, x: Rec) {
    exists y :: OnDisk(codec, disk, v, y) && y.key.uk == x.key.uk && y.key.seqno >= x.key.seqno
  }

  /** Every row of a key of the memtable is masked in the older files. */
  ghost predicate MarksAll(sys: Sys, disk: Disk, w: Version, m: Mem, path: DataPath) {
    forall h, p: nat :: InVersion(w, h) && h.path != path && SupersededBy(sys, disk, m, h, p) ==>
      !ShowsAt(sys.codec, disk, h, p)
  }

  ghost predicate Unique(sys: Sys, disk: Disk, v: Version) {
    OneRowPerKey(sys.codec, disk, v) && NewestShown(sys.codec, disk, v)
  }

  /** A complete flush marks every superseded row. */
  lemma CompleteMarksAll(sys: Sys, s: Store, files: map<DataPath, File>, job: Job)
    requires JobOk(sys, s, files, job)
    requires DeltasComplete(sys, Disk(files, s.puffins), VersionOf(s.manifest), job.m, job.deltas)
    ensures MarksAll(sys, DiskAfter(sys, s, files, job), VersionOf(StoreAfter(sys, s, job).manifest), job.m, job.path)
  {
    hide JobOk, InVersion, VersionOf, StoreAfter, HasKey, LoadDv;
    JobCommits(sys, s, files, job);
    var before, disk := Disk(files, s.puffins), DiskAfter(sys, s, files, job);
    var v, w := VersionOf(s.manifest), VersionOf(StoreAfter(sys, s, job).manifest);
    forall h, p: nat | InVersion(w, h) && h.path != job.path && SupersededBy(sys, disk, job.m, h, p)
      ensures !ShowsAt(sys.codec, disk, h, p)
    {
      FileOrigin(sys, s, files, job, h);
      var g :| InVersion(v, g) && Marked(sys, before, disk, TxnOf(sys, job), g, h);
      OldReadsKept(sys, s, files, job);
      assert Content(before, g) == Content(disk, g) == Content(disk, h);
      assert SupersededBy(sys, before, job.m, g, p);
      assert p in DvOf(sys.codec, disk, h);
    }
  }

  lemma GrownShowsAt(sys: Sys, disk: Disk, m: Mem, g: DataFile, h: DataFile, p: nat)
    requires Grown(sys, disk, m, g, h) && ShowsAt(sys.codec, disk, h, p)
    ensures ShowsAt(sys.codec, disk, g, p) && Content(disk, g) == Content(disk, h)
  {
    hide SupersededBy, DvOf;
  }

  /** Rows of the new file have different keys. */
  lemma NewKeysApart(sys: Sys, disk: Disk, m: Mem, f: DataFile, p: nat, q: nat)
    requires NewFileOf(sys, disk, m, f) && FileReady(sys.env, sys.codec, disk, f)
    requires p < |Content(disk, f).rows| && q < |Content(disk, f).rows| && SameKey(disk, f, p, f, q)
    ensures p == q
  {
    hide TopIn, InMem, Content, FileReady, Image;
    var rows := Content(disk, f).rows;
    NewRowIsTop(sys, disk, m, f, rows[p]);
    NewRowIsTop(sys, disk, m, f, rows[q]);
    TopUnique(sys.env, m, FromRow(rows[p]), FromRow(rows[q]));
    ReadySorted(sys, disk, f);
    if p != q { DistinctKeys(rows, p, q); }
  }

  lemma ReadySorted(sys: Sys, disk: Disk, f: DataFile)
    requires FileReady(sys.env, sys.codec, disk, f)
    ensures Sorted(Content(disk, f).rows)
  {
    hide MetaOk, OpenFile, AllValid, IndexOk, BloomOk, BoundsOk, Sum, SeqsDescend;
  }

  lemma DistinctKeys(rows: seq<Rec>, p: nat, q: nat)
    requires Sorted(rows) && p < |rows| && q < |rows| && p != q
    ensures rows[p].key != rows[q].key
  {
    LessIrreflexive(rows[p].key.uk);
    assert if p < q then VersionLess(rows[p].key, rows[q].key) else VersionLess(rows[q].key, rows[p].key);
  }

  lemma NewKeyInMem(sys: Sys, disk: Disk, m: Mem, f: DataFile, p: nat)
    requires NewFileOf(sys, disk, m, f) && p < |Content(disk, f).rows|
    ensures HasKey(sys.env, m, Content(disk, f).rows[p].key.uk)
  {
    hide InMem, Content;
    assert TopIn(sys.env, m, FromRow(Content(disk, f).rows[p]));
  }

  /** A visible row of an older file has no key of the memtable. */
  lemma NewAndOldApart(sys: Sys, disk: Disk, w: Version, m: Mem, path: DataPath, f: DataFile, g: DataFile, p: nat,
                       q: nat)
    requires NewFileOf(sys, disk, m, f) && MarksAll(sys, disk, w, m, path) && InVersion(w, g) && g.path != path
    requires p < |Content(disk, f).rows| && q < |Content(disk, g).rows| && ShowsAt(sys.codec, disk, g, q)
    ensures !SameKey(disk, f, p, g, q)
  {
    hide InVersion, HasKey, NewFileOf, ShowsAt, Content;
    NewKeyInMem(sys, disk, m, f, p);
    assert SameKey(disk, f, p, g, q) ==> SupersededBy(sys, disk, m, g, q);
  }

  /** Visible rows of older files were visible before. */
  lemma OldRowsApart(sys: Sys, disk: Disk, v: Version, m: Mem, f: DataFile, g: DataFile, p: nat, q: nat)
    requires OneRowPerKey(sys.codec, disk, v) && ComesFrom(sys, disk, v, m, f) && ComesFrom(sys, disk, v, m, g)
    requires ShowsAt(sys.codec, disk, f, p) && ShowsAt(sys.codec, disk, g, q) && SameKey(disk, f, p, g, q)
    ensures f.path == g.path && p == q
  {
    hide InVersion, Grown, ShowsAt, Content;
    ShownPos(sys.codec, disk, f, p);
    ShownPos(sys.codec, disk, g, q);
    var f' :| InVersion(v, f') && Grown(sys, disk, m, f', f);
    var g' :| InVersion(v, g') && Grown(sys, disk, m, g', g);
    GrownShowsAt(sys, disk, m, f', f, p);
    GrownShowsAt(sys, disk, m, g', g, q);
    GrownMeta(sys, disk, m, f', f);
    GrownMeta(sys, disk, m, g', g);
  }

  lemma PathDecides(env: Env, codec: Codec, disk: Disk, w: Version, f: DataFile, g: DataFile)
    requires VersionOk(env, codec, disk, w) && InVersion(w, f) && InVersion(w, g) && f.path == g.path
    ensures f == g
  {
    hide FileReady, WellArranged, InVersion, NewerRows, SeqsApart, KeysApart;
    assert f != g ==> Compatible(disk, f, g);
  }

  /** Two visible rows of a key after the flush are the same row. */
  lemma StillOneRow(sys: Sys, disk: Disk, v: Version, w: Version, m: Mem, path: DataPath, f: DataFile, g: DataFile,
                    p: nat, q: nat)
    requires VersionOk(sys.env, sys.codec, disk, w) && Successor(sys, disk, v, w, m, path) &&
             MarksAll(sys, disk, w, m, path)
    requires OneRowPerKey(sys.codec, disk, v) && InVersion(w, f) && InVersion(w, g)
    requires ShowsAt(sys.codec, disk, f, p) && ShowsAt(sys.codec, disk, g, q) && SameKey(disk, f, p, g, q)
    ensures f == g && p == q
  {
    hide InVersion, FileReady, WellArranged, NewFileOf, ShowsAt, Compatible, OneRowPerKey, ComesFrom, MarksAll, GoesTo,
         Content;
    ShownPos(sys.codec, disk, f, p);
    ShownPos(sys.codec, disk, g, q);
    if f.path == path {
      AddedOnly(sys, disk, w, m, path, f);
      if g.path == path {
        PathDecides(sys.env, sys.codec, disk, w, f, g);
        NewKeysApart(sys, disk, m, f, p, q);
      } else {
        NewAndOldApart(sys, disk, w, m, path, f, g, p, q);
      }
    } else if g.path == path {
      AddedOnly(sys, disk, w, m, path, g);
      NewAndOldApart(sys, disk, w, m, path, g, f, q, p);
    } else {
      OldRowsApart(sys, disk, v, m, f, g, p, q);
      PathDecides(sys.env, sys.codec, disk, w, f, g);
    }
  }

  lemma ShownPos(codec: Codec, disk: Disk, f: DataFile, p: nat)
    requires ShowsAt(codec, disk, f, p)
    ensures p < |Content(disk, f).rows|
  {
  }

  /** A newest row that gets masked is superseded by a visible newer one. */
  lemma StillShown(sys: Sys, disk: Disk, v: Version, w: Version, m: Mem, path: DataPath, h: DataFile, x: Rec)
    requires VersionOk(sys.env, sys.codec, disk, v) && VersionOk(sys.env, sys.codec, disk, w) &&
             Successor(sys, disk, v, w, m, path)
    requires FilesBelow(sys, v, m, None) && NewestShown(sys.codec, disk, v) && InVersion(w, h) && HasRow(disk, h, x)
    ensures ShownFor(sys.codec, disk, w, x)
  {
    hide InVersion, VersionOk, NewFileOf, Grown, Shows, HasRow, InMem, FilesBelow;
    if h.path == path {
      AddedOnly(sys, disk, w, m, path, h);
      NewFileDv(sys, disk, m, h);
      NoDvShows(sys.codec, disk, h, x);
      assert OnDisk(sys.codec, disk, w, x);
    } else {
      assert ComesFrom(sys, disk, v, m, h);
      var g :| InVersion(v, g) && Grown(sys, disk, m, g, h);
      GrownRow(sys, disk, m, g, h, x);
      assert ShownFor(sys.codec, disk, v, x);
      var y :| OnDisk(sys.codec, disk, v, y) && y.key.uk == x.key.uk && y.key.seqno >= x.key.seqno;
      ShownBefore(sys, disk, v, w, m, path, y);
      if !OnDisk(sys.codec, disk, w, y) {
        var z := FlushedNewer(sys, disk, v, w, m, path, y);
      }
    }
  }

  lemma GrownRow(sys: Sys, disk: Disk, m: Mem, g: DataFile, h: DataFile, x: Rec)
    requires Grown(sys, disk, m, g, h) && HasRow(disk, h, x)
    ensures HasRow(disk, g, x)
  {
    hide SupersededBy;
  }

  lemma KeyIsSaved(sys: Sys, disk: Disk, m: Mem, f: DataFile, uk: bytes) returns (z: Rec)
    requires NewFileOf(sys, disk, m, f) && HasKey(sys.env, m, uk)
    ensures HasRow(disk, f, z) && z.key.uk == uk
  {
    hide InMem, TopIn, Content;
    var u :| InMem(sys.env, m, u) && u.key.uk == uk;
    z :| z in Content(disk, f).rows && z.key.uk == u.key.uk;
  }

  /** The flushed file shows a newer row of every key of the memtable. */
  lemma FlushedNewer(sys: Sys, disk: Disk, v: Version, w: Version, m: Mem, path: DataPath, y: Rec) returns (z: Rec)
    requires VersionOk(sys.env, sys.codec, disk, v) && Adds(sys, disk, w, m, path) && FilesBelow(sys, v, m, None)
    requires OnDisk(sys.codec, disk, v, y) && HasKey(sys.env, m, y.key.uk)
    ensures OnDisk(sys.codec, disk, w, z) && z.key.uk == y.key.uk && z.key.seqno > y.key.seqno
  {
    hide InVersion, VersionOk, Shows, InMem, NewFileOf, HasRow, TopIn, HasKey;
    var f :| InVersion(w, f) && f.path == path && NewFileOf(sys, disk, m, f);
    z := KeyIsSaved(sys, disk, m, f, y.key.uk);
    NewRowIsTop(sys, disk, m, f, z);
    NewFileDv(sys, disk, m, f);
    NoDvShows(sys.codec, disk, f, z);
    var g :| InVersion(v, g) && Shows(sys.codec, disk, g, y);
    ShownUnderMax(sys, disk, v, g, y);
  }

  lemma ShownUnderMax(sys: Sys, disk: Disk, v: Version, g: DataFile, y: Rec)
    requires VersionOk(sys.env, sys.codec, disk, v) && InVersion(v, g) && Shows(sys.codec, disk, g, y)
    ensures y.key.seqno <= g.meta.seqMax
  {
    hide FileSound, Compatible, WellArranged, InVersion, Covers;
    ShownIsRow(sys.codec, disk, g, y);
    RowInBounds(sys.env, sys.codec, disk, g, y);
  }

  /** Flushing with complete deltas keeps one visible row per key, the newest. */
  lemma FlushKeepsUnique(sys: Sys, disk: Disk, v: Version, w: Version, m: Mem, path: DataPath)
    requires VersionOk(sys.env, sys.codec, disk, v) && VersionOk(sys.env, sys.codec, disk, w) &&
             Successor(sys, disk, v, w, m, path)
    requires FilesBelow(sys, v, m, None) && MarksAll(sys, disk, w, m, path) && Unique(sys, disk, v)
    ensures Unique(sys, disk, w)
  {
    hide InVersion, VersionOk, Successor, ShowsAt, HasRow, ShownFor, FilesBelow, MarksAll;
    forall f, g, p: nat, q: nat | InVersion(w, f) && InVersion(w, g) && ShowsAt(sys.codec, disk, f, p) &&
      ShowsAt(sys.codec, disk, g, q)
      ensures p < |Content(disk, f).rows| && q < |Content(disk, g).rows| &&
              (SameKey(disk, f, p, g, q) ==> f == g && p == q)
    {
      ShownPos(sys.codec, disk, f, p);
      ShownPos(sys.codec, disk, g, q);
      if SameKey(disk, f, p, g, q) { StillOneRow(sys, disk, v, w, m, path, f, g, p, q); }
    }
    forall h, x | InVersion(w, h) && HasRow(disk, h, x)
      ensures ShownFor(sys.codec, disk, w, x)
    {
      StillShown(sys, disk, v, w, m, path, h, x);
    }
  }
}
