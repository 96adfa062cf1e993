/** The files behind a version: opening one, and what a sound set of live
    files looks like (`open_file` in `engine/read_path.rs`). */
module LiveFiles {
  import opened Wrappers
  import opened ByteStrings
  import opened Table
  import opened Visibility
  import opened Sst
  import opened DeletionVector
  import opened Manifest
  import opened Versions
  import opened Catalog

  /** What is on disk: data files and Puffin files. */
  datatype Disk = Disk(files: map<DataPath, File>, puffins: Puffins)

  const NO_FILE: File := File([], [], None, None, [], [])

  function Content(disk: Disk, f: DataFile): File {
    if f.path in disk.files then disk.files[f.path] else NO_FILE
  }

  function DvOf(codec: Codec, disk: Disk, f: DataFile): Bitmap {
    Mask(codec, disk.puffins, f.dv)
  }

  /** The file's content and its deletion vector. */
  function OpenFile(codec: Codec, disk: Disk, f: DataFile): Result<(File, Bitmap)> {
    if f.path !in disk.files then Err(Io)
    else
      match LoadDv(codec, disk.puffins, f.dv)
      case Err(e) => Err(e)
      case Ok(dv) => Ok((disk.files[f.path], dv))
  }

  /** A file opens if and only if it and its deletion vector are there and
      readable; a missing file is an I/O error, as is a missing Puffin file, and
      everything else is corruption. */
  lemma OpensIff(codec: Codec, disk: Disk, f: DataFile, content: File, dv: Bitmap)
    ensures OpenFile(codec, disk, f) == Ok((content, dv)) <==>
            f.path in disk.files && disk.files[f.path] == content && LoadDv(codec, disk.puffins, f.dv) == Ok(dv)
    ensures OpenFile(codec, disk, f) == Err(Io) <==>
            f.path !in disk.files || (AllCoords(f.dv) && f.dv.path.value !in disk.puffins)
    ensures OpenFile(codec, disk, f).Err? && OpenFile(codec, disk, f) != Err(Io) ==>
              OpenFile(codec, disk, f) == Err(Corruption)
  {
    LoadDvIs(codec, disk.puffins, f.dv, dv);
    hide LoadDv;
  }

  /** The recorded bounds and counts are those of the rows. */
  ghost predicate MetaOk(meta: FileMeta, file: File) {
    meta.keyMin == file.keyMin && meta.keyMax == file.keyMax && meta.numRows == |file.rows| &&
    forall i :: 0 <= i < |file.rows| ==> meta.seqMin <= file.rows[i].key.seqno <= meta.seqMax
  }

  /** No two versions of a key share a sequence number. */
  ghost predicate SeqsDescend(rows: seq<Rec>) {
    forall i, j :: 0 <= i < j < |rows| && rows[i].key.uk == rows[j].key.uk ==> rows[i].key.seqno > rows[j].key.seqno
  }

  /** What is there of the file is what its metadata says. The file or its
      deletion vector may be missing or damaged. */
  ghost predicate FileSound(env: Env, codec: Codec, disk: Disk, f: DataFile) {
    AtMost(f.meta.keyMin, f.meta.keyMax) &&
    (f.path in disk.files ==>
      WellFormed(Content(disk, f), env) && MetaOk(f.meta, Content(disk, f)) && SeqsDescend(Content(disk, f).rows) &&
      forall p :: p in DvOf(codec, disk, f) ==> p < |Content(disk, f).rows|)
  }

  /** The file can be opened, too. */
  ghost predicate FileReady(env: Env, codec: Codec, disk: Disk, f: DataFile) {
    OpenFile(codec, disk, f).Ok? && FileSound(env, codec, disk, f)
  }

  /** Row `rec` is in the file, masked or not. */
  ghost predicate HasRow(disk: Disk, f: DataFile, rec: Rec) {
    rec in Content(disk, f).rows
  }

  /** Row `pos` of the file is not masked. */
  predicate ShowsAt(codec: Codec, disk: Disk, f: DataFile, pos: nat) {
    pos < |Content(disk, f).rows| && !Masked(DvOf(codec, disk, f), pos)
  }

  /** Row `rec` is in the file and not masked. */
  ghost predicate Shows(codec: Codec, disk: Disk, f: DataFile, rec: Rec) {
    exists pos: nat :: ShowsAt(codec, disk, f, pos) && Content(disk, f).rows[pos] == rec
  }

  lemma ShownIsRow(codec: Codec, disk: Disk, f: DataFile, rec: Rec)
    requires Shows(codec, disk, f, rec)
    ensures HasRow(disk, f, rec)
  {
  }

  // ── Sound versions ────────────────────────────────────────────────────────

  predicate SeqsApart(f: DataFile, g: DataFile) {
    f.meta.seqMax < g.meta.seqMin || g.meta.seqMax < f.meta.seqMin
  }

  predicate KeysApart(f: DataFile, g: DataFile) {
    Less(f.meta.keyMax, g.meta.keyMin) || Less(g.meta.keyMax, f.meta.keyMin)
  }

  /** Rows of `f` are newer than rows of `g` with the same key. */
  ghost predicate NewerRows(disk: Disk, f: DataFile, g: DataFile) {
    forall x, y :: HasRow(disk, f, x) && HasRow(disk, g, y) && x.key.uk == y.key.uk ==> x.key.seqno > y.key.seqno
  }

  /** Two different files of a version do not compete: L0 files cover different
      sequence numbers, files of a deeper level different keys, and a
      shallower level is newer. */
  ghost predicate Compatible(disk: Disk, f: DataFile, g: DataFile) {
    f.path != g.path &&
    (f.meta.level == g.meta.level == 0 ==> SeqsApart(f, g)) &&
    (f.meta.level == g.meta.level > 0 ==> KeysApart(f, g)) &&
    (f.meta.level < g.meta.level ==> NewerRows(disk, f, g))
  }

  /** A version as committers leave it, if the disk is as they left it or not. */
  ghost predicate VersionSound(env: Env, codec: Codec, disk: Disk, v: Version) {
    WellArranged(v) &&
    (forall f :: InVersion(v, f) ==> FileSound(env, codec, disk, f)) &&
    (forall f, g :: InVersion(v, f) && InVersion(v, g) && f != g ==> Compatible(disk, f, g))
  }

  /** All its files can be opened, too. */
  ghost predicate VersionOk(env: Env, codec: Codec, disk: Disk, v: Version) {
    WellArranged(v) &&
    (forall f :: InVersion(v, f) ==> FileReady(env, codec, disk, f)) &&
    (forall f, g :: InVersion(v, f) && InVersion(v, g) && f != g ==> Compatible(disk, f, g))
  }

  /** Some file of the version cannot be opened, for the reason given. */
  ghost predicate Damaged(codec: Codec, disk: Disk, v: Version, error: Error) {
    exists f :: InVersion(v, f) && OpenFile(codec, disk, f) == Err(error)
  }

  lemma OkIsSound(env: Env, codec: Codec, disk: Disk, v: Version)
    requires VersionOk(env, codec, disk, v)
    ensures VersionSound(env, codec, disk, v)
    ensures forall e :: !Damaged(codec, disk, v, e)
  {
    hide FileSound, Compatible, WellArranged, InVersion;
  }

  /** Row `rec` is visible in some live file. */
  ghost predicate OnDisk(codec: Codec, disk: Disk, v: Version, rec: Rec) {
    exists f :: InVersion(v, f) && Shows(codec, disk, f, rec)
  }

  lemma RowInBounds(env: Env, codec: Codec, disk: Disk, f: DataFile, x: Rec)
    requires FileSound(env, codec, disk, f) && HasRow(disk, f, x)
    ensures Covers(f, x.key.uk) && f.meta.seqMin <= x.key.seqno <= f.meta.seqMax
  {
    hide Less;
    var i :| 0 <= i < |Content(disk, f).rows| && Content(disk, f).rows[i] == x;
    WithinBounds(Content(disk, f), i);
  }
}
