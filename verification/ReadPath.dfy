/** Reading from the files of a version (`engine/read_path.rs`).

    The reference is the set of all unmasked rows of all live files: a lookup
    must return the newest of them for its key, although it stops at the first
    file that has one.
 */
module ReadPath {
  import opened Wrappers
  import opened ByteStrings
  import opened Keys
  import opened Table
  import opened Visibility
  import opened Sst
  import opened DeletionVector
  import opened Manifest
  import opened Versions
  import opened Catalog
  import opened LiveFiles
  import opened Sorting

  /** `x` is a version of `uk` that a reader at `readSeq` may see. */
  predicate Readable(x: Rec, uk: bytes, readSeq: nat) {
    x.key.uk == uk && x.key.seqno <= readSeq
  }

  /** `ans` is the newest readable version of `uk` on disk. */
  ghost predicate NewestOnDisk(codec: Codec, disk: Disk, v: Version, uk: bytes, readSeq: nat, ans: Option<Rec>) {
    match ans
    case None => forall y :: OnDisk(codec, disk, v, y) ==> !Readable(y, uk, readSeq)
    case Some(x) =>
      OnDisk(codec, disk, v, x) && Readable(x, uk, readSeq) &&
      forall y :: OnDisk(codec, disk, v, y) && Readable(y, uk, readSeq) ==> y == x || y.key.seqno < x.key.seqno
  }

  // ── One file ──────────────────────────────────────────────────────────────

  ghost predicate NoHits(codec: Codec, disk: Disk, f: DataFile, uk: bytes, readSeq: nat) {
    forall y :: Shows(codec, disk, f, y) ==> !Readable(y, uk, readSeq)
  }

  ghost predicate NewestIn(codec: Codec, disk: Disk, f: DataFile, uk: bytes, readSeq: nat, x: Rec) {
    Shows(codec, disk, f, x) && Readable(x, uk, readSeq) &&
    forall y :: Shows(codec, disk, f, y) && Readable(y, uk, readSeq) ==> y == x || y.key.seqno < x.key.seqno
  }

  /** What a lookup in one file says about its unmasked rows. */
  lemma FileLookup(env: Env, codec: Codec, disk: Disk, f: DataFile, uk: bytes, readSeq: nat)
    requires FileSound(env, codec, disk, f)
    ensures match Lookup(Content(disk, f).rows, Query(uk, readSeq, DvOf(codec, disk, f)))
            case None => NoHits(codec, disk, f, uk, readSeq)
            case Some(x) => NewestIn(codec, disk, f, uk, readSeq, x)
  {
    hide Lookup, FileSound, DvOf;
    var rows, q := Content(disk, f).rows, Query(uk, readSeq, DvOf(codec, disk, f));
    SoundRows(env, codec, disk, f);
    LookupIsNewest(rows, q);
    match Lookup(rows, q)
    case None =>
      forall y | Shows(codec, disk, f, y)
        ensures !Readable(y, uk, readSeq)
      {
        var pos: nat :| ShowsAt(codec, disk, f, pos) && rows[pos] == y;
        assert !Hit(rows[pos], pos, q);
      }
    case Some(x) =>
      var k :| 0 <= k < |rows| && x == rows[k] && Hit(rows[k], k, q) &&
               forall j :: 0 <= j < |rows| && j != k && Hit(rows[j], j, q) ==> rows[j].key.seqno <= x.key.seqno;
      assert ShowsAt(codec, disk, f, k);
      forall y | Shows(codec, disk, f, y) && Readable(y, uk, readSeq)
        ensures y == x || y.key.seqno < x.key.seqno
      {
        var pos: nat :| ShowsAt(codec, disk, f, pos) && rows[pos] == y;
        assert Hit(rows[pos], pos, q);
      }
  }

  lemma SoundRows(env: Env, codec: Codec, disk: Disk, f: DataFile)
    requires FileSound(env, codec, disk, f)
    ensures Sorted(Content(disk, f).rows) && SeqsDescend(Content(disk, f).rows)
  {
    hide MetaOk, DvOf, AtMost, AllValid, IndexOk, BloomOk, BoundsOk, Sum;
  }

  lemma WellFormedSorted(env: Env, file: File)
    requires WellFormed(file, env)
    ensures Sorted(file.rows)
  {
  }

  /** `range_contains`; an empty bound excludes nothing. */
  predicate RangeContains(meta: FileMeta, uk: bytes) {
    !(meta.keyMin != [] && Less(uk, meta.keyMin)) && !(meta.keyMax != [] && Less(meta.keyMax, uk))
  }

  lemma OutOfRange(env: Env, codec: Codec, disk: Disk, f: DataFile, uk: bytes, readSeq: nat)
    requires FileSound(env, codec, disk, f) && (!RangeContains(f.meta, uk) || !Covers(f, uk))
    ensures NoHits(codec, disk, f, uk, readSeq)
  {
    hide FileSound, Less;
    forall y | Shows(codec, disk, f, y)
      ensures y.key.uk != uk
    {
      ShownIsRow(codec, disk, f, y);
      RowInBounds(env, codec, disk, f, y);
    }
  }

  /** Opens the file and looks the key up; fails exactly if it cannot be
      opened. */
  method GetFrom(env: Env, codec: Codec, disk: Disk, f: DataFile, uk: bytes, readSeq: nat)
    returns (r: Result<Option<Rec>>)
    requires FileSound(env, codec, disk, f)
    ensures r.Err? <==> OpenFile(codec, disk, f).Err?
    ensures r.Err? ==> OpenFile(codec, disk, f) == Err(r.error)
    ensures r == Ok(None) ==> NoHits(codec, disk, f, uk, readSeq)
    ensures r.Ok? && r.value.Some? ==> NewestIn(codec, disk, f, uk, readSeq, r.value.value)
  {
    hide Lookup, WellFormed, MetaOk, SeqsDescend, NoHits, NewestIn, LoadDv, AtMost;
    var reader := OpenFile(codec, disk, f);
    if reader.Err? { return Err(reader.error); }
    var (file, dv) := reader.value;
    assert file == Content(disk, f) && dv == DvOf(codec, disk, f);
    FileLookup(env, codec, disk, f, uk, readSeq);
    r := Get(env, file, Query(uk, readSeq, dv));
  }

  // ── Why the first hit is the newest ───────────────────────────────────────

  /** All files other than `f` that could hold something newer have no hit. */
  lemma FirstHitIsNewest(env: Env, codec: Codec, disk: Disk, v: Version, f: DataFile, uk: bytes, readSeq: nat, x: Rec)
    requires VersionSound(env, codec, disk, v) && InVersion(v, f) && NewestIn(codec, disk, f, uk, readSeq, x)
    requires forall g :: InVersion(v, g) && g != f && g.meta.level < f.meta.level ==>
             NoHits(codec, disk, g, uk, readSeq)
    requires forall g :: InVersion(v, g) && g != f && g.meta.level == f.meta.level ==>
               NoHits(codec, disk, g, uk, readSeq) || (g.meta.level == 0 && g.meta.seqMax <= f.meta.seqMax)
    ensures NewestOnDisk(codec, disk, v, uk, readSeq, Some(x))
  {
    hide FileSound, Less, InVersion, WellArranged, Shows;
    forall y | OnDisk(codec, disk, v, y) && Readable(y, uk, readSeq)
      ensures y == x || y.key.seqno < x.key.seqno
    {
      var g :| InVersion(v, g) && Shows(codec, disk, g, y);
      if g != f {
        ShownIsRow(codec, disk, f, x);
        ShownIsRow(codec, disk, g, y);
        assert Compatible(disk, f, g);
        RowInBounds(env, codec, disk, f, x);
        RowInBounds(env, codec, disk, g, y);
      }
    }
  }

  lemma NoHitsAnywhere(codec: Codec, disk: Disk, v: Version, uk: bytes, readSeq: nat)
    requires forall f :: InVersion(v, f) ==> NoHits(codec, disk, f, uk, readSeq)
    ensures NewestOnDisk(codec, disk, v, uk, readSeq, None)
  {
  }

  // ── Point lookup ──────────────────────────────────────────────────────────

  /** L0, newest file first; stops at the first hit or failure. */
  method SearchL0(env: Env, codec: Codec, disk: Disk, v: Version, uk: bytes, readSeq: nat)
    returns (r: Result<Option<Rec>>)
    requires VersionSound(env, codec, disk, v)
    ensures r.Err? ==> Damaged(codec, disk, v, r.error)
    ensures r.Ok? && r.value.Some? ==> NewestOnDisk(codec, disk, v, uk, readSeq, r.value)
    ensures r == Ok(None) ==> forall f :: InVersion(v, f) && f.meta.level == 0 ==> NoHits(codec, disk, f, uk, readSeq)
  {
    hide FileSound, NoHits, NewestIn, Compatible, NewestOnDisk, RangeContains, OpenFile;
    var files := FilesAt(v, 0);
    for i := 0 to |files|
      invariant forall k :: 0 <= k < i ==> NoHits(codec, disk, files[k], uk, readSeq)
    {
      var f := files[i];
      InLevel(v, 0, f);
      if !RangeContains(f.meta, uk) {
        OutOfRange(env, codec, disk, f, uk, readSeq);
        continue;
      }
      r := GetFrom(env, codec, disk, f, uk, readSeq);
      if r.Err? { return; }
      if r.value.Some? {
        OlderBehind(v, i);
        FirstHitIsNewest(env, codec, disk, v, f, uk, readSeq, r.value.value);
        return;
      }
    }
    r := Ok(None);
  }

  lemma InLevel(v: Version, level: nat, f: DataFile)
    requires WellArranged(v) && f in FilesAt(v, level)
    ensures InVersion(v, f) && f.meta.level == level
  {
  }

  /** L0 files behind position `i` are not newer. */
  lemma OlderBehind(v: Version, i: nat)
    requires WellArranged(v) && i < |FilesAt(v, 0)|
    ensures forall g :: InVersion(v, g) && g.meta.level == 0 ==>
              (exists k :: 0 <= k < i && FilesAt(v, 0)[k] == g) || g.meta.seqMax <= FilesAt(v, 0)[i].meta.seqMax
  {
    var files := FilesAt(v, 0);
    forall g | InVersion(v, g) && g.meta.level == 0
      ensures (exists k :: 0 <= k < i && files[k] == g) || g.meta.seqMax <= files[i].meta.seqMax
    {
      var k :| 0 <= k < |files| && files[k] == g;
      if k > i { assert !LevelOrder(0)(files[k], files[i]); }
    }
  }

  lemma LevelSearchable(env: Env, codec: Codec, disk: Disk, v: Version, level: nat)
    requires VersionSound(env, codec, disk, v) && level > 0
    ensures Ordered(FilesAt(v, level), LevelOrder(level)) && NoOverlap(FilesAt(v, level))
  {
    hide FileSound, Less, NewerRows;
    var files := FilesAt(v, level);
    forall i, j | 0 <= i < j < |files|
      ensures files[i] == files[j] || Less(files[i].meta.keyMax, files[j].meta.keyMin)
    {
      InLevel(v, level, files[i]);
      InLevel(v, level, files[j]);
      if files[i] != files[j] {
        assert Compatible(disk, files[i], files[j]);
        assert !LevelOrder(level)(files[j], files[i]);
        KeysApartOrdered(env, codec, disk, files[i], files[j]);
      }
    }
  }

  lemma KeysApartOrdered(env: Env, codec: Codec, disk: Disk, f: DataFile, g: DataFile)
    requires FileSound(env, codec, disk, f) && FileSound(env, codec, disk, g) && KeysApart(f, g)
    requires !Less(g.meta.keyMin, f.meta.keyMin)
    ensures Less(f.meta.keyMax, g.meta.keyMin)
  {
    hide Less;
    if Less(g.meta.keyMax, f.meta.keyMin) {
      AtMostTransitive(f.meta.keyMin, g.meta.keyMin, g.meta.keyMax);
    }
  }

  /** Levels 1 and deeper, one candidate file per level. */
  method SearchDeeper(env: Env, codec: Codec, disk: Disk, v: Version, uk: bytes, readSeq: nat)
    returns (r: Result<Option<Rec>>)
    requires VersionSound(env, codec, disk, v)
    requires forall f :: InVersion(v, f) && f.meta.level == 0 ==> NoHits(codec, disk, f, uk, readSeq)
    ensures r.Err? ==> Damaged(codec, disk, v, r.error)
    ensures r.Ok? ==> NewestOnDisk(codec, disk, v, uk, readSeq, r.value)
  {
    hide FileSound, NoHits, NewestIn, Compatible, NewestOnDisk, Covers, WellArranged, Ordered, NoOverlap, OpenFile;
    var max := MaxLevel(v);
    for level := 1 to max + 1
      invariant forall f :: InVersion(v, f) && f.meta.level < level ==> NoHits(codec, disk, f, uk, readSeq)
    {
      LevelSearchable(env, codec, disk, v, level);
      var candidate := FindFileForKey(v, level, uk);
      forall f | InVersion(v, f) && f.meta.level == level && candidate != Some(f)
        ensures NoHits(codec, disk, f, uk, readSeq)
      {
        OutOfRange(env, codec, disk, f, uk, readSeq);
      }
      if candidate.None? { continue; }
      InLevel(v, level, candidate.value);
      r := GetFrom(env, codec, disk, candidate.value, uk, readSeq);
      if r.Err? { return; }
      if r.value.Some? {
        FirstHitIsNewest(env, codec, disk, v, candidate.value, uk, readSeq, r.value.value);
        return;
      }
    }
    NoHitsAnywhere(codec, disk, v, uk, readSeq);
    r := Ok(None);
  }

  /** The stops of a point lookup that follow the memtable and the cache. */
  method DiskLookup(env: Env, codec: Codec, disk: Disk, v: Version, uk: bytes, readSeq: nat)
    returns (r: Result<Option<Rec>>)
    requires VersionSound(env, codec, disk, v)
    ensures r.Err? ==> Damaged(codec, disk, v, r.error)
    ensures r.Ok? ==> NewestOnDisk(codec, disk, v, uk, readSeq, r.value)
  {
    hide VersionSound, NewestOnDisk, NoHits, Damaged;
    r := SearchL0(env, codec, disk, v, uk, readSeq);
    if r == Ok(None) {
      r := SearchDeeper(env, codec, disk, v, uk, readSeq);
    }
  }

  // ── Range scan: harvest ───────────────────────────────────────────────────

  /** `x` may appear in the result of a scan. */
  predicate InScan(x: Rec, range: Range, readSeq: nat) {
    InRange(x.key.uk, range) && x.key.seqno <= readSeq
  }

  /** `out` has a version of `y`'s key at least as new as `y`. */
  ghost predicate Represented(out: seq<Rec>, y: Rec) {
    exists x :: x in out && x.key.uk == y.key.uk && (x == y || x.key.seqno > y.key.seqno)
  }

  /** `out` holds unmasked rows of the file and represents all of them. */
  ghost predicate HarvestOf(codec: Codec, disk: Disk, f: DataFile, range: Range, readSeq: nat, out: seq<Rec>) {
    (forall x :: x in out ==> Shows(codec, disk, f, x) && InScan(x, range, readSeq)) &&
    (forall y :: Shows(codec, disk, f, y) && InScan(y, range, readSeq) ==> Represented(out, y))
  }

  lemma ScanHarvests(env: Env, codec: Codec, disk: Disk, f: DataFile, range: Range, readSeq: nat, out: seq<Rec>)
    requires FileSound(env, codec, disk, f)
    requires Lists(Content(disk, f).rows, |Content(disk, f).rows|, range, readSeq, DvOf(codec, disk, f), out)
    ensures HarvestOf(codec, disk, f, range, readSeq, out)
  {
    hide Lookup, FileSound, DvOf, InRange, NoHits;
    var rows, dv := Content(disk, f).rows, DvOf(codec, disk, f);
    forall x | x in out
      ensures Shows(codec, disk, f, x) && InScan(x, range, readSeq)
    {
      FileLookup(env, codec, disk, f, x.key.uk, readSeq);
    }
    forall y | Shows(codec, disk, f, y) && InScan(y, range, readSeq)
      ensures Represented(out, y)
    {
      var pos: nat :| ShowsAt(codec, disk, f, pos) && rows[pos] == y;
      assert Hit(rows[pos], pos, Query(y.key.uk, readSeq, dv));
      var i :| 0 <= i < |out| && out[i].key.uk == y.key.uk;
      FileLookup(env, codec, disk, f, y.key.uk, readSeq);
      assert out[i] in out;
    }
  }

  /** The two tests that skip a file without opening it. */
  predicate Skipped(meta: FileMeta, range: Range) {
    (range.start.Some? && meta.keyMax != [] && Less(meta.keyMax, range.start.value)) ||
    (range.end.Some? && meta.keyMin != [] && !Less(meta.keyMin, range.end.value))
  }

  ghost predicate SharesKey(meta: FileMeta, range: Range, uk: bytes) {
    AtMost(meta.keyMin, uk) && AtMost(uk, meta.keyMax) && InRange(uk, range)
  }

  /** A file with bounds is skipped if and only if no key between them is in the
      range, unless the range is empty. */
  lemma SkippedIff(meta: FileMeta, range: Range)
    requires meta.keyMin != [] && meta.keyMax != [] && AtMost(meta.keyMin, meta.keyMax)
    requires range.start.Some? && range.end.Some? ==> Less(range.start.value, range.end.value)
    ensures Skipped(meta, range) <==> !exists uk :: SharesKey(meta, range, uk)
  {
    hide Less;
    if !Skipped(meta, range) {
      LessIrreflexive(meta.keyMin);
      if range.start.Some? && Less(meta.keyMin, range.start.value) {
        LessIrreflexive(range.start.value);
        LessAsymmetric(meta.keyMin, range.start.value);
        assert SharesKey(meta, range, range.start.value);
      } else {
        assert SharesKey(meta, range, meta.keyMin);
      }
    } else if exists uk :: SharesKey(meta, range, uk) {
      var uk :| SharesKey(meta, range, uk);
      if range.start.Some? { AtMostTransitive(range.start.value, uk, meta.keyMax); }
      if range.end.Some? { LessAtMost(meta.keyMin, uk, range.end.value); }
      assert false;
    }
  }

  /** `range_contains` for a file with bounds. */
  lemma ContainsIff(meta: FileMeta, uk: bytes)
    ensures meta.keyMax != [] ==> (RangeContains(meta, uk) <==> AtMost(meta.keyMin, uk) && AtMost(uk, meta.keyMax))
    ensures meta.keyMax == [] ==> (RangeContains(meta, uk) <==> AtMost(meta.keyMin, uk))
  {
  }

  lemma SkippedHarvest(env: Env, codec: Codec, disk: Disk, f: DataFile, range: Range, readSeq: nat)
    requires FileSound(env, codec, disk, f) && Skipped(f.meta, range)
    ensures HarvestOf(codec, disk, f, range, readSeq, [])
  {
    hide FileSound, Less;
    forall y | Shows(codec, disk, f, y)
      ensures !InRange(y.key.uk, range)
    {
      ShownIsRow(codec, disk, f, y);
      RowInBounds(env, codec, disk, f, y);
      if range.start.Some? && Less(f.meta.keyMax, range.start.value) {
        AtMostLessLess(y.key.uk, f.meta.keyMax, range.start.value);
      } else {
        AtMostTransitive(range.end.value, f.meta.keyMin, y.key.uk);
      }
    }
  }

  lemma AtMostLessLess(a: bytes, b: bytes, c: bytes)
    requires AtMost(a, b) && Less(b, c)
    ensures Less(a, c)
  {
    hide Less;
    if !Less(a, c) { AtMostTransitive(c, a, b); }
  }

  method HarvestFile(ghost env: Env, codec: Codec, disk: Disk, f: DataFile, range: Range, readSeq: nat)
    returns (r: Result<seq<Rec>>)
    requires FileSound(env, codec, disk, f)
    ensures r.Err? <==> !Skipped(f.meta, range) && OpenFile(codec, disk, f).Err?
    ensures r.Err? ==> OpenFile(codec, disk, f) == Err(r.error)
    ensures r.Ok? ==> HarvestOf(codec, disk, f, range, readSeq, r.value)
  {
    hide WellFormed, MetaOk, LoadDv, HarvestOf, Skipped, Lists, SeqsDescend, AtMost;
    if Skipped(f.meta, range) {
      SkippedHarvest(env, codec, disk, f, range, readSeq);
      return Ok([]);
    }
    var reader := OpenFile(codec, disk, f);
    if reader.Err? { return Err(reader.error); }
    var (file, dv) := reader.value;
    assert file == Content(disk, f) && dv == DvOf(codec, disk, f);
    WellFormedSorted(env, file);
    var out := Scan(file, range, readSeq, dv);
    ScanHarvests(env, codec, disk, f, range, readSeq, out);
    r := Ok(out);
  }

  /** `out` holds unmasked rows of the version and represents those of all
      files up to `level`, and of the first `n` files of that level. */
  ghost predicate Harvest(codec: Codec, disk: Disk, v: Version, range: Range, readSeq: nat, level: nat, n: nat,
                          out: seq<Rec>)
    requires n <= |FilesAt(v, level)|
  {
    (forall x :: x in out ==> OnDisk(codec, disk, v, x) && InScan(x, range, readSeq)) &&
    (forall f, y :: Visited(v, level, n, f) && Shows(codec, disk, f, y) && InScan(y, range, readSeq) ==>
      Represented(out, y))
  }

  ghost predicate Visited(v: Version, level: nat, n: nat, f: DataFile)
    requires n <= |FilesAt(v, level)|
  {
    InVersion(v, f) && (f.meta.level < level || f in FilesAt(v, level)[..n])
  }

  lemma HarvestStep(codec: Codec, disk: Disk, v: Version, range: Range, readSeq: nat, level: nat, n: nat, out: seq<Rec>,
                    more: seq<Rec>)
    requires WellArranged(v) && n < |FilesAt(v, level)|
    requires Harvest(codec, disk, v, range, readSeq, level, n, out)
    requires HarvestOf(codec, disk, FilesAt(v, level)[n], range, readSeq, more)
    ensures Harvest(codec, disk, v, range, readSeq, level, n + 1, out + more)
  {
    hide InScan, Shows, WellArranged;
    var files, all := FilesAt(v, level), out + more;
    InLevel(v, level, files[n]);
    assert files[..n + 1] == files[..n] + [files[n]];
    forall y | Represented(out, y) || Represented(more, y)
      ensures Represented(all, y)
    {
      var x :| (x in out || x in more) && x.key.uk == y.key.uk && (x == y || x.key.seqno > y.key.seqno);
      assert x in all;
    }
  }

  method HarvestDisk(ghost env: Env, codec: Codec, disk: Disk, v: Version, range: Range, readSeq: nat)
    returns (r: Result<seq<Rec>>)
    requires VersionSound(env, codec, disk, v)
    ensures r.Err? ==> Damaged(codec, disk, v, r.error)
    ensures r.Ok? ==> forall x :: x in r.value ==> OnDisk(codec, disk, v, x) && InScan(x, range, readSeq)
    ensures r.Ok? ==> forall y :: OnDisk(codec, disk, v, y) && InScan(y, range, readSeq) ==> Represented(r.value, y)
  {
    hide FileSound, HarvestOf, Compatible, WellArranged, InScan, Represented, Shows, OpenFile, Skipped;
    var max := MaxLevel(v);
    var out: seq<Rec> := [];
    for level: nat := 0 to max + 1
      invariant Harvest(codec, disk, v, range, readSeq, level, 0, out)
    {
      var files := FilesAt(v, level);
      for n := 0 to |files|
        invariant Harvest(codec, disk, v, range, readSeq, level, n, out)
      {
        InLevel(v, level, files[n]);
        var more := HarvestFile(env, codec, disk, files[n], range, readSeq);
        if more.Err? { return Err(more.error); }
        HarvestStep(codec, disk, v, range, readSeq, level, n, out, more.value);
        out := out + more.value;
      }
      assert files[..|files|] == files;
    }
    forall y | OnDisk(codec, disk, v, y) && InScan(y, range, readSeq)
      ensures Represented(out, y)
    {
      var f :| InVersion(v, f) && Shows(codec, disk, f, y);
    }
    r := Ok(out);
  }

  // ── Range scan: sort and deduplicate ──────────────────────────────────────

  function KeyOrder(x: Rec, y: Rec): bool {
    VersionLess(x.key, y.key)
  }

  lemma KeyOrderIsWeak()
    ensures StrictWeak(KeyOrder)
  {
    forall x: Rec, y: Rec
      ensures KeyOrder(x, y) ==> !KeyOrder(y, x)
    {
      if KeyOrder(x, y) { VersionAntisymmetric(x.key, y.key); }
    }
    forall x: Rec, y: Rec, z: Rec | !KeyOrder(y, x) && !KeyOrder(z, y)
      ensures !KeyOrder(z, x)
    {
      AtMostTransitive(x.key.uk, y.key.uk, z.key.uk);
      AtMostLess(x.key.uk, y.key.uk);
      AtMostLess(y.key.uk, z.key.uk);
      LessIrreflexive(x.key.uk);
    }
  }

  /** No version of `x`'s key in `harvest` comes before `x`. */
  ghost predicate Top(harvest: seq<Rec>, x: Rec) {
    x in harvest && forall y :: y in harvest && y.key.uk == x.key.uk ==> !VersionLess(y.key, x.key)
  }

  /** `out` lists the puts among the topmost entries of `sorted[..k]`. */
  ghost predicate Tops(sorted: seq<Rec>, k: nat, out: seq<Rec>)
    requires k <= |sorted|
  {
    StrictlyAscending(out) &&
    (forall i :: 0 <= i < |out| ==> out[i].key.op == Put && Top(sorted, out[i]) && out[i] in sorted[..k]) &&
    (forall i :: 0 <= i < k && Top(sorted, sorted[i]) && sorted[i].key.op == Put ==> Listed(out, sorted[i].key.uk))
  }

  lemma SortedKeys(sorted: seq<Rec>, i: nat, j: nat)
    requires Ordered(sorted, KeyOrder) && i <= j < |sorted|
    ensures AtMost(sorted[i].key.uk, sorted[j].key.uk)
  {
    hide Less;
    LessIrreflexive(sorted[i].key.uk);
    if i < j { assert !KeyOrder(sorted[j], sorted[i]); }
  }

  /** The first entry of each key is topmost. */
  lemma FirstIsTop(sorted: seq<Rec>, k: nat)
    requires Ordered(sorted, KeyOrder) && k < |sorted| && (k > 0 ==> sorted[k - 1].key.uk != sorted[k].key.uk)
    ensures Top(sorted, sorted[k])
    ensures forall i :: 0 <= i < k ==> Less(sorted[i].key.uk, sorted[k].key.uk)
  {
    hide Less, VersionLess;
    forall i | 0 <= i < k
      ensures Less(sorted[i].key.uk, sorted[k].key.uk)
    {
      SortedKeys(sorted, i, k - 1);
      SortedKeys(sorted, k - 1, k);
      AtMostLess(sorted[k - 1].key.uk, sorted[k].key.uk);
      AtMostLessLess(sorted[i].key.uk, sorted[k - 1].key.uk, sorted[k].key.uk);
    }
    forall y | y in sorted && y.key.uk == sorted[k].key.uk
      ensures !VersionLess(y.key, sorted[k].key)
    {
      var j :| 0 <= j < |sorted| && sorted[j] == y;
      LessIrreflexive(y.key.uk);
      if j == k { VersionIrreflexive(y.key); } else { assert !KeyOrder(sorted[j], sorted[k]); }
    }
  }

  lemma VersionIrreflexive(k: InternalKey)
    ensures !VersionLess(k, k)
  {
    LessIrreflexive(k.uk);
  }

  /** A later entry of a key adds nothing. */
  lemma RepeatListed(sorted: seq<Rec>, k: nat, out: seq<Rec>)
    requires Ordered(sorted, KeyOrder) && 0 < k < |sorted| && Tops(sorted, k, out)
    requires sorted[k - 1].key.uk == sorted[k].key.uk
    ensures Tops(sorted, k + 1, out)
  {
    hide Less;
    assert sorted[..k + 1] == sorted[..k] + [sorted[k]];
    if Top(sorted, sorted[k]) && sorted[k].key.op == Put {
      assert !KeyOrder(sorted[k], sorted[k - 1]);
      assert !VersionLess(sorted[k - 1].key, sorted[k].key);
      assert sorted[k - 1].key == sorted[k].key;
    }
  }

  lemma TopTaken(sorted: seq<Rec>, k: nat, out: seq<Rec>)
    requires k < |sorted| && Tops(sorted, k, out) && Top(sorted, sorted[k])
    requires forall i :: 0 <= i < k ==> Less(sorted[i].key.uk, sorted[k].key.uk)
    ensures Tops(sorted, k + 1, if sorted[k].key.op == Put then out + [sorted[k]] else out)
  {
    hide Less, Top;
    assert sorted[..k + 1] == sorted[..k] + [sorted[k]];
    var all := if sorted[k].key.op == Put then out + [sorted[k]] else out;
    forall i | 0 <= i < k + 1 && Top(sorted, sorted[i]) && sorted[i].key.op == Put
      ensures Listed(all, sorted[i].key.uk)
    {
      if i < k {
        var j :| 0 <= j < |out| && out[j].key.uk == sorted[i].key.uk;
        assert all[j].key.uk == sorted[i].key.uk;
      } else {
        assert all[|out|].key.uk == sorted[i].key.uk;
      }
    }
  }

  /** Sorts the harvest and keeps each key's topmost entry, unless it is a
      tombstone. */
  method MergeHarvest(harvest: seq<Rec>) returns (out: seq<Rec>)
    ensures StrictlyAscending(out)
    ensures forall x :: x in out ==> x.key.op == Put && Top(harvest, x)
    ensures forall x :: Top(harvest, x) && x.key.op == Put ==> Listed(out, x.key.uk)
  {
    hide StableSort, Ordered, Top, StrictWeak, VersionLess, Less;
    KeyOrderIsWeak();
    SortIs(harvest, KeyOrder);
    SortMembers(harvest, KeyOrder);
    var sorted := StableSort(harvest, KeyOrder);
    out := [];
    var last: Option<bytes> := None;
    for k := 0 to |sorted|
      invariant Tops(sorted, k, out)
      invariant last == if k == 0 then None else Some(sorted[k - 1].key.uk)
    {
      var uk := sorted[k].key.uk;
      if last == Some(uk) {
        RepeatListed(sorted, k, out);
        continue;
      }
      last := Some(uk);
      FirstIsTop(sorted, k);
      TopTaken(sorted, k, out);
      if sorted[k].key.op == Delete { continue; }
      out := out + [sorted[k]];
    }
    forall x
      ensures Top(sorted, x) <==> Top(harvest, x)
    {
      SameTop(sorted, harvest, x);
    }
    forall x | Top(harvest, x) && x.key.op == Put
      ensures Listed(out, x.key.uk)
    {
      TopAt(sorted, x);
    }
  }

  lemma SameTop(a: seq<Rec>, b: seq<Rec>, x: Rec)
    requires forall y :: y in a <==> y in b
    ensures Top(a, x) <==> Top(b, x)
  {
  }

  lemma TopAt(sorted: seq<Rec>, x: Rec)
    requires Top(sorted, x)
    ensures exists i :: 0 <= i < |sorted| && sorted[i] == x
  {
  }
}
