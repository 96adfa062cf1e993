/** The catalog's commit protocol (`iceberg/catalog.rs`).

    A commit merges each new deletion vector with the one the file already
    has, writes the union to a Puffin file named after the new snapshot, and
    applies the transaction to the manifest. Paths of Puffin files are never
    reused, so versions held by readers keep decoding to what they were.
 */
module Catalog {
  import opened Wrappers
  import opened ByteStrings
  import opened Table
  import opened DeletionVector
  import opened Manifest
  import opened Versions

  type Puffins = map<PuffinPath, bytes>

  /** Data files whose Puffin file cannot be written, with what a failed write
      leaves in its place. */
  type Faults = map<DataPath, Option<bytes>>

  datatype Store = Store(manifest: Manifest, nextVer: nat, puffins: Puffins)

  // ── Loading a deletion vector ─────────────────────────────────────────────

  function LoadBlob(codec: Codec, puffins: Puffins, path: PuffinPath, offset: int, length: int): Result<Bitmap> {
    if path !in puffins then Err(Io)
    else if offset < 0 || length < 0 then Err(Corruption)
    else if offset + length > |puffins[path]| then Err(Corruption)
    else DecodeBlob(codec, puffins[path][offset..offset + length])
  }

  /** What readers load; a file without coordinates has nothing masked. */
  function LoadDv(codec: Codec, puffins: Puffins, dv: DvCoords): Result<Bitmap> {
    match dv
    case DvCoords(Some(path), Some(offset), Some(length)) => LoadBlob(codec, puffins, path, offset, length)
    case DvCoords(None, None, None) => Ok({})
    case _ => Err(Corruption)
  }

  /** When a bitmap is loaded, and which: there are no coordinates and it is empty,
      or they are complete, lie inside the file, and the bytes there decode. */
  lemma LoadDvIs(codec: Codec, puffins: Puffins, dv: DvCoords, bitmap: Bitmap)
    ensures LoadDv(codec, puffins, dv) == Ok(bitmap) <==>
            (dv == NO_DV && bitmap == {}) ||
            (AllCoords(dv) && Inside(puffins, dv.path.value, dv.offset.value, dv.length.value) &&
             DecodeBlob(codec, puffins[dv.path.value][dv.offset.value..dv.offset.value + dv.length.value]) ==
               Ok(bitmap))
    ensures LoadDv(codec, puffins, dv) == Err(Io) <==> AllCoords(dv) && dv.path.value !in puffins
    ensures LoadDv(codec, puffins, dv).Err? && !(AllCoords(dv) && dv.path.value !in puffins) ==>
              LoadDv(codec, puffins, dv) == Err(Corruption)
  {
    hide DecodeBlob;
    if AllCoords(dv) && Inside(puffins, dv.path.value, dv.offset.value, dv.length.value) {
      AcceptedIff(codec, puffins[dv.path.value][dv.offset.value..dv.offset.value + dv.length.value], bitmap);
    }
  }

  /** All three coordinates are there. */
  predicate AllCoords(dv: DvCoords) {
    dv.path.Some? && dv.offset.Some? && dv.length.Some?
  }

  predicate Inside(puffins: Puffins, path: PuffinPath, offset: int, length: int) {
    path in puffins && 0 <= offset && 0 <= length && offset + length <= |puffins[path]|
  }

  function FindLive(es: seq<Entry>, path: DataPath): Option<Entry> {
    if es == [] then None
    else if es[0].status != Deleted && es[0].path == path then Some(es[0])
    else FindLive(es[1..], path)
  }

  /** What a commit merges with; incomplete coordinates count as none. */
  function ExistingDv(codec: Codec, puffins: Puffins, e: Option<Entry>): Result<Bitmap> {
    match e
    case Some(Entry(_, _, DvCoords(Some(path), Some(offset), Some(length)), _, _)) =>
      LoadBlob(codec, puffins, path, offset, length)
    case _ => Ok({})
  }

  function Merged(codec: Codec, s: Store, txn: Txn, path: DataPath): Result<Bitmap>
    requires path in txn.dvs
  {
    match ExistingDv(codec, s.puffins, FindLive(s.manifest.entries, path))
    case Err(e) => Err(e)
    case Ok(dv) => Ok(dv + txn.dvs[path])
  }

  /** The union of what the live entry's complete coordinates lead to and what the
      transaction marks; without such an entry, the marks alone. */
  lemma MergedAs(codec: Codec, s: Store, txn: Txn, path: DataPath)
    requires path in txn.dvs
    ensures match FindLive(s.manifest.entries, path)
            case None => Merged(codec, s, txn, path) == Ok(txn.dvs[path])
            case Some(e) =>
              if !AllCoords(e.dv) then Merged(codec, s, txn, path) == Ok(txn.dvs[path])
              else match LoadDv(codec, s.puffins, e.dv)
                   case Err(error) => Merged(codec, s, txn, path) == Err(error)
                   case Ok(dv) => Merged(codec, s, txn, path) == Ok(dv + txn.dvs[path])
  {
    hide DecodeBlob, FindLive;
    assert {} + txn.dvs[path] == txn.dvs[path];
  }

  // ── Commit ────────────────────────────────────────────────────────────────

  /** Why a deletion vector cannot be written. */
  predicate DvError(codec: Codec, s: Store, txn: Txn, path: DataPath, faults: Faults, error: Error)
    requires path in txn.dvs
  {
    match Merged(codec, s, txn, path)
    case Err(e) => error == e
    case Ok(dv) =>
      if !Encodable(codec, path, s.nextVer, dv) then error == Iceberg
      else path in faults && error == Io
  }

  /** Of the Puffin files, only those of the unborn snapshot for data files that
      are marked may differ. */
  ghost predicate OnlyUnborn(before: Puffins, after: Puffins, txn: Txn, id: nat) {
    forall p: PuffinPath :: !(p.snapshot == id && p.of in txn.dvs) ==>
      (p in after <==> p in before) && (p in before ==> after[p] == before[p])
  }

  predicate DvWritable(codec: Codec, s: Store, txn: Txn, path: DataPath)
    requires path in txn.dvs
  {
    Merged(codec, s, txn, path).Ok? && Encodable(codec, path, s.nextVer, Merged(codec, s, txn, path).value)
  }

  /** When a commit succeeds, if the disk does not fail. */
  predicate CommitOk(codec: Codec, s: Store, txn: Txn) {
    (forall p :: p in txn.dvs ==> DvWritable(codec, s, txn, p)) && !Conflict(txn)
  }

  function Location(codec: Codec, s: Store, txn: Txn, path: DataPath): DvLocation
    requires path in txn.dvs && DvWritable(codec, s, txn, path)
  {
    DvLocation(PuffinPath(path, s.nextVer), 4, |Blob(codec, Merged(codec, s, txn, path).value)|)
  }

  function Locations(codec: Codec, s: Store, txn: Txn): (locs: map<DataPath, DvLocation>)
    requires CommitOk(codec, s, txn)
    ensures locs.Keys == txn.dvs.Keys
  {
    map p | p in txn.dvs :: Location(codec, s, txn, p)
  }

  function DvFile(codec: Codec, s: Store, txn: Txn, path: DataPath): bytes
    requires path in txn.dvs && DvWritable(codec, s, txn, path)
  {
    PuffinFile(codec, path, s.nextVer, Merged(codec, s, txn, path).value)
  }

  /** The Puffin files once those for the data files in `done` are written. */
  function Written(codec: Codec, s: Store, txn: Txn, done: set<DataPath>): (r: Puffins)
    requires forall p :: p in done ==> p in txn.dvs && DvWritable(codec, s, txn, p)
  {
    map q | q in s.puffins.Keys + (set p | p in done :: PuffinPath(p, s.nextVer)) ::
      if q.snapshot == s.nextVer && q.of in done then DvFile(codec, s, txn, q.of) else s.puffins[q]
  }

  function After(codec: Codec, s: Store, txn: Txn): Store
    requires CommitOk(codec, s, txn)
  {
    Store(Next(s.manifest, txn, s.nextVer, Locations(codec, s, txn)), s.nextVer + 1,
          Written(codec, s, txn, txn.dvs.Keys))
  }

  /** Puffin files of snapshots before `bound` are as they were. */
  predicate KeepsOlder(before: Puffins, after: Puffins, bound: nat) {
    forall p :: p in before && p.snapshot < bound ==> p in after && after[p] == before[p]
  }

  /** After a failed commit only files of the unborn snapshot may differ. */
  predicate Failed(s: Store, after: Store) {
    after.manifest == s.manifest && after.nextVer == s.nextVer && KeepsOlder(s.puffins, after.puffins, s.nextVer)
  }

  predicate RefOlder(dv: DvCoords, bound: nat) {
    dv.path.Some? ==> dv.path.value.snapshot < bound
  }

  ghost predicate RefsOlder(s: Store) {
    forall e :: LiveEntry(s.manifest.entries, e) ==> RefOlder(e.dv, s.nextVer)
  }

  /** `IcebergCatalog`. */
  class IcebergCatalog {
    var current: Manifest
    var nextVersion: nat
    var puffins: Puffins

    constructor (s: Store)
      ensures Value() == s
    {
      current, nextVersion, puffins := s.manifest, s.nextVer, s.puffins;
    }

    function Value(): Store
      reads this
    {
      Store(current, nextVersion, puffins)
    }

    /** The part of a commit for one deletion vector. If writing or syncing its
        file fails, whatever is left of it stays. */
    method WriteDv(codec: Codec, txn: Txn, path: DataPath, faults: Faults) returns (r: Result<DvLocation>)
      requires path in txn.dvs
      modifies this`puffins
      ensures r.Ok? <==> DvWritable(codec, old(Value()), txn, path) && path !in faults
      ensures r.Ok? ==> r.value == Location(codec, old(Value()), txn, path)
      ensures r.Ok? ==> puffins == old(puffins)[PuffinPath(path, nextVersion) := DvFile(codec, old(Value()), txn, path)]
      ensures r.Err? ==> DvError(codec, old(Value()), txn, path, faults, r.error)
      ensures OnlyUnborn(old(puffins), puffins, txn, nextVersion)
    {
      hide Blob, PuffinFile, Encodable, LoadBlob, FindLive;
      var existing := ExistingDv(codec, puffins, FindLive(current.entries, path));
      if existing.Err? { return Err(existing.error); }
      var merged := existing.value + txn.dvs[path];
      var encoded := EncodePuffin(codec, path, nextVersion, merged);
      if encoded.Err? { return Err(encoded.error); }
      var at := PuffinPath(path, nextVersion);
      if path in faults {
        if faults[path].Some? { puffins := puffins[at := faults[path].value]; }
        return Err(Io);
      }
      puffins := puffins[at := encoded.value.file];
      r := Ok(DvLocation(at, encoded.value.blobOffset, encoded.value.blobLength));
    }

    method WriteDvs(codec: Codec, txn: Txn, faults: Faults) returns (r: Result<map<DataPath, DvLocation>>)
      requires RefsOlder(Value())
      modifies this`puffins
      ensures r.Ok? <==>
              (forall p :: p in txn.dvs ==> DvWritable(codec, old(Value()), txn, p)) && txn.dvs.Keys !! faults.Keys
      ensures r.Ok? ==> r.value.Keys == txn.dvs.Keys && puffins == Written(codec, old(Value()), txn, txn.dvs.Keys)
      ensures r.Ok? ==> forall p :: p in txn.dvs ==> r.value[p] == Location(codec, old(Value()), txn, p)
      ensures r.Err? ==> exists p :: p in txn.dvs && DvError(codec, old(Value()), txn, p, faults, r.error)
      ensures OnlyUnborn(old(puffins), puffins, txn, nextVersion)
    {
      hide DvWritable, DvError, Location, DvFile, RefsOlder, Written, OnlyUnborn;
      ghost var s := Value();
      var locs: map<DataPath, DvLocation> := map[];
      var todo := txn.dvs.Keys;
      ghost var done: set<DataPath> := {};
      WrittenNone(codec, s, txn);
      while todo != {}
        invariant done == locs.Keys && todo + done == txn.dvs.Keys && done !! faults.Keys
        invariant forall p :: p in locs ==> DvWritable(codec, s, txn, p) && locs[p] == Location(codec, s, txn, p)
        invariant puffins == Written(codec, s, txn, done)
        decreases todo
      {
        var path :| path in todo;
        ghost var before := puffins;
        WrittenOnlyUnborn(codec, s, txn, done);
        SameMerge(codec, s, Value(), txn, path, faults);
        var loc := WriteDv(codec, txn, path, faults);
        if loc.Err? {
          OnlyUnbornTransitive(s.puffins, before, puffins, txn, nextVersion);
          return Err(loc.error);
        }
        WrittenStep(codec, s, txn, done, path);
        todo := todo - {path};
        done := done + {path};
        locs := locs[path := loc.value];
      }
      WrittenOnlyUnborn(codec, s, txn, done);
      r := Ok(locs);
    }

    /** `faults` says which Puffin files cannot be written, `metadataOk` whether
        writing the metadata and the version hint succeeds. */
    method Commit(codec: Codec, txn: Txn, faults: Faults, metadataOk: bool) returns (r: Result<Version>)
      requires RefsOlder(Value())
      modifies this
      ensures r.Ok? <==> CommitOk(codec, old(Value()), txn) && txn.dvs.Keys !! faults.Keys && metadataOk
      ensures r.Ok? ==> Value() == After(codec, old(Value()), txn) && r.value == VersionOf(current)
      ensures r.Ok? ==> r.value.snapshotId == old(nextVersion) == nextVersion - 1
      ensures r.Err? ==> Failed(old(Value()), Value()) && OnlyUnborn(old(puffins), puffins, txn, nextVersion)
      ensures r.Err? && (forall p :: p in txn.dvs ==> DvWritable(codec, old(Value()), txn, p)) &&
              txn.dvs.Keys !! faults.Keys ==>
                r.error == (if Conflict(txn) then Iceberg else Io) &&
                forall p :: p in puffins ==> !(p.snapshot == nextVersion && p.of in txn.dvs)
      ensures r.Err? && !((forall p :: p in txn.dvs ==> DvWritable(codec, old(Value()), txn, p)) &&
                          txn.dvs.Keys !! faults.Keys) ==>
                exists p :: p in txn.dvs && DvError(codec, old(Value()), txn, p, faults, r.error)
    {
      hide Next, DvWritable, DvError, Location, VersionOf, RefsOlder, Written;
      ghost var s := Value();
      var id := nextVersion;
      var locs := WriteDvs(codec, txn, faults);
      if locs.Err? { return Err(locs.error); }
      var next := Apply(current, txn, id, locs.value);
      if next.Err? || !metadataOk {
        puffins := map p | p in puffins && !(p.snapshot == id && p.of in txn.dvs) :: puffins[p];
        return Err(if next.Err? then next.error else Io);
      }
      assert locs.value == Locations(codec, s, txn);
      current := next.value;
      nextVersion := id + 1;
      var version := ToVersion(current);
      NextIds(s.manifest, txn, id, locs.value);
      r := Ok(version);
    }
  }

  lemma OnlyUnbornTransitive(a: Puffins, b: Puffins, c: Puffins, txn: Txn, id: nat)
    requires OnlyUnborn(a, b, txn, id) && OnlyUnborn(b, c, txn, id)
    ensures OnlyUnborn(a, c, txn, id)
  {
  }

  lemma WrittenOnlyUnborn(codec: Codec, s: Store, txn: Txn, done: set<DataPath>)
    requires forall p :: p in done ==> p in txn.dvs && DvWritable(codec, s, txn, p)
    ensures OnlyUnborn(s.puffins, Written(codec, s, txn, done), txn, s.nextVer)
  {
    hide DvFile, DvWritable;
  }

  lemma WrittenNone(codec: Codec, s: Store, txn: Txn)
    ensures Written(codec, s, txn, {}) == s.puffins
  {
  }

  lemma WrittenKeepsOlder(codec: Codec, s: Store, txn: Txn, done: set<DataPath>)
    requires forall p :: p in done ==> p in txn.dvs && DvWritable(codec, s, txn, p)
    ensures SameOlder(s.puffins, Written(codec, s, txn, done), s.nextVer)
  {
    hide DvFile, DvWritable;
  }

  lemma WrittenStep(codec: Codec, s: Store, txn: Txn, done: set<DataPath>, path: DataPath)
    requires forall p :: p in done ==> p in txn.dvs && DvWritable(codec, s, txn, p)
    requires path in txn.dvs && DvWritable(codec, s, txn, path)
    ensures Written(codec, s, txn, done + {path}) ==
            Written(codec, s, txn, done)[PuffinPath(path, s.nextVer) := DvFile(codec, s, txn, path)]
  {
    hide DvFile, DvWritable;
  }

  ghost predicate SameOlder(before: Puffins, after: Puffins, bound: nat) {
    forall p: PuffinPath :: p.snapshot < bound ==>
      (p in after <==> p in before) && (p in before ==> after[p] == before[p])
  }

  /** Files written by this commit play no part in the merge. */
  lemma SameMerge(codec: Codec, s: Store, t: Store, txn: Txn, path: DataPath, faults: Faults)
    requires RefsOlder(s) && path in txn.dvs
    requires t.manifest == s.manifest && t.nextVer == s.nextVer && OnlyUnborn(s.puffins, t.puffins, txn, s.nextVer)
    ensures DvWritable(codec, t, txn, path) == DvWritable(codec, s, txn, path)
    ensures forall error :: DvError(codec, t, txn, path, faults, error) == DvError(codec, s, txn, path, faults, error)
    ensures DvWritable(codec, s, txn, path) ==>
              Location(codec, t, txn, path) == Location(codec, s, txn, path) &&
              DvFile(codec, t, txn, path) == DvFile(codec, s, txn, path)
  {
    hide Blob, PuffinFile, Encodable, DecodeBlob, FindLive;
    FoundIsLive(s.manifest.entries, path);
    var e := FindLive(s.manifest.entries, path);
    assert e.Some? ==> RefOlder(e.value.dv, s.nextVer);
    assert ExistingDv(codec, t.puffins, e) == ExistingDv(codec, s.puffins, e);
  }

  lemma {:induction false} FoundIsLive(es: seq<Entry>, path: DataPath)
    ensures FindLive(es, path).Some? ==>
            LiveEntry(es, FindLive(es, path).value) && FindLive(es, path).value.path == path
    ensures FindLive(es, path).None? ==> forall e :: LiveEntry(es, e) ==> e.path != path
  {
    if es != [] {
      FoundIsLive(es[1..], path);
      assert es == [es[0]] + es[1..];
    }
  }

  // ── What a commit does to the deletion vectors ────────────────────────────

  ghost predicate DvOk(codec: Codec, s: Store, e: Entry) {
    RefOlder(e.dv, s.nextVer) && LoadDv(codec, s.puffins, e.dv).Ok?
  }

  /** Live files have different names and readable deletion vectors. */
  ghost predicate CatalogOk(codec: Codec, s: Store) {
    UniquePaths(s.manifest.entries) &&
    forall e :: LiveEntry(s.manifest.entries, e) ==> DvOk(codec, s, e)
  }

  /** The rows of a file that are masked. */
  function Mask(codec: Codec, puffins: Puffins, dv: DvCoords): Bitmap {
    match LoadDv(codec, puffins, dv)
    case Ok(bitmap) => bitmap
    case Err(_) => {}
  }

  lemma OldCoordsKept(codec: Codec, before: Puffins, after: Puffins, dv: DvCoords, bound: nat)
    requires KeepsOlder(before, after, bound) && RefOlder(dv, bound) && LoadDv(codec, before, dv).Ok?
    ensures LoadDv(codec, after, dv) == LoadDv(codec, before, dv)
  {
    hide DecodeBlob;
  }

  lemma {:induction false} FindsEntry(es: seq<Entry>, e: Entry)
    requires UniquePaths(es) && LiveEntry(es, e)
    ensures FindLive(es, e.path) == Some(e)
  {
    if e != es[0] {
      var k :| 0 <= k < |es| && es[k] == e;
      assert es[1..][k - 1] == e;
      assert forall i, j :: 0 <= i < j < |es[1..]| ==> es[1..][i] == es[i + 1] && es[1..][j] == es[j + 1];
      FindsEntry(es[1..], e);
    }
  }

  /** The merge starts from what readers see. */
  lemma MergedIs(codec: Codec, s: Store, txn: Txn, e: Entry)
    requires CatalogOk(codec, s) && LiveEntry(s.manifest.entries, e) && e.path in txn.dvs
    ensures Merged(codec, s, txn, e.path) == Ok(Mask(codec, s.puffins, e.dv) + txn.dvs[e.path])
  {
    hide LoadBlob, FindLive;
    FindsEntry(s.manifest.entries, e);
    assert DvOk(codec, s, e);
  }

  lemma NewCoords(codec: Codec, s: Store, txn: Txn, path: DataPath)
    requires Faithful(codec) && CommitOk(codec, s, txn) && path in txn.dvs
    ensures var loc := Location(codec, s, txn, path);
            LoadDv(codec, After(codec, s, txn).puffins, DvCoords(Some(loc.path), Some(loc.offset), Some(loc.length))) ==
            Merged(codec, s, txn, path)
  {
    hide Blob, PuffinFile, DecodeBlob, Merged, Next;
    var dv := Merged(codec, s, txn, path).value;
    BlobRoundTrip(codec, path, s.nextVer, dv);
    var loc := Location(codec, s, txn, path);
    assert loc.path in After(codec, s, txn).puffins &&
           After(codec, s, txn).puffins[loc.path] == PuffinFile(codec, path, s.nextVer, dv);
  }

  /** A carried file's mask grows by exactly what the transaction marks. */
  lemma CarriedMask(codec: Codec, s: Store, txn: Txn, o: Entry, e: Entry)
    requires Faithful(codec) && CatalogOk(codec, s) && CommitOk(codec, s, txn)
    requires LiveEntry(s.manifest.entries, o) && CarriedTo(o, txn, Locations(codec, s, txn), e)
    ensures RefOlder(e.dv, s.nextVer + 1) && e.path == o.path && e.meta == o.meta && e.status == o.status
    ensures LoadDv(codec, After(codec, s, txn).puffins, e.dv) == Ok(Mask(codec, s.puffins, o.dv) + DvFor(txn, o.path))
  {
    hide Next, Merged, LoadBlob, UniquePaths, Location, Written;
    assert DvOk(codec, s, o);
    if o.path in txn.dvs {
      MergedIs(codec, s, txn, o);
      NewCoords(codec, s, txn, o.path);
      LocationPath(codec, s, txn, o.path);
    } else {
      WrittenKeepsOlder(codec, s, txn, txn.dvs.Keys);
      OldCoordsKept(codec, s.puffins, After(codec, s, txn).puffins, o.dv, s.nextVer);
      assert Mask(codec, s.puffins, o.dv) + {} == Mask(codec, s.puffins, o.dv);
    }
  }

  lemma LocationPath(codec: Codec, s: Store, txn: Txn, path: DataPath)
    requires path in txn.dvs && DvWritable(codec, s, txn, path)
    ensures Location(codec, s, txn, path).path == PuffinPath(path, s.nextVer)
  {
  }

  /** A commit keeps the catalog readable. */
  lemma CommitKeepsOk(codec: Codec, s: Store, txn: Txn)
    requires Faithful(codec) && CatalogOk(codec, s) && CommitOk(codec, s, txn) && FreshAdds(s.manifest, txn)
    ensures CatalogOk(codec, After(codec, s, txn))
  {
    hide Next, UniquePaths, FreshAdds, Locations, LoadDv, Written, CommitOk;
    var after, locs := After(codec, s, txn), Locations(codec, s, txn);
    NextUnique(s.manifest, txn, s.nextVer, locs);
    forall e | LiveEntry(after.manifest.entries, e)
      ensures DvOk(codec, after, e)
    {
      NextEntry(s.manifest, txn, s.nextVer, locs, e);
      if WasCarried(s.manifest.entries, txn, locs, e) {
        var o :| o in s.manifest.entries && CarriedTo(o, txn, locs, e);
        CarriedMask(codec, s, txn, o, e);
      } else {
        NoCoords(codec, after.puffins);
      }
    }
  }

  lemma NoCoords(codec: Codec, puffins: Puffins)
    ensures LoadDv(codec, puffins, NO_DV) == Ok({})
  {
  }

  /** A failed commit changes nothing a reader can see. */
  lemma FailedKeepsOk(codec: Codec, s: Store, after: Store)
    requires CatalogOk(codec, s) && Failed(s, after)
    ensures CatalogOk(codec, after)
    ensures forall e :: LiveEntry(s.manifest.entries, e) ==>
            Mask(codec, after.puffins, e.dv) == Mask(codec, s.puffins, e.dv)
  {
    hide UniquePaths, LoadDv;
    forall e | LiveEntry(s.manifest.entries, e)
      ensures LoadDv(codec, after.puffins, e.dv) == LoadDv(codec, s.puffins, e.dv) && DvOk(codec, after, e)
    {
      assert DvOk(codec, s, e);
      OldCoordsKept(codec, s.puffins, after.puffins, e.dv, s.nextVer);
    }
  }

  // ── Whole histories ───────────────────────────────────────────────────────

  datatype Event = Commit(txn: Txn) | Failure

  ghost predicate StepOk(codec: Codec, s: Store, ev: Event, after: Store) {
    match ev
    case Commit(txn) => CommitOk(codec, s, txn) && FreshAdds(s.manifest, txn) && after == After(codec, s, txn)
    case Failure => Failed(s, after)
  }

  ghost predicate IsRun(codec: Codec, ss: seq<Store>, evs: seq<Event>) {
    |ss| == |evs| + 1 && CatalogOk(codec, ss[0]) &&
    forall i :: 0 <= i < |evs| ==> StepOk(codec, ss[i], evs[i], ss[i + 1])
  }

  lemma {:induction false} RunOk(codec: Codec, ss: seq<Store>, evs: seq<Event>, i: nat)
    requires Faithful(codec) && IsRun(codec, ss, evs) && i < |ss|
    ensures CatalogOk(codec, ss[i])
  {
    hide CatalogOk, CommitOk, After, FreshAdds, Failed;
    if i > 0 {
      RunOk(codec, ss, evs, i - 1);
      assert StepOk(codec, ss[i - 1], evs[i - 1], ss[i]);
      match evs[i - 1]
      case Commit(txn) => CommitKeepsOk(codec, ss[i - 1], txn);
      case Failure => FailedKeepsOk(codec, ss[i - 1], ss[i]);
    }
  }

  lemma StepKeepsOlder(codec: Codec, s: Store, ev: Event, after: Store)
    requires StepOk(codec, s, ev, after)
    ensures KeepsOlder(s.puffins, after.puffins, s.nextVer) && s.nextVer <= after.nextVer
  {
    hide FreshAdds, Locations, Next, DvWritable;
    match ev
    case Commit(txn) => WrittenKeepsOlder(codec, s, txn, txn.dvs.Keys);
    case Failure =>
  }

  lemma {:induction false} RunKeepsOlder(codec: Codec, ss: seq<Store>, evs: seq<Event>, i: nat, j: nat)
    requires IsRun(codec, ss, evs) && i <= j < |ss|
    ensures KeepsOlder(ss[i].puffins, ss[j].puffins, ss[i].nextVer) && ss[i].nextVer <= ss[j].nextVer
    decreases j
  {
    hide CatalogOk, StepOk;
    if i < j {
      RunKeepsOlder(codec, ss, evs, i, j - 1);
      StepKeepsOlder(codec, ss[j - 1], evs[j - 1], ss[j]);
    }
  }

  /** The coordinates held by any older snapshot still decode to the bitmap
      they decoded to then. */
  lemma OldSnapshotsDecode(codec: Codec, ss: seq<Store>, evs: seq<Event>, i: nat, j: nat, e: Entry)
    requires Faithful(codec) && IsRun(codec, ss, evs) && i <= j < |ss| && LiveEntry(ss[i].manifest.entries, e)
    ensures LoadDv(codec, ss[j].puffins, e.dv) == LoadDv(codec, ss[i].puffins, e.dv)
    ensures LoadDv(codec, ss[i].puffins, e.dv).Ok?
  {
    hide LoadDv, StepOk;
    RunOk(codec, ss, evs, i);
    RunKeepsOlder(codec, ss, evs, i, j);
    assert DvOk(codec, ss[i], e);
    OldCoordsKept(codec, ss[i].puffins, ss[j].puffins, e.dv, ss[i].nextVer);
  }

  /** All positions committed for a file by the events from `i` up to `j`. */
  function Committed(evs: seq<Event>, i: nat, j: nat, path: DataPath): Bitmap
    requires i <= j <= |evs|
    decreases j
  {
    if i == j then {}
    else
      Committed(evs, i, j - 1, path) +
      match evs[j - 1] { case Commit(txn) => DvFor(txn, path) case Failure => {} }
  }

  ghost predicate LiveAt(s: Store, path: DataPath) {
    exists e :: LiveEntry(s.manifest.entries, e) && e.path == path
  }

  /** One step: a file that is live before and after. */
  lemma StepMask(codec: Codec, s: Store, ev: Event, after: Store, o: Entry, e: Entry)
    requires Faithful(codec) && CatalogOk(codec, s) && StepOk(codec, s, ev, after)
    requires LiveEntry(s.manifest.entries, o) && LiveEntry(after.manifest.entries, e) && o.path == e.path
    ensures Mask(codec, after.puffins, e.dv) ==
            Mask(codec, s.puffins, o.dv) + match ev { case Commit(txn) => DvFor(txn, o.path) case Failure => {} }
  {
    hide Next, LoadDv, Locations, Written, CommitOk, KeepsOlder;
    match ev
    case Failure =>
      FailedKeepsOk(codec, s, after);
      FindsEntry(s.manifest.entries, o);
      FindsEntry(s.manifest.entries, e);
    case Commit(txn) =>
      var locs := Locations(codec, s, txn);
      NextEntry(s.manifest, txn, s.nextVer, locs, e);
      assert !WasAdded(txn.adds, e);
      var o' :| o' in s.manifest.entries && CarriedTo(o', txn, locs, e);
      FindsEntry(s.manifest.entries, o);
      FindsEntry(s.manifest.entries, o');
      CarriedMask(codec, s, txn, o, e);
  }

  /** A file's mask is what it was plus everything committed for it since. */
  lemma {:induction false} MaskAccumulates(codec: Codec, ss: seq<Store>, evs: seq<Event>, i: nat, j: nat, o: Entry,
                                           e: Entry)
    requires Faithful(codec) && IsRun(codec, ss, evs) && i <= j < |ss|
    requires LiveEntry(ss[i].manifest.entries, o) && LiveEntry(ss[j].manifest.entries, e) && o.path == e.path
    requires forall k :: i <= k <= j ==> LiveAt(ss[k], o.path)
    ensures Mask(codec, ss[j].puffins, e.dv) == Mask(codec, ss[i].puffins, o.dv) + Committed(evs, i, j, o.path)
    decreases j
  {
    hide StepOk, Mask, UniquePaths, DvOk, DvFor;
    RunOk(codec, ss, evs, j);
    if i == j {
      assert CatalogOk(codec, ss[j]);
      FindsEntry(ss[j].manifest.entries, o);
      FindsEntry(ss[j].manifest.entries, e);
    } else {
      RunOk(codec, ss, evs, j - 1);
      assert LiveAt(ss[j - 1], o.path);
      var p :| LiveEntry(ss[j - 1].manifest.entries, p) && p.path == o.path;
      MaskAccumulates(codec, ss, evs, i, j - 1, o, p);
      StepMask(codec, ss[j - 1], evs[j - 1], ss[j], p, e);
    }
  }

  /** Of a file added by commit `i` and live since, exactly the rows named by
      later commits are masked. */
  lemma MaskIsUnionSinceAdded(codec: Codec, ss: seq<Store>, evs: seq<Event>, i: nat, j: nat, a: NewFile, e: Entry)
    requires Faithful(codec) && IsRun(codec, ss, evs) && i < j < |ss|
    requires evs[i].Commit? && a in evs[i].txn.adds
    requires LiveEntry(ss[j].manifest.entries, e) && e.path == a.path
    requires forall k :: i < k <= j ==> LiveAt(ss[k], a.path)
    ensures Mask(codec, ss[j].puffins, e.dv) == Committed(evs, i + 1, j, a.path)
  {
    hide Next, Committed, Locations, Written, CommitOk, LoadDv;
    assert StepOk(codec, ss[i], evs[i], ss[i + 1]);
    var o := NextAdds(ss[i].manifest, evs[i].txn, ss[i].nextVer, Locations(codec, ss[i], evs[i].txn), a);
    NoCoords(codec, ss[i + 1].puffins);
    MaskAccumulates(codec, ss, evs, i + 1, j, o, e);
  }

  // ── The chain of snapshots ────────────────────────────────────────────────

  /** How many of the events from `i` up to `j` are commits. */
  function Commits(evs: seq<Event>, i: nat, j: nat): nat
    requires i <= j <= |evs|
    decreases j
  {
    if i == j then 0 else Commits(evs, i, j - 1) + if evs[j - 1].Commit? then 1 else 0
  }

  /** What opening a catalog gives: the empty table before snapshot 1, or a
      snapshot that was committed before. */
  predicate OpenedAt(s: Store) {
    s.manifest.snapshotId < s.nextVer
  }

  /** One commit: its snapshot gets the next id and points at its predecessor. */
  lemma StepChains(codec: Codec, s: Store, ev: Event, after: Store)
    requires StepOk(codec, s, ev, after) && OpenedAt(s)
    ensures OpenedAt(after)
    ensures match ev
            case Failure => after.manifest == s.manifest && after.nextVer == s.nextVer
            case Commit(_) =>
              after.manifest.snapshotId == s.nextVer && after.nextVer == s.nextVer + 1 &&
              after.manifest.sequenceNumber == s.manifest.sequenceNumber + 1 &&
              (after.manifest.parent == None <==> s.manifest.snapshotId == 0) &&
              (after.manifest.parent.Some? ==> after.manifest.parent.value == s.manifest.snapshotId)
  {
    hide CommitOk, FreshAdds, Locations, Written, Next, KeepsOlder;
    if ev.Commit? { NextIds(s.manifest, ev.txn, s.nextVer, Locations(codec, s, ev.txn)); }
  }

  /** Over every history: ids and sequence numbers count the commits, failed ones
      excepted. */
  lemma {:induction false} SnapshotsCount(codec: Codec, ss: seq<Store>, evs: seq<Event>, i: nat, j: nat)
    requires IsRun(codec, ss, evs) && OpenedAt(ss[0]) && i <= j < |ss|
    ensures OpenedAt(ss[j]) && ss[j].nextVer == ss[i].nextVer + Commits(evs, i, j)
    ensures ss[j].manifest.sequenceNumber == ss[i].manifest.sequenceNumber + Commits(evs, i, j)
    ensures Commits(evs, i, j) == 0 ==> ss[j].manifest == ss[i].manifest
    ensures Commits(evs, i, j) > 0 ==> ss[j].manifest.snapshotId == ss[i].nextVer + Commits(evs, i, j) - 1
    decreases j, i
  {
    hide StepOk, CatalogOk;
    if i < j {
      SnapshotsCount(codec, ss, evs, i, j - 1);
      StepChains(codec, ss[j - 1], evs[j - 1], ss[j]);
    } else if i > 0 {
      SnapshotsCount(codec, ss, evs, i - 1, i);
    }
  }

  /** Over every history: a commit's snapshot is the one the catalog was to give
      next, ids ascend strictly from commit to commit, and the parent of a
      snapshot is the one committed just before it, or none for the first of a
      new table. */
  lemma SnapshotsChain(codec: Codec, ss: seq<Store>, evs: seq<Event>, i: nat, j: nat)
    requires IsRun(codec, ss, evs) && OpenedAt(ss[0]) && i < j < |evs| && evs[i].Commit? && evs[j].Commit?
    ensures ss[j + 1].manifest.snapshotId == ss[j].nextVer
    ensures ss[i + 1].manifest.snapshotId < ss[j + 1].manifest.snapshotId
    ensures ss[j + 1].manifest.sequenceNumber ==
            ss[i + 1].manifest.sequenceNumber + Commits(evs, i + 1, j + 1) > ss[i + 1].manifest.sequenceNumber
    ensures Commits(evs, i + 1, j) == 0 ==> ss[j + 1].manifest.parent == Some(ss[i + 1].manifest.snapshotId)
  {
    hide StepOk, CatalogOk;
    SnapshotsCount(codec, ss, evs, 0, i);
    SnapshotsCount(codec, ss, evs, i + 1, j);
    StepChains(codec, ss[i], evs[i], ss[i + 1]);
    StepChains(codec, ss[j], evs[j], ss[j + 1]);
  }

  /** The first commit of a history. */
  lemma FirstSnapshot(codec: Codec, ss: seq<Store>, evs: seq<Event>, j: nat)
    requires IsRun(codec, ss, evs) && OpenedAt(ss[0]) && j < |evs| && evs[j].Commit? && Commits(evs, 0, j) == 0
    ensures ss[j + 1].manifest.snapshotId == ss[0].nextVer
    ensures ss[j + 1].manifest.parent ==
            if ss[0].manifest.snapshotId == 0 then None else Some(ss[0].manifest.snapshotId)
  {
    hide StepOk, CatalogOk;
    SnapshotsCount(codec, ss, evs, 0, j);
    StepChains(codec, ss[j], evs[j], ss[j + 1]);
  }

  /** A new table: the current snapshot's id and its sequence number are the number
      of commits so far. */
  lemma NewTableCounts(codec: Codec, ss: seq<Store>, evs: seq<Event>, j: nat)
    requires IsRun(codec, ss, evs) && ss[0] == Store(EMPTY_MANIFEST, 1, map[]) && j < |ss|
    ensures ss[j].manifest.snapshotId == ss[j].manifest.sequenceNumber == Commits(evs, 0, j) == ss[j].nextVer - 1
  {
    hide StepOk, CatalogOk;
    SnapshotsCount(codec, ss, evs, 0, j);
  }
}
