/** A file in which the key stream loses the newest version of a key, and a
    file the resolver never looks into: the two ways a superseded row can stay
    visible after a flush. */
module Straddling {
  import opened Wrappers
  import opened ByteStrings
  import opened Keys
  import opened Table
  import opened Sst
  import opened KeyRange
  import opened DeletionVector
  import opened Manifest
  import opened Versions
  import opened Catalog
  import opened LiveFiles
  import DvResolve
  import KvIndex

  // ── Versions of a key on two pages ────────────────────────────────────────

  const UK: bytes := [7]
  const NEWER: Rec := Stored(InternalKey(UK, 2, Put), Row([]))
  const OLDER: Rec := Stored(InternalKey(UK, 1, Put), Row([]))

  /** One row per page. */
  function PageEntries(): seq<KvIndex.Entry> {
    [KvIndex.Entry(EncodeIkey(NEWER.key), KvIndex.PageLocation(0, 0, 0)),
     KvIndex.Entry(EncodeIkey(OLDER.key), KvIndex.PageLocation(0, 0, 1))]
  }

  lemma EntriesBuildable()
    ensures KvIndex.Buildable(PageEntries())
  {
    hide Tag, Less;
    TagOrder(2, Put, 1, Put);
    LessCommonPrefix(UK, Tag(2, Put), Tag(1, Put));
  }

  lemma EntriesSmall(es: seq<KvIndex.Entry>)
    requires |es| == 2 && |es[0].key| == 9 && |es[1].key| == 9
    ensures KvIndex.Representable(es, 1)
  {
    hide KvIndex.EntryBytes, KvIndex.SharedAt;
    assert |KvIndex.EntriesBytes(es, 1, 1)| <= 33;
    assert |KvIndex.EntriesBytes(es, 1, 2)| <= 66;
  }

  function TwoPages(): File
    requires KvIndex.HeaderOk(KvIndex.Encoded(PageEntries(), 1))
  {
    File([NEWER, OLDER], [2], Some(KvIndex.View(KvIndex.Encoded(PageEntries(), 1))), None, UK, UK)
  }

  lemma TwoPagesOk()
    ensures KvIndex.HeaderOk(KvIndex.Encoded(PageEntries(), 1)) && FileOk(TwoPages())
    ensures KvIndex.Entries(TwoPages().index.value) == PageEntries()
  {
    hide KvIndex.Encoded, KvIndex.View, KvIndex.Valid, KvIndex.Entries, KvIndex.HeaderOk, PageEntries, PagesOk;
    EntriesBuildable();
    EntriesSmall(PageEntries()) by { TwoEntries(); }
    KvIndex.FittingRoundTrip(PageEntries(), 1);
    AcceptedHeader(KvIndex.Encoded(PageEntries(), 1));
    var f := TwoPages();
    assert f.index.value == KvIndex.View(KvIndex.Encoded(PageEntries(), 1));
    Boundaries();
    TwoEntriesPages();
  }

  lemma TwoEntries()
    ensures |PageEntries()| == 2 && |PageEntries()[0].key| == 9 && |PageEntries()[1].key| == 9
  {
  }

  lemma TwoEntriesPages()
    ensures PagesOk(PageEntries(), [NEWER, OLDER], [2])
  {
    hide Tag, EncodeIkey, GroupBoundary;
    Boundaries();
  }

  lemma AcceptedHeader(buf: bytes)
    requires KvIndex.Acceptable(buf)
    ensures KvIndex.HeaderOk(buf) && KvIndex.Valid(KvIndex.View(buf))
  {
  }

  lemma Boundaries()
    ensures Sum([2]) == 2
    ensures forall b: nat :: GroupBoundary([2], b) ==> b == 0 || b == 2
  {
    assert [2][1..] == [];
    forall b: nat | GroupBoundary([2], b)
      ensures b == 0 || b == 2
    {
      var g :| 0 <= g <= |[2]| && b == Sum([2][..g]);
      assert [2][..0] == [] && [2][..1] == [2];
    }
  }

  /** Asked for exactly this key, the stream yields the older row only. */
  lemma NewestRowLost()
    ensures KvIndex.HeaderOk(KvIndex.Encoded(PageEntries(), 1)) && FileOk(TwoPages())
    ensures InWindow(UK, UK, UK) && (UK, 0) !in Yield(TwoPages(), UK, UK) && (UK, 1) in Yield(TwoPages(), UK, UK)
  {
    hide KvIndex.Encoded, KvIndex.View, KvIndex.Valid, KvIndex.Entries, Tag, KvIndex.HeaderOk, FileOk, Yield;
    TwoPagesOk();
    var f := TwoPages();
    LessIrreflexive(UK);
    FileOkIndex(f);
    YieldMembers(f, UK, UK, 0);
    YieldMembers(f, UK, UK, 1);
    assert StartsLater(f, UK, 0, 1);
    assert !StartsLater(f, UK, 1, 1);
  }

  lemma FileOkIndex(f: File)
    requires FileOk(f)
    ensures IndexOk(f)
  {
  }

  // ── The empty key ─────────────────────────────────────────────────────────

  const EMPTY_KEY_FILE: File := File([Stored(InternalKey([], 1, Put), Row([]))], [1], None, None, [], [])

  const EMPTY_KEY_META: DataFile :=
    DataFile(DataPath("data/L0", "f"), FileMeta(0, 1, 1, [], [], 1), NO_DV)

  /** Under a schema whose key encodes to nothing, the one row is superseded by
      the next flush of its key, but never masked. */
  lemma EmptyKeyNeverMasked(codec: Codec, puffins: Puffins)
    ensures var disk := Disk(map[EMPTY_KEY_META.path := EMPTY_KEY_FILE], puffins);
            FileOk(Content(disk, EMPTY_KEY_META)) &&
            DvResolve.Delta(codec, disk, EMPTY_KEY_META, [[]]) == {} &&
              DvResolve.Wanted(codec, disk, EMPTY_KEY_META, [[]]) == {0}
  {
    var disk := Disk(map[EMPTY_KEY_META.path := EMPTY_KEY_FILE], puffins);
    assert Content(disk, EMPTY_KEY_META) == EMPTY_KEY_FILE;
    assert [1][1..] == [];
    NoCoords(codec, puffins);
    var keys: seq<bytes> := [[]];
    assert keys[0] in keys;
  }
}
