/** The manifest and how a transaction changes it (`iceberg/manifest.rs`,
    `iceberg/snapshot.rs`).

    Besides carrying files and deletion-vector coordinates forward, `apply`
    hands out row ids as the "Row Lineage" section of the Apache Iceberg table
    specification, version 3, asks: no two rows ever share an id.
 */
module Manifest {
  import opened Wrappers
  import opened ByteStrings
  import opened Table
  import opened DeletionVector

  datatype FileMeta = FileMeta(level: nat, seqMin: nat, seqMax: nat, keyMin: bytes, keyMax: bytes, numRows: nat)

  /** A deletion-vector file is named after its data file and the snapshot. */
  datatype PuffinPath = PuffinPath(of: DataPath, snapshot: nat)

  datatype DvLocation = DvLocation(path: PuffinPath, offset: int, length: int)

  datatype Status = Existing | Added | Deleted

  /** Where a file's deletion vector is, as three separate optional fields. */
  datatype DvCoords = DvCoords(path: Option<PuffinPath>, offset: Option<int>, length: Option<int>)

  const NO_DV: DvCoords := DvCoords(None, None, None)

  datatype Entry = Entry(path: DataPath, meta: FileMeta, dv: DvCoords, status: Status, firstRowId: Option<int>)

  datatype Manifest = Manifest(
    snapshotId: nat,
    parent: Option<nat>,
    sequenceNumber: nat,
    nextRowId: int,
    firstRowId: int,
    entries: seq<Entry>)

  /** The manifest of a table that was just created. */
  const EMPTY_MANIFEST: Manifest := Manifest(0, None, 0, 0, 0, [])

  // ── Transactions ──────────────────────────────────────────────────────────

  datatype NewFile = NewFile(path: DataPath, numRows: nat, meta: FileMeta)

  datatype Txn = Txn(adds: seq<NewFile>, removes: seq<DataPath>, dvs: map<DataPath, Bitmap>)

  function DvFor(txn: Txn, path: DataPath): Bitmap {
    if path in txn.dvs then txn.dvs[path] else {}
  }

  /** `SnapshotTransaction`. */
  class SnapshotTransaction {
    var adds: seq<NewFile>
    var removes: seq<DataPath>
    var dvs: map<DataPath, Bitmap>

    function Value(): Txn
      reads this
    {
      Txn(adds, removes, dvs)
    }

    constructor ()
      ensures Value() == Txn([], [], map[])
    {
      adds, removes, dvs := [], [], map[];
    }

    method AddFile(file: NewFile)
      modifies this
      ensures Value() == old(Value()).(adds := old(adds) + [file])
    {
      adds := adds + [file];
    }

    /** From then on the file's entry does not survive. */
    method RemoveFile(path: DataPath)
      modifies this
      ensures Value() == old(Value()).(removes := old(removes) + [path])
      ensures forall e: Entry :: Survives(e, Value()) <==> old(Survives(e, Value())) && e.path != path
    {
      removes := removes + [path];
    }

    /** Further positions for a file join those already recorded. */
    method AddDv(path: DataPath, dv: Bitmap)
      modifies this
      ensures adds == old(adds) && removes == old(removes) && dvs.Keys == old(dvs).Keys + {path}
      ensures forall p :: DvFor(Value(), p) == if p == path then old(DvFor(Value(), p)) + dv else old(DvFor(Value(), p))
    {
      if path in dvs {
        dvs := dvs[path := dvs[path] + dv];
      } else {
        dvs := dvs[path := dv];
      }
    }
  }

  // ── Apply ─────────────────────────────────────────────────────────────────

  function WithLocation(e: Entry, loc: DvLocation): Entry {
    e.(dv := DvCoords(Some(loc.path), Some(loc.offset), Some(loc.length)))
  }

  predicate Survives(e: Entry, txn: Txn) {
    e.status != Deleted && e.path !in txn.removes
  }

  function Carry(e: Entry, txn: Txn, locs: map<DataPath, DvLocation>): Entry
    requires txn.dvs.Keys <= locs.Keys
  {
    if e.path in txn.dvs then WithLocation(e, locs[e.path]) else e
  }

  /** The entries carried forward. */
  function Carried(es: seq<Entry>, txn: Txn, locs: map<DataPath, DvLocation>): seq<Entry>
    requires txn.dvs.Keys <= locs.Keys
  {
    if es == [] then []
    else if Survives(es[0], txn) then [Carry(es[0], txn, locs)] + Carried(es[1..], txn, locs)
    else Carried(es[1..], txn, locs)
  }

  /** Ids for entries that predate row lineage, from `cursor` on. */
  function Assigned(es: seq<Entry>, cursor: int): seq<Entry> {
    if es == [] then []
    else if es[0].firstRowId.None? then
      [es[0].(firstRowId := Some(cursor))] + Assigned(es[1..], cursor + es[0].meta.numRows)
    else [es[0]] + Assigned(es[1..], cursor)
  }

  function AssignedEnd(es: seq<Entry>, cursor: int): int {
    if es == [] then cursor
    else AssignedEnd(es[1..], if es[0].firstRowId.None? then cursor + es[0].meta.numRows else cursor)
  }

  /** Entries for the added files, from `cursor` on. */
  function Fresh(adds: seq<NewFile>, cursor: int): seq<Entry> {
    if adds == [] then []
    else
      [Entry(adds[0].path, adds[0].meta, NO_DV, Added, Some(cursor))] +
      Fresh(adds[1..], cursor + adds[0].numRows)
  }

  function FreshEnd(adds: seq<NewFile>, cursor: int): int {
    if adds == [] then cursor else FreshEnd(adds[1..], cursor + adds[0].numRows)
  }

  predicate Conflict(txn: Txn) {
    exists p :: p in txn.removes && p in txn.dvs
  }

  function Next(m: Manifest, txn: Txn, id: nat, locs: map<DataPath, DvLocation>): Manifest
    requires txn.dvs.Keys <= locs.Keys
  {
    var carried := Carried(m.entries, txn, locs);
    var cursor := AssignedEnd(carried, m.nextRowId);
    Manifest(id, if m.snapshotId == 0 then None else Some(m.snapshotId), m.sequenceNumber + 1,
             FreshEnd(txn.adds, cursor), m.nextRowId,
             Assigned(carried, m.nextRowId) + Fresh(txn.adds, cursor))
  }

  /** The snapshot's id, its parent and its sequence number. */
  lemma NextIds(m: Manifest, txn: Txn, id: nat, locs: map<DataPath, DvLocation>)
    requires txn.dvs.Keys <= locs.Keys
    ensures Next(m, txn, id, locs).snapshotId == id
    ensures Next(m, txn, id, locs).sequenceNumber == m.sequenceNumber + 1
    ensures m.snapshotId == 0 ==> Next(m, txn, id, locs).parent == None
    ensures m.snapshotId != 0 ==> Next(m, txn, id, locs).parent == Some(m.snapshotId)
  {
  }

  /** Fails exactly if a deletion vector has no location or its file is removed
      by the same transaction. */
  method Apply(m: Manifest, txn: Txn, id: nat, locs: map<DataPath, DvLocation>) returns (r: Result<Manifest>)
    ensures r.Ok? <==> txn.dvs.Keys <= locs.Keys && !Conflict(txn)
    ensures r.Ok? ==> r.value == Next(m, txn, id, locs)
    ensures r.Ok? ==> r.value.snapshotId == id && r.value.sequenceNumber == m.sequenceNumber + 1
    ensures r.Ok? ==> if m.snapshotId == 0 then r.value.parent == None else r.value.parent == Some(m.snapshotId)
    ensures r.Err? ==> r.error == Iceberg
  {
    if !(txn.dvs.Keys <= locs.Keys) || Conflict(txn) { return Err(Iceberg); }
    var entries := CarryForward(m.entries, txn, locs);
    var numbered, cursor := AssignIds(entries, m.nextRowId);
    ghost var start := cursor;
    ghost var before := numbered;
    assert txn.adds[0..] == txn.adds;
    for i := 0 to |txn.adds|
      invariant numbered + Fresh(txn.adds[i..], cursor) == before + Fresh(txn.adds, start)
      invariant FreshEnd(txn.adds[i..], cursor) == FreshEnd(txn.adds, start)
    {
      var add := txn.adds[i];
      assert txn.adds[i..][1..] == txn.adds[i + 1..];
      numbered := numbered + [Entry(add.path, add.meta, NO_DV, Added, Some(cursor))];
      cursor := cursor + add.numRows;
    }
    assert txn.adds[|txn.adds|..] == [];
    r := Ok(Manifest(id, if m.snapshotId == 0 then None else Some(m.snapshotId), m.sequenceNumber + 1,
                     cursor, m.nextRowId, numbered));
  }

  method CarryForward(es: seq<Entry>, txn: Txn, locs: map<DataPath, DvLocation>) returns (out: seq<Entry>)
    requires txn.dvs.Keys <= locs.Keys
    ensures out == Carried(es, txn, locs)
  {
    out := [];
    assert es[0..] == es;
    for i := 0 to |es|
      invariant out + Carried(es[i..], txn, locs) == Carried(es, txn, locs)
    {
      assert es[i..][1..] == es[i + 1..];
      if es[i].status == Deleted { continue; }
      if es[i].path in txn.removes { continue; }
      var e := es[i];
      if e.path in txn.dvs {
        e := WithLocation(e, locs[e.path]);
      }
      out := out + [e];
    }
  }

  method AssignIds(es: seq<Entry>, next: int) returns (out: seq<Entry>, cursor: int)
    ensures out == Assigned(es, next) && cursor == AssignedEnd(es, next)
  {
    hide Assigned, AssignedEnd;
    out, cursor := [], next;
    assert es[0..] == es && [] + Assigned(es, next) == Assigned(es, next);
    for i := 0 to |es|
      invariant out + Assigned(es[i..], cursor) == Assigned(es, next)
      invariant AssignedEnd(es[i..], cursor) == AssignedEnd(es, next)
    {
      AssignStep(es, i, cursor);
      ghost var was := out;
      var e := es[i];
      if e.firstRowId.None? {
        e := e.(firstRowId := Some(cursor));
        cursor := cursor + e.meta.numRows;
      }
      out := out + [e];
      assert was + ([e] + Assigned(es[i + 1..], cursor)) == out + Assigned(es[i + 1..], cursor);
    }
    AssignNone(es[|es|..], cursor);
    assert out + [] == out;
  }

  lemma AssignStep(es: seq<Entry>, i: nat, cursor: int)
    requires i < |es|
    ensures var e := es[i];
            var next := if e.firstRowId.None? then cursor + e.meta.numRows else cursor;
            Assigned(es[i..], cursor) ==
              [if e.firstRowId.None? then e.(firstRowId := Some(cursor)) else e] + Assigned(es[i + 1..], next) &&
            AssignedEnd(es[i..], cursor) == AssignedEnd(es[i + 1..], next)
  {
    assert es[i..][0] == es[i] && es[i..][1..] == es[i + 1..];
  }

  lemma AssignNone(es: seq<Entry>, cursor: int)
    requires es == []
    ensures Assigned(es, cursor) == [] && AssignedEnd(es, cursor) == cursor
  {
  }

  // ── What apply keeps ──────────────────────────────────────────────────────

  ghost predicate UniquePaths(es: seq<Entry>) {
    forall i, j :: 0 <= i < j < |es| && es[i].status != Deleted && es[j].status != Deleted ==> es[i].path != es[j].path
  }

  lemma {:induction false} CarriedFrom(es: seq<Entry>, txn: Txn, locs: map<DataPath, DvLocation>, e: Entry)
    requires txn.dvs.Keys <= locs.Keys
    ensures e in Carried(es, txn, locs) <==> exists o :: o in es && Survives(o, txn) && e == Carry(o, txn, locs)
  {
    if es != [] {
      CarriedFrom(es[1..], txn, locs, e);
      assert es == [es[0]] + es[1..];
      assert e in Carried(es, txn, locs) <==>
        (Survives(es[0], txn) && e == Carry(es[0], txn, locs)) || e in Carried(es[1..], txn, locs);
    }
  }

  /** Where the entry carried to position `k` stood before. */
  function Origin(es: seq<Entry>, txn: Txn, k: nat): nat {
    if es == [] then k
    else if Survives(es[0], txn) && k == 0 then 0
    else 1 + Origin(es[1..], txn, if Survives(es[0], txn) then k - 1 else k)
  }

  lemma {:induction false} CarriedAt(es: seq<Entry>, txn: Txn, locs: map<DataPath, DvLocation>, k: nat)
    requires txn.dvs.Keys <= locs.Keys && k < |Carried(es, txn, locs)|
    ensures Origin(es, txn, k) < |es| && Survives(es[Origin(es, txn, k)], txn)
    ensures Carried(es, txn, locs)[k] == Carry(es[Origin(es, txn, k)], txn, locs)
  {
    hide Survives, Carry;
    if Survives(es[0], txn) {
      if k > 0 { CarriedAt(es[1..], txn, locs, k - 1); }
    } else {
      CarriedAt(es[1..], txn, locs, k);
    }
  }

  lemma {:induction false} OriginsAscend(es: seq<Entry>, txn: Txn, j: nat, k: nat)
    requires j < k
    ensures Origin(es, txn, j) < Origin(es, txn, k)
  {
    hide Survives;
    if es != [] {
      if !Survives(es[0], txn) {
        OriginsAscend(es[1..], txn, j, k);
      } else if j > 0 {
        OriginsAscend(es[1..], txn, j - 1, k - 1);
      }
    }
  }

  lemma CarriedUnique(es: seq<Entry>, txn: Txn, locs: map<DataPath, DvLocation>)
    requires txn.dvs.Keys <= locs.Keys && UniquePaths(es)
    ensures UniquePaths(Carried(es, txn, locs))
  {
    hide Carried, Origin;
    var out := Carried(es, txn, locs);
    forall j, k | 0 <= j < k < |out|
      ensures out[j].path != out[k].path
    {
      CarriedAt(es, txn, locs, j);
      CarriedAt(es, txn, locs, k);
      OriginsAscend(es, txn, j, k);
    }
  }

  lemma {:induction false} AssignedIs(es: seq<Entry>, cursor: int)
    ensures |Assigned(es, cursor)| == |es|
    ensures forall i :: 0 <= i < |es| ==>
              Assigned(es, cursor)[i].firstRowId.Some? &&
              Assigned(es, cursor)[i] == es[i].(firstRowId := Assigned(es, cursor)[i].firstRowId) &&
              (es[i].firstRowId.Some? ==> Assigned(es, cursor)[i] == es[i])
  {
    if es != [] {
      AssignedIs(es[1..], if es[0].firstRowId.None? then cursor + es[0].meta.numRows else cursor);
    }
  }

  lemma {:induction false} FreshIs(adds: seq<NewFile>, cursor: int)
    ensures |Fresh(adds, cursor)| == |adds|
    ensures forall i :: 0 <= i < |adds| ==>
              Fresh(adds, cursor)[i].firstRowId.Some? &&
              Fresh(adds, cursor)[i] ==
                Entry(adds[i].path, adds[i].meta, NO_DV, Added, Fresh(adds, cursor)[i].firstRowId)
  {
    if adds != [] { FreshIs(adds[1..], cursor + adds[0].numRows); }
  }

  /** `e` is `o` carried forward: same file, new coordinates if the transaction
      marks rows of it, and an id if it had none. */
  predicate CarriedTo(o: Entry, txn: Txn, locs: map<DataPath, DvLocation>, e: Entry)
    requires txn.dvs.Keys <= locs.Keys
  {
    Survives(o, txn) && e.firstRowId.Some? && (o.firstRowId.Some? ==> e.firstRowId == o.firstRowId) &&
    e == Carry(o, txn, locs).(firstRowId := e.firstRowId)
  }

  predicate AddedAs(a: NewFile, e: Entry) {
    e.firstRowId.Some? && e == Entry(a.path, a.meta, NO_DV, Added, e.firstRowId)
  }

  ghost predicate WasCarried(es: seq<Entry>, txn: Txn, locs: map<DataPath, DvLocation>, e: Entry)
    requires txn.dvs.Keys <= locs.Keys
  {
    exists o :: o in es && CarriedTo(o, txn, locs, e)
  }

  ghost predicate WasAdded(adds: seq<NewFile>, e: Entry) {
    exists a :: a in adds && AddedAs(a, e)
  }

  /** An entry after a commit is a surviving one or an added one... */
  lemma NextEntry(m: Manifest, txn: Txn, id: nat, locs: map<DataPath, DvLocation>, e: Entry)
    requires txn.dvs.Keys <= locs.Keys && e in Next(m, txn, id, locs).entries
    ensures WasCarried(m.entries, txn, locs, e) || WasAdded(txn.adds, e)
  {
    hide Assigned, AssignedEnd, Fresh, FreshEnd, Carried, Survives, Carry;
    var carried := Carried(m.entries, txn, locs);
    var cursor := AssignedEnd(carried, m.nextRowId);
    AssignedIs(carried, m.nextRowId);
    FreshIs(txn.adds, cursor);
    if e in Assigned(carried, m.nextRowId) {
      var i :| 0 <= i < |carried| && Assigned(carried, m.nextRowId)[i] == e;
      CarriedFrom(m.entries, txn, locs, carried[i]);
      var o :| o in m.entries && Survives(o, txn) && carried[i] == Carry(o, txn, locs);
      CarryKeepsId(o, txn, locs);
      assert CarriedTo(o, txn, locs, e);
    } else {
      var i :| 0 <= i < |txn.adds| && Fresh(txn.adds, cursor)[i] == e;
      assert AddedAs(txn.adds[i], e);
    }
  }

  /** ...every surviving entry is carried... */
  lemma NextCarries(m: Manifest, txn: Txn, id: nat, locs: map<DataPath, DvLocation>, o: Entry) returns (e: Entry)
    requires txn.dvs.Keys <= locs.Keys && o in m.entries && Survives(o, txn)
    ensures e in Next(m, txn, id, locs).entries && CarriedTo(o, txn, locs, e)
  {
    hide Assigned, AssignedEnd, Fresh, FreshEnd, Carried, Survives, Carry;
    var carried := Carried(m.entries, txn, locs);
    AssignedIs(carried, m.nextRowId);
    CarriedFrom(m.entries, txn, locs, Carry(o, txn, locs));
    var i :| 0 <= i < |carried| && carried[i] == Carry(o, txn, locs);
    CarryKeepsId(o, txn, locs);
    e := Assigned(carried, m.nextRowId)[i];
  }

  /** ...and every added file gets an entry. */
  lemma NextAdds(m: Manifest, txn: Txn, id: nat, locs: map<DataPath, DvLocation>, a: NewFile) returns (e: Entry)
    requires txn.dvs.Keys <= locs.Keys && a in txn.adds
    ensures e in Next(m, txn, id, locs).entries && AddedAs(a, e)
  {
    hide Assigned, AssignedEnd, Fresh, FreshEnd, Carried;
    var cursor := AssignedEnd(Carried(m.entries, txn, locs), m.nextRowId);
    FreshIs(txn.adds, cursor);
    var i :| 0 <= i < |txn.adds| && txn.adds[i] == a;
    e := Fresh(txn.adds, cursor)[i];
  }

  /** A removed file has no entry afterwards, unless it is added again. */
  lemma RemovedIsGone(m: Manifest, txn: Txn, id: nat, locs: map<DataPath, DvLocation>, path: DataPath)
    requires txn.dvs.Keys <= locs.Keys && path in txn.removes && forall a :: a in txn.adds ==> a.path != path
    ensures forall e :: e in Next(m, txn, id, locs).entries ==> e.path != path
  {
    hide Next;
    forall e | e in Next(m, txn, id, locs).entries
      ensures e.path != path
    {
      NextEntry(m, txn, id, locs, e);
    }
  }

  lemma CarryKeepsId(o: Entry, txn: Txn, locs: map<DataPath, DvLocation>)
    requires txn.dvs.Keys <= locs.Keys
    ensures Carry(o, txn, locs).firstRowId == o.firstRowId
  {
  }

  /** Added files have names of their own. */
  ghost predicate FreshAdds(m: Manifest, txn: Txn) {
    (forall i, j :: 0 <= i < j < |txn.adds| ==> txn.adds[i].path != txn.adds[j].path) &&
    (forall i, e :: 0 <= i < |txn.adds| && e in m.entries ==> txn.adds[i].path != e.path)
  }

  lemma NextUnique(m: Manifest, txn: Txn, id: nat, locs: map<DataPath, DvLocation>)
    requires txn.dvs.Keys <= locs.Keys && UniquePaths(m.entries) && FreshAdds(m, txn)
    ensures UniquePaths(Next(m, txn, id, locs).entries)
  {
    hide Assigned, AssignedEnd, Fresh, FreshEnd, Carried, Origin, Survives;
    var carried := Carried(m.entries, txn, locs);
    var cursor := AssignedEnd(carried, m.nextRowId);
    CarriedUnique(m.entries, txn, locs);
    AssignedIs(carried, m.nextRowId);
    FreshIs(txn.adds, cursor);
    forall i | 0 <= i < |carried|
      ensures exists o :: o in m.entries && o.path == carried[i].path
    {
      CarriedAt(m.entries, txn, locs, i);
    }
  }

  // ── Row lineage ───────────────────────────────────────────────────────────

  /** Entry `e` has ids and they lie in `[lo, hi)`. */
  predicate IdsWithin(e: Entry, lo: int, hi: int) {
    e.firstRowId.Some? && lo <= e.firstRowId.value && e.firstRowId.value + e.meta.numRows <= hi
  }

  predicate IdsApart(d: Entry, e: Entry) {
    d.firstRowId.Some? && e.firstRowId.Some? ==>
      d.firstRowId.value + d.meta.numRows <= e.firstRowId.value ||
      e.firstRowId.value + e.meta.numRows <= d.firstRowId.value
  }

  /** Ids already handed out lie below the counter and do not overlap. */
  ghost predicate Lineage(m: Manifest) {
    0 <= m.nextRowId && IdsOk(m.entries, m.nextRowId)
  }

  ghost predicate IdsOk(es: seq<Entry>, next: int) {
    (forall i :: 0 <= i < |es| && es[i].firstRowId.Some? ==> IdsWithin(es[i], 0, next)) &&
    (forall i, j :: 0 <= i < j < |es| ==> IdsApart(es[i], es[j]))
  }

  lemma {:induction false} AssignedEndGrows(es: seq<Entry>, cursor: int)
    ensures cursor <= AssignedEnd(es, cursor)
  {
    if es != [] { AssignedEndGrows(es[1..], if es[0].firstRowId.None? then cursor + es[0].meta.numRows else cursor); }
  }

  lemma {:induction false} FreshEndGrows(adds: seq<NewFile>, cursor: int)
    ensures cursor <= FreshEnd(adds, cursor)
  {
    if adds != [] { FreshEndGrows(adds[1..], cursor + adds[0].numRows); }
  }

  /** New ids come from between the old counter and the new one. */
  lemma {:induction false} AssignedWithin(es: seq<Entry>, cursor: int)
    ensures |Assigned(es, cursor)| == |es|
    ensures forall i :: 0 <= i < |es| && es[i].firstRowId.None? ==>
              IdsWithin(Assigned(es, cursor)[i], cursor, AssignedEnd(es, cursor))
    ensures forall i, j :: 0 <= i < j < |es| && es[i].firstRowId.None? && es[j].firstRowId.None? ==>
              IdsApart(Assigned(es, cursor)[i], Assigned(es, cursor)[j])
  {
    if es != [] {
      var next := if es[0].firstRowId.None? then cursor + es[0].meta.numRows else cursor;
      AssignedWithin(es[1..], next);
      AssignedEndGrows(es[1..], next);
    }
  }

  lemma {:induction false} FreshWithin(adds: seq<NewFile>, cursor: int)
    requires forall i :: 0 <= i < |adds| ==> adds[i].numRows == adds[i].meta.numRows
    ensures |Fresh(adds, cursor)| == |adds|
    ensures forall i :: 0 <= i < |adds| ==> IdsWithin(Fresh(adds, cursor)[i], cursor, FreshEnd(adds, cursor))
    ensures forall i, j :: 0 <= i < j < |adds| ==> IdsApart(Fresh(adds, cursor)[i], Fresh(adds, cursor)[j])
  {
    if adds != [] {
      FreshWithin(adds[1..], cursor + adds[0].numRows);
      FreshEndGrows(adds[1..], cursor + adds[0].numRows);
    }
  }

  lemma CarriedIds(es: seq<Entry>, txn: Txn, locs: map<DataPath, DvLocation>, next: int)
    requires txn.dvs.Keys <= locs.Keys && IdsOk(es, next)
    ensures IdsOk(Carried(es, txn, locs), next)
  {
    hide Carried, Origin, Survives;
    var out := Carried(es, txn, locs);
    forall j | 0 <= j < |out|
      ensures out[j].firstRowId.Some? ==> IdsWithin(out[j], 0, next)
    {
      CarriedAt(es, txn, locs, j);
    }
    forall j, k | 0 <= j < k < |out|
      ensures IdsApart(out[j], out[k])
    {
      CarriedAt(es, txn, locs, j);
      CarriedAt(es, txn, locs, k);
      OriginsAscend(es, txn, j, k);
      assert IdsApart(es[Origin(es, txn, j)], es[Origin(es, txn, k)]);
    }
  }

  lemma AssignedIds(es: seq<Entry>, next: int)
    requires 0 <= next && IdsOk(es, next)
    ensures IdsOk(Assigned(es, next), AssignedEnd(es, next))
  {
    hide Assigned, AssignedEnd;
    var out := Assigned(es, next);
    AssignedIs(es, next);
    AssignedWithin(es, next);
    AssignedEndGrows(es, next);
    forall i, j | 0 <= i < j < |out|
      ensures IdsApart(out[i], out[j])
    {
      assert IdsApart(es[i], es[j]);
    }
  }

  predicate AddsHonest(txn: Txn) {
    forall i :: 0 <= i < |txn.adds| ==> txn.adds[i].numRows == txn.adds[i].meta.numRows
  }

  /** One commit keeps the ids of live files disjoint and below the counter,
      and continues where its predecessor stopped. */
  lemma NextLineage(m: Manifest, txn: Txn, id: nat, locs: map<DataPath, DvLocation>)
    requires txn.dvs.Keys <= locs.Keys && Lineage(m) && AddsHonest(txn)
    ensures Lineage(Next(m, txn, id, locs))
    ensures Next(m, txn, id, locs).firstRowId == m.nextRowId <= Next(m, txn, id, locs).nextRowId
    ensures forall i :: 0 <= i < |Next(m, txn, id, locs).entries| ==> Next(m, txn, id, locs).entries[i].firstRowId.Some?
  {
    hide Assigned, AssignedEnd, Fresh, FreshEnd, Carried;
    var carried := Carried(m.entries, txn, locs);
    var cursor := AssignedEnd(carried, m.nextRowId);
    CarriedIds(m.entries, txn, locs, m.nextRowId);
    AssignedIds(carried, m.nextRowId);
    AssignedIs(carried, m.nextRowId);
    AssignedEndGrows(carried, m.nextRowId);
    FreshWithin(txn.adds, cursor);
    FreshIs(txn.adds, cursor);
    FreshEndGrows(txn.adds, cursor);
    JoinIds(Assigned(carried, m.nextRowId), Fresh(txn.adds, cursor), cursor, FreshEnd(txn.adds, cursor));
  }

  lemma JoinIds(a: seq<Entry>, b: seq<Entry>, mid: int, end: int)
    requires 0 <= mid <= end && IdsOk(a, mid)
    requires forall i :: 0 <= i < |b| ==> IdsWithin(b[i], mid, end)
    requires forall i, j :: 0 <= i < j < |b| ==> IdsApart(b[i], b[j])
    ensures IdsOk(a + b, end)
  {
    var es := a + b;
    forall i, j | 0 <= i < j < |es|
      ensures IdsApart(es[i], es[j])
    {
      if i >= |a| { assert IdsApart(b[i - |a|], b[j - |a|]); }
      else if j < |a| { assert IdsApart(a[i], a[j]); }
    }
  }

  /** An id of a file after a commit was the file's id before, or is new. */
  lemma IdsOldOrNew(m: Manifest, txn: Txn, id: nat, locs: map<DataPath, DvLocation>, e: Entry)
    requires txn.dvs.Keys <= locs.Keys && AddsHonest(txn) && e in Next(m, txn, id, locs).entries
    ensures e.firstRowId.Some?
    ensures IdsWithin(e, m.nextRowId, Next(m, txn, id, locs).nextRowId) ||
            exists o :: o in m.entries && o.path == e.path && o.firstRowId == e.firstRowId && o.meta == e.meta
  {
    hide Assigned, AssignedEnd, Fresh, FreshEnd, Carried;
    var carried := Carried(m.entries, txn, locs);
    var cursor := AssignedEnd(carried, m.nextRowId);
    AssignedIs(carried, m.nextRowId);
    AssignedWithin(carried, m.nextRowId);
    AssignedEndGrows(carried, m.nextRowId);
    FreshWithin(txn.adds, cursor);
    FreshEndGrows(txn.adds, cursor);
    if e in Assigned(carried, m.nextRowId) {
      var i :| 0 <= i < |carried| && Assigned(carried, m.nextRowId)[i] == e;
      if carried[i].firstRowId.Some? {
        CarriedFrom(m.entries, txn, locs, e);
      }
    }
  }

  // ── Whole histories ───────────────────────────────────────────────────────

  /** A transaction as applied: with its id and locations. */
  datatype Applied = Applied(txn: Txn, id: nat, locs: map<DataPath, DvLocation>)

  /** `ms` are the manifests of a sequence of commits. */
  ghost predicate IsHistory(ms: seq<Manifest>, steps: seq<Applied>) {
    |ms| == |steps| + 1 && Lineage(ms[0]) &&
    forall i :: 0 <= i < |steps| ==> StepOk(ms[i], steps[i], ms[i + 1])
  }

  ghost predicate StepOk(m: Manifest, s: Applied, after: Manifest) {
    s.txn.dvs.Keys <= s.locs.Keys && AddsHonest(s.txn) && after == Next(m, s.txn, s.id, s.locs)
  }

  lemma {:induction false} HistoryLineage(ms: seq<Manifest>, steps: seq<Applied>, i: nat, j: nat)
    requires IsHistory(ms, steps) && i <= j < |ms|
    ensures Lineage(ms[j]) && ms[i].nextRowId <= ms[j].nextRowId
    decreases j
  {
    hide Next;
    if j > 0 {
      if i < j {
        HistoryLineage(ms, steps, i, j - 1);
      } else {
        HistoryLineage(ms, steps, j - 1, j - 1);
      }
      assert StepOk(ms[j - 1], steps[j - 1], ms[j]);
      NextLineage(ms[j - 1], steps[j - 1].txn, steps[j - 1].id, steps[j - 1].locs);
    }
  }

  /** A file in a later manifest has the id it had in an earlier one, or an id
      that had not been handed out by then. */
  lemma {:induction false} IdsOverTime(ms: seq<Manifest>, steps: seq<Applied>, i: nat, j: nat, e: Entry)
    requires IsHistory(ms, steps) && i <= j < |ms| && e in ms[j].entries && e.firstRowId.Some?
    ensures ms[i].nextRowId <= e.firstRowId.value ||
            exists o :: o in ms[i].entries && o.path == e.path && o.firstRowId == e.firstRowId && o.meta == e.meta
    decreases j
  {
    hide Next;
    if i < j {
      var s := steps[j - 1];
      assert StepOk(ms[j - 1], s, ms[j]);
      IdsOldOrNew(ms[j - 1], s.txn, s.id, s.locs, e);
      HistoryLineage(ms, steps, i, j - 1);
      if !IdsWithin(e, ms[j - 1].nextRowId, ms[j].nextRowId) {
        var o :| o in ms[j - 1].entries && o.path == e.path && o.firstRowId == e.firstRowId && o.meta == e.meta;
        IdsOverTime(ms, steps, i, j - 1, o);
      }
    }
  }

  /** No row id is ever used for two files: two entries of any two manifests of
      a history whose id ranges overlap are the same file with the same ids. */
  lemma RowIdsNeverReissued(ms: seq<Manifest>, steps: seq<Applied>, i: nat, j: nat, d: Entry, e: Entry)
    requires IsHistory(ms, steps) && i <= j < |ms| && d in ms[i].entries && e in ms[j].entries
    requires d.firstRowId.Some? && e.firstRowId.Some? && !IdsApart(d, e)
    ensures d.path == e.path && d.firstRowId == e.firstRowId
  {
    IdsOverTime(ms, steps, i, j, e);
    HistoryLineage(ms, steps, i, i);
    var k :| 0 <= k < |ms[i].entries| && ms[i].entries[k] == d;
    assert IdsWithin(ms[i].entries[k], 0, ms[i].nextRowId);
    var o :| o in ms[i].entries && o.path == e.path && o.firstRowId == e.firstRowId && o.meta == e.meta;
    var l :| 0 <= l < |ms[i].entries| && ms[i].entries[l] == o;
    assert !IdsApart(ms[i].entries[k], ms[i].entries[l]) && !IdsApart(ms[i].entries[l], ms[i].entries[k]);
  }

  // ── No id is left out ─────────────────────────────────────────────────────

  /** The rows of the first `n` entries that have no id yet. */
  function Unnumbered(es: seq<Entry>, n: nat): nat
    requires n <= |es|
  {
    if n == 0 then 0 else Unnumbered(es, n - 1) + if es[n - 1].firstRowId.None? then es[n - 1].meta.numRows else 0
  }

  /** The rows of the first `n` added files. */
  function AddedRows(adds: seq<NewFile>, n: nat): nat
    requires n <= |adds|
  {
    if n == 0 then 0 else AddedRows(adds, n - 1) + adds[n - 1].numRows
  }

  lemma {:induction false} UnnumberedTail(es: seq<Entry>, n: nat)
    requires 0 < n <= |es|
    ensures Unnumbered(es, n) ==
            (if es[0].firstRowId.None? then es[0].meta.numRows else 0) + Unnumbered(es[1..], n - 1)
  {
    if n > 1 { UnnumberedTail(es, n - 1); }
  }

  lemma {:induction false} AddedRowsTail(adds: seq<NewFile>, n: nat)
    requires 0 < n <= |adds|
    ensures AddedRows(adds, n) == adds[0].numRows + AddedRows(adds[1..], n - 1)
  {
    if n > 1 { AddedRowsTail(adds, n - 1); }
  }

  /** Entries of `es` without an id have one in `out`, from `start` on. */
  ghost predicate Numbers(es: seq<Entry>, out: seq<Entry>, start: int) {
    |es| <= |out| &&
    forall i :: 0 <= i < |es| && es[i].firstRowId.None? ==> out[i].firstRowId == Some(start + Unnumbered(es, i))
  }

  /** Ids are handed out one after the other, in the order of the entries. */
  lemma {:induction false} AssignedAt(es: seq<Entry>, cursor: int)
    ensures |Assigned(es, cursor)| == |es| && AssignedEnd(es, cursor) == cursor + Unnumbered(es, |es|)
    ensures Numbers(es, Assigned(es, cursor), cursor)
  {
    hide Numbers, Unnumbered, Assigned, AssignedEnd;
    if es == [] {
      NoneNumbered(es, cursor);
    } else {
      var next := if es[0].firstRowId.None? then cursor + es[0].meta.numRows else cursor;
      AssignedAt(es[1..], next);
      UnnumberedTail(es, |es|);
      AssignStep(es, 0, cursor);
      assert es[0..] == es;
      NumbersStep(es, Assigned(es, cursor), Assigned(es[1..], next), cursor, next);
    }
  }

  lemma NoneNumbered(es: seq<Entry>, cursor: int)
    requires es == []
    ensures Assigned(es, cursor) == [] && AssignedEnd(es, cursor) == cursor + Unnumbered(es, |es|)
    ensures Numbers(es, [], cursor)
  {
  }

  lemma NumbersStep(es: seq<Entry>, out: seq<Entry>, rest: seq<Entry>, cursor: int, next: int)
    requires es != [] && Numbers(es[1..], rest, next)
    requires next == if es[0].firstRowId.None? then cursor + es[0].meta.numRows else cursor
    requires out == [if es[0].firstRowId.None? then es[0].(firstRowId := Some(cursor)) else es[0]] + rest
    ensures Numbers(es, out, cursor)
  {
    assert Unnumbered(es, 0) == 0;
    hide Unnumbered;
    forall i | 0 <= i < |es| && es[i].firstRowId.None?
      ensures out[i].firstRowId == Some(cursor + Unnumbered(es, i))
    {
      if i > 0 {
        UnnumberedTail(es, i);
        assert out[i] == rest[i - 1] && es[1..][i - 1] == es[i];
      }
    }
  }

  lemma {:induction false} FreshAt(adds: seq<NewFile>, cursor: int)
    ensures |Fresh(adds, cursor)| == |adds| && FreshEnd(adds, cursor) == cursor + AddedRows(adds, |adds|)
    ensures forall i :: 0 <= i < |adds| ==> Fresh(adds, cursor)[i].firstRowId == Some(cursor + AddedRows(adds, i))
  {
    assert AddedRows(adds, 0) == 0;
    hide AddedRows;
    if adds != [] {
      FreshAt(adds[1..], cursor + adds[0].numRows);
      forall i | 0 < i <= |adds|
        ensures AddedRows(adds, i) == adds[0].numRows + AddedRows(adds[1..], i - 1)
      {
        AddedRowsTail(adds, i);
      }
    }
  }

  /** `out` ends with the added files, numbered from `start` on. */
  ghost predicate NumbersAdded(adds: seq<NewFile>, out: seq<Entry>, start: int) {
    |adds| <= |out| &&
    forall i :: 0 <= i < |adds| ==> AddedAt(adds[i], out[|out| - |adds| + i], start + AddedRows(adds, i))
  }

  predicate AddedAt(add: NewFile, e: Entry, rowId: int) {
    e == Entry(add.path, add.meta, NO_DV, Added, Some(rowId))
  }

  /** A commit uses exactly as many ids as it has rows to number: those of carried
      files without an id, then those of the added files, in their order. */
  lemma NextDense(m: Manifest, txn: Txn, id: nat, locs: map<DataPath, DvLocation>)
    requires txn.dvs.Keys <= locs.Keys
    ensures
      var carried, next := Carried(m.entries, txn, locs), Next(m, txn, id, locs);
      var start := m.nextRowId + Unnumbered(carried, |carried|);
      next.nextRowId == start + AddedRows(txn.adds, |txn.adds|) && |next.entries| == |carried| + |txn.adds| &&
      Numbers(carried, next.entries, m.nextRowId) && NumbersAdded(txn.adds, next.entries, start)
  {
    hide Assigned, AssignedEnd, Fresh, FreshEnd, Carried, Unnumbered, AddedRows, Numbers, NumbersAdded;
    var carried := Carried(m.entries, txn, locs);
    var start := AssignedEnd(carried, m.nextRowId);
    AssignedAt(carried, m.nextRowId);
    FreshAt(txn.adds, start);
    NumbersJoin(carried, Assigned(carried, m.nextRowId), Fresh(txn.adds, start), m.nextRowId);
    AddedJoin(txn.adds, Assigned(carried, m.nextRowId), start);
  }

  lemma NumbersJoin(es: seq<Entry>, a: seq<Entry>, b: seq<Entry>, start: int)
    requires Numbers(es, a, start)
    ensures Numbers(es, a + b, start)
  {
    hide Unnumbered;
  }

  lemma AddedJoin(adds: seq<NewFile>, a: seq<Entry>, start: int)
    ensures NumbersAdded(adds, a + Fresh(adds, start), start)
  {
    hide AddedRows, Fresh;
    var b := Fresh(adds, start);
    FreshAt(adds, start);
    FreshIs(adds, start);
    forall i | 0 <= i < |adds|
      ensures AddedAt(adds[i], (a + b)[|a + b| - |adds| + i], start + AddedRows(adds, i))
    {
      assert (a + b)[|a + b| - |adds| + i] == b[i];
    }
  }

  lemma {:induction false} NumberedNone(es: seq<Entry>, n: nat)
    requires n <= |es| && forall i :: 0 <= i < |es| ==> es[i].firstRowId.Some?
    ensures Unnumbered(es, n) == 0
  {
    if n > 0 { NumberedNone(es, n - 1); }
  }

  ghost predicate AllNumbered(m: Manifest) {
    forall i :: 0 <= i < |m.entries| ==> m.entries[i].firstRowId.Some?
  }

  /** All rows added by the steps from `i` up to `j`. */
  function RowsAdded(steps: seq<Applied>, i: nat, j: nat): nat
    requires i <= j <= |steps|
    decreases j
  {
    if i == j then 0 else RowsAdded(steps, i, j - 1) + AddedRows(steps[j - 1].txn.adds, |steps[j - 1].txn.adds|)
  }

  /** Over every history: once all files have ids, as after any commit, the counter
      grows by exactly the rows that are added. */
  lemma {:induction false} RowIdsConserved(ms: seq<Manifest>, steps: seq<Applied>, i: nat, j: nat)
    requires IsHistory(ms, steps) && i <= j < |ms| && AllNumbered(ms[i])
    ensures AllNumbered(ms[j]) && ms[j].nextRowId == ms[i].nextRowId + RowsAdded(steps, i, j)
    decreases j
  {
    hide Next, Carried, Unnumbered, AddedRows, Numbers, NumbersAdded;
    if i < j {
      RowIdsConserved(ms, steps, i, j - 1);
      var m, s := ms[j - 1], steps[j - 1];
      assert StepOk(m, s, ms[j]);
      HistoryLineage(ms, steps, j - 1, j - 1);
      NextLineage(m, s.txn, s.id, s.locs);
      NextDense(m, s.txn, s.id, s.locs);
      CarriedNumbered(m, s.txn, s.locs);
      var carried := Carried(m.entries, s.txn, s.locs);
      NumberedNone(carried, |carried|);
    }
  }

  /** A new table: the counter is the number of rows ever added. */
  lemma NewTableRowIds(ms: seq<Manifest>, steps: seq<Applied>, j: nat)
    requires IsHistory(ms, steps) && ms[0] == EMPTY_MANIFEST && j < |ms|
    ensures ms[j].nextRowId == RowsAdded(steps, 0, j)
  {
    RowIdsConserved(ms, steps, 0, j);
  }

  lemma CarriedNumbered(m: Manifest, txn: Txn, locs: map<DataPath, DvLocation>)
    requires txn.dvs.Keys <= locs.Keys && AllNumbered(m)
    ensures forall k :: 0 <= k < |Carried(m.entries, txn, locs)| ==> Carried(m.entries, txn, locs)[k].firstRowId.Some?
  {
    hide Carried, Origin, Survives;
    forall k | 0 <= k < |Carried(m.entries, txn, locs)|
      ensures Carried(m.entries, txn, locs)[k].firstRowId.Some?
    {
      CarriedAt(m.entries, txn, locs, k);
    }
  }
}
