/** Turning a sealed memtable into a data file (`engine/flush.rs`). */
module Flush {
  import opened Wrappers
  import opened ByteStrings
  import opened Keys
  import opened Table
  import opened Visibility
  import opened Sst
  import opened Memtable
  import opened Manifest
  import DvResolve

  // ── Versions, wherever they are stored ────────────────────────────────────

  /** A version with what a reader can learn of it: a tombstone's row is never
      returned. */
  function Canon(x: MemRec): MemRec {
    x.(val := if x.key.op == Put then x.val else None)
  }

  function FromRow(x: Rec): MemRec {
    Stored(x.key, if x.key.op == Put then Some(x.val) else None)
  }

  /** `v` is `w` or an older version. */
  predicate NotNewer(v: MemRec, w: MemRec) {
    v == w || v.key.seqno < w.key.seqno
  }

  ghost predicate InMem(env: Env, m: Mem, v: MemRec) {
    MemOk(env, m) && exists x :: x in Recs(env, m.slots) && Canon(x) == v
  }

  /** `v` is the newest version of its key in the memtable. */
  ghost predicate TopIn(env: Env, m: Mem, v: MemRec) {
    InMem(env, m, v) && forall w :: InMem(env, m, w) && w.key.uk == v.key.uk ==> NotNewer(w, v)
  }

  ghost predicate HasKey(env: Env, m: Mem, uk: bytes) {
    exists v :: InMem(env, m, v) && v.key.uk == uk
  }

  /** Versions of a key in one memtable have different sequence numbers, and
      puts carry a row. */
  ghost predicate MemSound(env: Env, m: Mem) {
    MemOk(env, m) &&
    (forall v, w :: InMem(env, m, v) && InMem(env, m, w) && v.key.seqno == w.key.seqno ==> v == w) &&
    (forall v :: InMem(env, m, v) && v.key.op == Put ==> v.val.Some?)
  }

  /** The file holds exactly the newest version of each key of the memtable. */
  ghost predicate Image(env: Env, m: Mem, file: File) {
    (forall x :: x in file.rows ==> TopIn(env, m, FromRow(x))) &&
    (forall v :: InMem(env, m, v) ==> exists x :: x in file.rows && x.key.uk == v.key.uk)
  }

  // ── Building the rows ─────────────────────────────────────────────────────

  /** The row keeps the entry's key and its payload, which for a tombstone is the
      pre-image; the key columns stand in for a payload that is missing. */
  predicate Saves(pkOnly: bytes -> Row, e: MemRec, row: Rec) {
    row.key == e.key &&
    (e.val.Some? ==> row.val == e.val.value) &&
    (e.val.None? ==> row.val == pkOnly(e.key.uk))
  }

  /** A tombstone without a pre-image is stored with its key columns only. */
  function RowFor(pkOnly: bytes -> Row, e: MemRec): Rec {
    Stored(e.key, if e.val.Some? then e.val.value else pkOnly(e.key.uk))
  }

  function Rows(pkOnly: bytes -> Row, entries: seq<MemRec>): (rows: seq<Rec>)
    ensures |rows| == |entries|
    ensures forall i :: 0 <= i < |rows| ==> rows[i] == RowFor(pkOnly, entries[i])
  {
    if entries == [] then [] else Rows(pkOnly, entries[..|entries| - 1]) + [RowFor(pkOnly, entries[|entries| - 1])]
  }

  /** The metadata recorded for the rows. */
  ghost predicate DescribesRows(meta: FileMeta, rows: seq<Rec>) {
    rows != [] && meta.level == 0 && meta.numRows == |rows| &&
    meta.keyMin == rows[0].key.uk && meta.keyMax == rows[|rows| - 1].key.uk &&
    (forall i :: 0 <= i < |rows| ==> meta.seqMin <= rows[i].key.seqno <= meta.seqMax) &&
    (exists i :: 0 <= i < |rows| && rows[i].key.seqno == meta.seqMin) &&
    (exists i :: 0 <= i < |rows| && rows[i].key.seqno == meta.seqMax)
  }

  const U64_MAX: nat := 0xFFFF_FFFF_FFFF_FFFF

  /** The loop over the entries: rows, key bounds and sequence bounds. */
  method BuildRows(pkOnly: bytes -> Row, entries: seq<MemRec>) returns (rows: seq<Rec>, meta: FileMeta)
    requires entries != [] && forall i :: 0 <= i < |entries| ==> entries[i].key.seqno < U64_MAX
    ensures rows == Rows(pkOnly, entries) && DescribesRows(meta, rows)
    ensures |rows| == |entries| && forall i :: 0 <= i < |rows| ==> Saves(pkOnly, entries[i], rows[i])
  {
    rows := [];
    var keyMin: Option<bytes>, keyMax: Option<bytes> := None, None;
    var seqMin, seqMax := U64_MAX, 0;
    for i := 0 to |entries|
      invariant rows == Rows(pkOnly, entries[..i])
      invariant i == 0 ==> keyMin.None? && seqMin == U64_MAX && seqMax == 0
      invariant i > 0 ==> keyMin == Some(rows[0].key.uk) && keyMax == Some(rows[i - 1].key.uk)
      invariant i > 0 ==> exists k :: 0 <= k < i && rows[k].key.seqno == seqMin
      invariant i > 0 ==> exists k :: 0 <= k < i && rows[k].key.seqno == seqMax
      invariant forall k :: 0 <= k < i ==> seqMin <= rows[k].key.seqno <= seqMax
    {
      var e := entries[i];
      assert entries[..i + 1][..i] == entries[..i];
      if keyMin.None? { keyMin := Some(e.key.uk); }
      keyMax := Some(e.key.uk);
      ghost var before, low, high := rows, seqMin, seqMax;
      rows := rows + [RowFor(pkOnly, e)];
      assert rows[i].key == e.key && forall k :: 0 <= k < i ==> rows[k] == before[k];
      if e.key.seqno < seqMin { seqMin := e.key.seqno; }
      if e.key.seqno > seqMax { seqMax := e.key.seqno; }
    }
    assert entries[..|entries|] == entries;
    meta := FileMeta(0, if seqMin == U64_MAX then 0 else seqMin, seqMax, keyMin.value, keyMax.value, |rows|);
  }

  /** The deduplicated keys handed to the resolver. */
  method DedupKeys(entries: seq<MemRec>) returns (keys: seq<bytes>)
    requires StrictlyAscending(entries)
    ensures DvResolve.KeysAscend(keys)
    ensures forall uk :: uk in keys <==> exists i :: 0 <= i < |entries| && entries[i].key.uk == uk
    ensures entries != [] ==> keys != []
  {
    hide Less;
    keys := [];
    var prev: Option<bytes> := None;
    for i := 0 to |entries|
      invariant |keys| == i && forall k :: 0 <= k < i ==> keys[k] == entries[k].key.uk
      invariant prev == if i == 0 then None else Some(entries[i - 1].key.uk)
    {
      var uk := entries[i].key.uk;
      LessIrreflexive(uk);
      if prev != Some(uk) {
        keys := keys + [uk];
        prev := Some(uk);
      }
    }
    assert forall k :: 0 <= k < |entries| ==> keys[k] in keys && entries[k].key.uk == keys[k];
  }

  // ── The file is the memtable's image ──────────────────────────────────────

  ghost predicate AllVisible(env: Env, m: Mem, readSeq: nat)
    requires MemOk(env, m)
  {
    forall x :: x in Recs(env, m.slots) ==> x.key.seqno <= readSeq
  }

  lemma LookupTop(recs: seq<MemRec>, q: Query)
    requires Sorted(recs) && q.dv == {} && forall x :: x in recs ==> x.key.seqno <= q.readSeq
    ensures match Lookup(recs, q)
            case None => forall y :: y in recs ==> y.key.uk != q.uk
            case Some(x) =>
              x in recs && x.key.uk == q.uk &&
              forall y :: y in recs && y.key.uk == q.uk ==> y.key.seqno <= x.key.seqno
  {
    hide Lookup;
    LookupIsNewest(recs, q);
    forall y | y in recs && y.key.uk == q.uk
      ensures Lookup(recs, q).Some? && y.key.seqno <= Lookup(recs, q).value.key.seqno
    {
      var k :| 0 <= k < |recs| && recs[k] == y;
      assert Hit(recs[k], k, q);
    }
  }

  /** A lookup in one memtable finds its newest version of the key. */
  lemma MemLookup(env: Env, m: Mem, uk: bytes, readSeq: nat)
    requires MemSound(env, m) && AllVisible(env, m, readSeq)
    ensures match Newest(env, m.slots, uk, readSeq)
            case None => !HasKey(env, m, uk)
            case Some(x) => x.key.uk == uk && x in Recs(env, m.slots) && TopIn(env, m, Canon(x))
  {
    hide Lookup, Recs, Valid, SlotOk, Decode;
    RecsSorted(env, m.slots);
    LookupTop(Recs(env, m.slots), Query(uk, readSeq, {}));
    match Newest(env, m.slots, uk, readSeq)
    case None =>
    case Some(x) =>
      assert InMem(env, m, Canon(x));
  }

  /** Everything in the memtable is visible to the flush. */
  lemma AllBelowMax(env: Env, m: Mem)
    requires MemOk(env, m)
    ensures AllVisible(env, m, SEQNUM_MAX)
  {
  }

  ghost predicate EntriesOf(env: Env, m: Mem, entries: seq<MemRec>)
    requires MemOk(env, m)
  {
    Lists(Recs(env, m.slots), |m.slots|, EVERYTHING, SEQNUM_MAX, {}, entries)
  }

  lemma EntryIsTop(env: Env, m: Mem, entries: seq<MemRec>, i: nat)
    requires MemSound(env, m) && EntriesOf(env, m, entries) && i < |entries|
    ensures entries[i] in Recs(env, m.slots) && TopIn(env, m, Canon(entries[i]))
  {
    hide MemSound, TopIn, Lookup;
    SoundIsOk(env, m);
    AllBelowMax(env, m);
    MemLookup(env, m, entries[i].key.uk, SEQNUM_MAX);
  }

  lemma SoundIsOk(env: Env, m: Mem)
    requires MemSound(env, m)
    ensures MemOk(env, m)
  {
  }

  lemma EveryKeyListed(env: Env, m: Mem, entries: seq<MemRec>, v: MemRec)
    requires MemOk(env, m) && EntriesOf(env, m, entries) && InMem(env, m, v)
    ensures Listed(entries, v.key.uk)
  {
    hide Recs, Lookup, Valid, SlotOk, Decode, Listed;
    AllBelowMax(env, m);
    var recs := Recs(env, m.slots);
    var x :| x in recs && Canon(x) == v;
    var k :| 0 <= k < |recs| && recs[k] == x;
    assert Hit(recs[k], k, Query(x.key.uk, SEQNUM_MAX, {}));
  }

  /** The rows written by a flush are the newest versions of the memtable. */
  lemma RowsAreImage(env: Env, pkOnly: bytes -> Row, m: Mem, entries: seq<MemRec>, file: File)
    requires MemSound(env, m) && EntriesOf(env, m, entries) && file.rows == Rows(pkOnly, entries)
    ensures Image(env, m, file)
  {
    hide MemSound, EntriesOf, TopIn, Rows;
    SoundIsOk(env, m);
    forall x | x in file.rows
      ensures TopIn(env, m, FromRow(x))
    {
      var i :| 0 <= i < |file.rows| && file.rows[i] == x;
      EntryIsTop(env, m, entries, i);
      RowCanon(env, pkOnly, m, entries[i]);
    }
    forall v | InMem(env, m, v)
      ensures exists x :: x in file.rows && x.key.uk == v.key.uk
    {
      EveryKeyListed(env, m, entries, v);
      var i :| 0 <= i < |entries| && entries[i].key.uk == v.key.uk;
      assert file.rows[i] in file.rows;
    }
  }

  lemma RowCanon(env: Env, pkOnly: bytes -> Row, m: Mem, e: MemRec)
    requires MemSound(env, m) && e in Recs(env, m.slots)
    ensures FromRow(RowFor(pkOnly, e)) == Canon(e)
  {
    assert InMem(env, m, Canon(e));
  }

  /** `x` is the newest record of its key, with all it was written with. */
  ghost predicate NewestRec(env: Env, m: Mem, x: MemRec)
    requires MemOk(env, m)
  {
    x in Recs(env, m.slots) &&
    forall y :: y in Recs(env, m.slots) && y.key.uk == x.key.uk ==> y.key.seqno <= x.key.seqno
  }

  lemma NewestIsListed(env: Env, m: Mem, entries: seq<MemRec>, x: MemRec)
    requires MemSound(env, m) && EntriesOf(env, m, entries)
    ensures x in entries <==> NewestRec(env, m, x)
  {
    hide Recs, Lookup, Valid, SlotOk, Decode, Listed, Less;
    AllBelowMax(env, m);
    RecsSorted(env, m.slots);
    var recs := Recs(env, m.slots);
    if NewestRec(env, m, x) {
      assert InMem(env, m, Canon(x));
      EveryKeyListed(env, m, entries, Canon(x));
      ListedKey(entries, x.key.uk);
      var i :| 0 <= i < |entries| && entries[i].key.uk == x.key.uk;
      LookupTop(recs, Query(x.key.uk, SEQNUM_MAX, {}));
      assert InMem(env, m, Canon(entries[i]));
      SameVersion(recs, entries[i], x);
    }
    if x in entries {
      LookupTop(recs, Query(x.key.uk, SEQNUM_MAX, {}));
    }
  }

  lemma ListedKey(entries: seq<MemRec>, uk: bytes)
    requires Listed(entries, uk)
    ensures exists i :: 0 <= i < |entries| && entries[i].key.uk == uk
  {
  }

  lemma SameVersion(recs: seq<MemRec>, x: MemRec, y: MemRec)
    requires Sorted(recs) && x in recs && y in recs && x.key == y.key
    ensures x == y
  {
    var i :| 0 <= i < |recs| && recs[i] == x;
    var j :| 0 <= j < |recs| && recs[j] == y;
    SamePlace(recs, i, j);
  }

  lemma SamePlace(recs: seq<MemRec>, i: nat, j: nat)
    requires Sorted(recs) && i < |recs| && j < |recs| && recs[i].key == recs[j].key
    ensures i == j
  {
    LessIrreflexive(recs[i].key.uk);
  }

  /** The rows are the newest record of every key, tombstones included, with key
      and payload. */
  lemma RowsSaveNewest(env: Env, pkOnly: bytes -> Row, m: Mem, entries: seq<MemRec>)
    requires MemSound(env, m) && EntriesOf(env, m, entries)
    ensures forall x :: NewestRec(env, m, x) ==> exists row :: row in Rows(pkOnly, entries) && Saves(pkOnly, x, row)
    ensures forall row :: row in Rows(pkOnly, entries) ==> exists x :: NewestRec(env, m, x) && Saves(pkOnly, x, row)
  {
    hide EntriesOf, NewestRec, Rows, MemSound;
    SoundIsOk(env, m);
    var rows := Rows(pkOnly, entries);
    forall x | NewestRec(env, m, x)
      ensures exists row :: row in rows && Saves(pkOnly, x, row)
    {
      NewestIsListed(env, m, entries, x);
      var i :| 0 <= i < |entries| && entries[i] == x;
      assert rows[i] in rows && Saves(pkOnly, x, rows[i]);
    }
    forall row | row in rows
      ensures exists x :: NewestRec(env, m, x) && Saves(pkOnly, x, row)
    {
      var i :| 0 <= i < |rows| && rows[i] == row;
      NewestIsListed(env, m, entries, entries[i]);
      assert Saves(pkOnly, entries[i], row);
    }
  }

  /** They are sorted, valid and have one row per key. */
  lemma RowsAreSorted(env: Env, pkOnly: bytes -> Row, m: Mem, entries: seq<MemRec>)
    requires MemSound(env, m) && EntriesOf(env, m, entries)
    ensures Sorted(Rows(pkOnly, entries)) && AllValid(env, Rows(pkOnly, entries))
    ensures forall i, j :: 0 <= i < j < |entries| ==> Rows(pkOnly, entries)[i].key.uk != Rows(pkOnly, entries)[j].key.uk
  {
    hide Rows, MemSound, TopIn, Less, Lookup;
    SoundIsOk(env, m);
    RecsSorted(env, m.slots);
    var rows := Rows(pkOnly, entries);
    forall i, j | 0 <= i < j < |rows|
      ensures VersionLess(rows[i].key, rows[j].key) && rows[i].key.uk != rows[j].key.uk
    {
      LessIrreflexive(rows[i].key.uk);
    }
    forall i | 0 <= i < |rows|
      ensures ValidKey(env, rows[i].key)
    {
      EntryIsTop(env, m, entries, i);
    }
  }
}
