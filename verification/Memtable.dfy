/** The in-memory write buffer (`memtable/skiplist.rs`, `iterator.rs`,
    `memtable.rs`, `manager.rs`).

    A memtable is a map from encoded internal keys to values, kept in byte
    order. It never looks at the structure of a key except to split off the
    8-byte tag, so that lookups and iteration see the newest version first rests
    on the byte order of internal keys.
 */
module Memtable {
  import opened Wrappers
  import opened ByteStrings
  import opened Keys
  import opened Table
  import opened Visibility

  // ── Entries ───────────────────────────────────────────────────────────────

  /** A Put carries its row, a Delete the row it removed, if there was one. */
  datatype EntryValue = EntryValue(op: Op, value: Option<Row>)

  datatype Slot = Slot(key: bytes, val: EntryValue)

  type MemRec = Stored<Option<Row>>

  /** The slot's key is the encoding of a version of some primary key. Counter
      values stay below SEQNUM_MAX, which is reserved for seeking. */
  ghost predicate SlotOk(env: Env, s: Slot) {
    |s.key| >= 8 && 0 <= SeqOf(s.key) < SEQNUM_MAX && IsUserKey(UserKeyOf(s.key), env.keyTypes) &&
    s.key == EncodeIkey(InternalKey(UserKeyOf(s.key), SeqOf(s.key), s.val.op))
  }

  ghost function Decode(s: Slot): MemRec
    requires |s.key| >= 8 && SeqOf(s.key) >= 0
  {
    Stored(InternalKey(UserKeyOf(s.key), SeqOf(s.key), s.val.op), s.val.value)
  }

  ghost predicate KeysAscend(slots: seq<Slot>) {
    forall i, j :: 0 <= i < j < |slots| ==> Less(slots[i].key, slots[j].key)
  }

  ghost predicate Valid(env: Env, slots: seq<Slot>) {
    KeysAscend(slots) && forall i :: 0 <= i < |slots| ==> SlotOk(env, slots[i])
  }

  /** The stored versions, in order. */
  ghost function Recs(env: Env, slots: seq<Slot>): (recs: seq<MemRec>)
    requires Valid(env, slots)
    ensures |recs| == |slots|
    ensures forall i :: 0 <= i < |slots| ==> SlotOk(env, slots[i]) && recs[i] == Decode(slots[i])
  {
    assert forall i :: 0 <= i < |slots| ==> SlotOk(env, slots[i]);
    seq(|slots|, i requires 0 <= i < |slots| => Decode(slots[i]))
  }

  /** Byte order puts user keys in ascending order, newest version first. */
  lemma RecsSorted(env: Env, slots: seq<Slot>)
    requires Valid(env, slots)
    ensures Sorted(Recs(env, slots)) && AllValid(env, Recs(env, slots))
  {
    hide EncodeIkey, Less, IsUserKey;
    var recs := Recs(env, slots);
    forall i, j | 0 <= i < j < |recs|
      ensures VersionLess(recs[i].key, recs[j].key)
    {
      assert SlotOk(env, slots[i]) && SlotOk(env, slots[j]);
      InternalKeyOrder(recs[i].key, recs[j].key, env.keyTypes);
    }
  }

  /** What a reader at `readSeq` finds in one memtable. */
  ghost function Newest(env: Env, slots: seq<Slot>, uk: bytes, readSeq: nat): Option<MemRec>
    requires Valid(env, slots)
  {
    Lookup(Recs(env, slots), Query(uk, readSeq, {}))
  }

  function AsEntry(rec: Option<MemRec>): Option<EntryValue> {
    match rec
    case None => None
    case Some(r) => Some(EntryValue(r.key.op, r.val))
  }

  // ── Lookup ────────────────────────────────────────────────────────────────

  /** `user_key ++ SEEK_TAG`, before every version of the key. */
  function SeekKey(uk: bytes): bytes {
    uk + [0, 0, 0, 0, 0, 0, 0, 1]
  }

  lemma SeekKeyIsNewest(uk: bytes)
    ensures SeekKey(uk) == EncodeIkey(InternalKey(uk, SEQNUM_MAX, Put))
  {
    assert ToBe(1, 8) == [0, 0, 0, 0, 0, 0, 0, 1] by {
      assert ToBe(0, 3) == [0, 0, 0];
      assert ToBe(0, 5) == ToBe(0, 3) + [0] + [0];
      assert ToBe(0, 7) == ToBe(0, 5) + [0] + [0];
    }
  }

  /** `lower_bound(Included(key))` of the ordered map. */
  method LowerBound(slots: seq<Slot>, key: bytes) returns (i: nat)
    ensures i <= |slots|
    ensures forall j :: 0 <= j < i ==> Less(slots[j].key, key)
    ensures i < |slots| ==> !Less(slots[i].key, key)
  {
    i := 0;
    while i < |slots| && Less(slots[i].key, key)
      invariant i <= |slots|
      invariant forall j :: 0 <= j < i ==> Less(slots[j].key, key)
    {
      i := i + 1;
    }
  }

  /** Entries before the seek position belong to smaller user keys. */
  lemma BeforeSeek(env: Env, s: Slot, uk: bytes)
    requires SlotOk(env, s) && IsUserKey(uk, env.keyTypes)
    ensures Less(s.key, SeekKey(uk)) <==> Less(UserKeyOf(s.key), uk)
  {
    hide EncodeIkey, SeekKey, Less, IsUserKey;
    SeekKeyIsNewest(uk);
    InternalKeyOrder(Decode(s).key, InternalKey(uk, SEQNUM_MAX, Put), env.keyTypes);
  }

  /** Comparing a prefix of the stored key identifies the user key. */
  lemma PrefixIdentifies(env: Env, s: Slot, uk: bytes)
    requires SlotOk(env, s) && IsUserKey(uk, env.keyTypes)
    ensures UserKeyOf(s.key) == uk <==> |s.key| >= |uk| + 8 && s.key[..|uk|] == uk
  {
    hide EncodeIkey, IsUserKey, SeqOf;
    if |s.key| >= |uk| + 8 && s.key[..|uk|] == uk {
      assert UserKeyOf(s.key)[..|uk|] == uk;
      UserKeysPrefixFree(uk, UserKeyOf(s.key), env.keyTypes);
    }
  }

  /** Skip-list lookup: the newest version not above `readSeq`. */
  method Get(ghost env: Env, slots: seq<Slot>, uk: bytes, readSeq: nat) returns (r: Option<EntryValue>)
    requires Valid(env, slots) && IsUserKey(uk, env.keyTypes)
    ensures r == AsEntry(Newest(env, slots, uk, readSeq))
  {
    hide EncodeIkey, IsUserKey, SeqOf, Less, SeekKey;
    var i := LowerBound(slots, SeekKey(uk));
    ghost var recs, q := Recs(env, slots), Query(uk, readSeq, {});
    forall j | 0 <= j < i
      ensures !Hit(recs[j], 0 + j, q)
    {
      BeforeSeek(env, slots[j], uk);
      LessIrreflexive(uk);
    }
    NoHitBefore(recs, 0, i, 0, q);
    while i < |slots|
      invariant i <= |slots|
      invariant Newest(env, slots, uk, readSeq) == FirstVisible(recs, i, 0, q)
      invariant i < |slots| ==> !Less(slots[i].key, SeekKey(uk))
    {
      var found := slots[i].key;
      assert SlotOk(env, slots[i]);
      PrefixIdentifies(env, slots[i], uk);
      if |found| < |uk| + 8 || found[..|uk|] != uk {
        PastKey(env, slots, i, q);
        return None;
      }
      if SeqOf(found) <= readSeq {
        return Some(slots[i].val);
      }
      i := i + 1;
      if i < |slots| { SeekStays(slots, i, SeekKey(uk)); }
    }
    return None;
  }

  lemma SeekStays(slots: seq<Slot>, i: nat, seek: bytes)
    requires KeysAscend(slots) && 0 < i < |slots| && !Less(slots[i - 1].key, seek)
    ensures !Less(slots[i].key, seek)
  {
    hide Less;
    if Less(slots[i].key, seek) { LessTransitive(slots[i - 1].key, slots[i].key, seek); }
  }

  /** Once the scan meets another user key, the key has no more versions. */
  lemma PastKey(env: Env, slots: seq<Slot>, i: nat, q: Query)
    requires Valid(env, slots) && i < |slots| && IsUserKey(q.uk, env.keyTypes)
    requires !Less(slots[i].key, SeekKey(q.uk)) && SlotOk(env, slots[i]) && UserKeyOf(slots[i].key) != q.uk
    ensures FirstVisible(Recs(env, slots), i, 0, q) == None
  {
    hide EncodeIkey, IsUserKey, SeqOf, Less, SeekKey;
    var recs := Recs(env, slots);
    RecsSorted(env, slots);
    BeforeSeek(env, slots[i], q.uk);
    AtMostLess(q.uk, recs[i].key.uk);
    forall j: nat | i <= j < |recs|
      ensures !Hit(recs[j], 0 + j, q)
    {
      SortedUserKeys(recs, i, j);
    }
    NoHitBefore(recs, i, |recs|, 0, q);
  }

  // ── Iteration ─────────────────────────────────────────────────────────────

  const EVERYTHING: Range := Range(None, None)

  /** `MemtableIterator`. */
  class MemtableIterator {
    const slots: seq<Slot>
    const readSeq: nat
    var pos: nat
    var last: Option<bytes>
    ghost const env: Env
    ghost var yielded: seq<MemRec>

    ghost predicate Ready()
      reads this
    {
      Valid(env, slots) && pos <= |slots| &&
      Lists(Recs(env, slots), pos, EVERYTHING, readSeq, {}, yielded) &&
      last == if yielded == [] then None else Some(yielded[|yielded| - 1].key.uk)
    }

    constructor (ghost env: Env, slots: seq<Slot>, readSeq: nat)
      requires Valid(env, slots)
      ensures Ready() && yielded == [] && this.env == env && this.slots == slots && this.readSeq == readSeq
    {
      this.env, this.slots, this.readSeq := env, slots, readSeq;
      pos, last, yielded := 0, None, [];
      new;
      ListsEmpty(Recs(env, slots), EVERYTHING, readSeq, {});
    }

    /** Yields each key once, in ascending order, with the version a lookup
        finds; tombstones included. */
    method NextEntry() returns (e: Option<MemRec>)
      requires Ready()
      modifies this
      ensures Ready()
      ensures e.None? ==> pos == |slots| && yielded == old(yielded)
      ensures e.Some? ==> pos > old(pos) && yielded == old(yielded) + [e.value]
    {
      hide Lists, SeqOf;
      RecsSorted(env, slots);
      ghost var recs := Recs(env, slots);
      while pos < |slots|
        invariant Ready() && yielded == old(yielded)
        invariant pos >= old(pos)
        decreases |slots| - pos
      {
        var s := slots[pos];
        assert SlotOk(env, s) && recs[pos] == Decode(s);
        var seqno, uk := SeqOf(s.key), UserKeyOf(s.key);
        if seqno > readSeq {
          ListsSkip(recs, pos, EVERYTHING, readSeq, {}, yielded);
          pos := pos + 1;
          continue;
        }
        if last == Some(uk) {
          assert yielded[|yielded| - 1].key.uk == uk;
          ListsSkip(recs, pos, EVERYTHING, readSeq, {}, yielded);
          pos := pos + 1;
          continue;
        }
        FreshKeyIsFirst(recs, pos, EVERYTHING, readSeq, {}, yielded);
        last := Some(uk);
        e := Some(Stored(InternalKey(uk, seqno, s.val.op), s.val.value));
        yielded := yielded + [e.value];
        pos := pos + 1;
        return;
      }
      return None;
    }
  }

  /** `iter(read_seq).collect()`. */
  method IterAll(ghost env: Env, slots: seq<Slot>, readSeq: nat) returns (out: seq<MemRec>)
    requires Valid(env, slots)
    ensures Lists(Recs(env, slots), |slots|, EVERYTHING, readSeq, {}, out)
  {
    hide Lists;
    var it := new MemtableIterator(env, slots, readSeq);
    out := [];
    var e := it.NextEntry();
    while e.Some?
      invariant it.Ready() && it.env == env && it.slots == slots && it.readSeq == readSeq
      invariant fresh(it)
      invariant e.Some? ==> it.yielded == out + [e.value]
      invariant e.None? ==> it.yielded == out && it.pos == |slots|
      decreases |slots| - it.pos, e.Some?
    {
      out := out + [e.value];
      e := it.NextEntry();
    }
  }

  // ── Insertion ─────────────────────────────────────────────────────────────

  /** Insertion into the ordered map; an equal key is replaced. */
  function Insert(slots: seq<Slot>, s: Slot): seq<Slot> {
    if slots == [] then [s]
    else if Less(s.key, slots[0].key) then [s] + slots
    else if s.key == slots[0].key then [s] + slots[1..]
    else [slots[0]] + Insert(slots[1..], s)
  }

  lemma {:induction false} InsertMembers(slots: seq<Slot>, s: Slot, x: Slot)
    requires KeysAscend(slots)
    ensures x in Insert(slots, s) <==> x == s || (x in slots && x.key != s.key)
  {
    hide Less;
    if slots != [] {
      var rest := slots[1..];
      assert slots == [slots[0]] + rest;
      assert forall i, j :: 0 <= i < j < |rest| ==> rest[i] == slots[i + 1] && rest[j] == slots[j + 1];
      if Less(s.key, slots[0].key) {
        NotAbove(slots, s.key);
      } else if s.key == slots[0].key {
        LessIrreflexive(s.key);
        forall y | y in rest
          ensures y.key != s.key
        {
          var i :| 0 <= i < |rest| && y == rest[i];
          assert Less(slots[0].key, slots[i + 1].key);
        }
      } else {
        InsertMembers(rest, s, x);
      }
    }
  }

  lemma NotAbove(slots: seq<Slot>, key: bytes)
    requires KeysAscend(slots) && slots != [] && Less(key, slots[0].key)
    ensures forall x :: x in slots ==> Less(key, x.key) && x.key != key
  {
    hide Less;
    forall x | x in slots
      ensures Less(key, x.key) && x.key != key
    {
      var i :| 0 <= i < |slots| && x == slots[i];
      if i > 0 { LessTransitive(key, slots[0].key, slots[i].key); }
      LessAsymmetric(key, x.key);
    }
  }

  lemma {:induction false} InsertAscends(slots: seq<Slot>, s: Slot)
    requires KeysAscend(slots)
    ensures KeysAscend(Insert(slots, s))
  {
    hide Less;
    if slots != [] {
      var rest := slots[1..];
      assert forall i, j :: 0 <= i < j < |rest| ==> rest[i] == slots[i + 1] && rest[j] == slots[j + 1];
      if Less(s.key, slots[0].key) {
        NotAbove(slots, s.key);
      } else if s.key != slots[0].key {
        InsertAscends(rest, s);
        LessTotal(slots[0].key, s.key);
        var tail := Insert(rest, s);
        forall i | 0 <= i < |tail|
          ensures Less(slots[0].key, tail[i].key)
        {
          InsertMembers(rest, s, tail[i]);
          if tail[i] in rest {
            var j :| 0 <= j < |rest| && rest[j] == tail[i];
            assert Less(slots[0].key, slots[j + 1].key);
          }
        }
      }
    }
  }

  lemma InsertValid(env: Env, slots: seq<Slot>, s: Slot)
    requires Valid(env, slots) && SlotOk(env, s)
    ensures Valid(env, Insert(slots, s))
  {
    hide SlotOk, Insert;
    InsertAscends(slots, s);
    forall i | 0 <= i < |Insert(slots, s)|
      ensures SlotOk(env, Insert(slots, s)[i])
    {
      InsertMembers(slots, s, Insert(slots, s)[i]);
    }
  }

  // ── Batches ───────────────────────────────────────────────────────────────

  datatype BatchRec = BatchRec(op: Op, uk: bytes, value: Option<Row>)

  datatype WriteBatch = WriteBatch(sequence: nat, records: seq<BatchRec>)

  datatype Mem = Mem(slots: seq<Slot>, firstSeq: nat, lastSeq: nat, sealed: bool)

  function Fresh(firstSeq: nat): Mem {
    Mem([], firstSeq, firstSeq, false)
  }

  function SlotFor(rec: BatchRec, seqno: nat): Slot
    requires seqno <= SEQNUM_MAX
  {
    Slot(rec.uk + Tag(seqno, rec.op), EntryValue(rec.op, rec.value))
  }

  /** The memtable after the first `n` records of a batch. */
  function Applied(m: Mem, batch: WriteBatch, n: nat): Mem
    requires n <= |batch.records| && batch.sequence + |batch.records| <= SEQNUM_MAX
  {
    if n == 0 then m
    else
      var before, seqno := Applied(m, batch, n - 1), batch.sequence + n - 1;
      before.(slots := Insert(before.slots, SlotFor(batch.records[n - 1], seqno)),
              lastSeq := if seqno > before.lastSeq then seqno else before.lastSeq)
  }

  method ApplyBatch(m: Mem, batch: WriteBatch) returns (after: Mem)
    requires !m.sealed && batch.sequence + |batch.records| <= SEQNUM_MAX
    ensures after == Applied(m, batch, |batch.records|)
  {
    after := m;
    var seqno := batch.sequence;
    for i := 0 to |batch.records|
      invariant seqno == batch.sequence + i
      invariant after == Applied(m, batch, i)
    {
      var slot := SlotFor(batch.records[i], seqno);
      after := after.(slots := Insert(after.slots, slot),
                      lastSeq := if seqno > after.lastSeq then seqno else after.lastSeq);
      seqno := seqno + 1;
    }
  }

  ghost predicate SeqsBelow(env: Env, slots: seq<Slot>, bound: nat) {
    forall i :: 0 <= i < |slots| ==> SlotOk(env, slots[i]) && SeqOf(slots[i].key) < bound
  }

  lemma SlotForOk(env: Env, rec: BatchRec, seqno: nat)
    requires IsUserKey(rec.uk, env.keyTypes) && seqno < SEQNUM_MAX
    ensures SlotOk(env, SlotFor(rec, seqno))
    ensures Decode(SlotFor(rec, seqno)) == Stored(InternalKey(rec.uk, seqno, rec.op), rec.value)
    ensures SeqOf(SlotFor(rec, seqno).key) == seqno
  {
    hide IsUserKey, SeqOf, UserKeyOf, Tag;
    IkeyRoundTrip(InternalKey(rec.uk, seqno, rec.op));
  }

  /** A version newer than all others becomes what lookups of its key find, and
      changes no other lookup. */
  lemma InsertLookup(env: Env, slots: seq<Slot>, s: Slot, uk: bytes, readSeq: nat)
    requires Valid(env, slots) && SlotOk(env, s) && SeqsBelow(env, slots, SeqOf(s.key)) && SeqOf(s.key) <= readSeq
    ensures Valid(env, Insert(slots, s))
    ensures Newest(env, Insert(slots, s), uk, readSeq) ==
            if uk == UserKeyOf(s.key) then Some(Decode(s)) else Newest(env, slots, uk, readSeq)
  {
    hide Insert, IsUserKey, SeqOf, UserKeyOf, EncodeIkey, Less, Lookup;
    InsertValid(env, slots, s);
    var before, after := Recs(env, slots), Recs(env, Insert(slots, s));
    RecsSorted(env, slots);
    RecsSorted(env, Insert(slots, s));
    forall rec: MemRec
      ensures rec in after <==> rec == Decode(s) || rec in before
    {
      InsertedRecs(env, slots, s, rec);
    }
    var q := Query(uk, readSeq, {});
    if uk == UserKeyOf(s.key) {
      NewestByMembership(after, q, Decode(s));
    } else {
      LookupByMembership(before, after, q);
    }
  }

  /** The record at position `k` of the batch, as it is stored. */
  function AsStored(batch: WriteBatch, k: nat): MemRec
    requires k < |batch.records|
  {
    var rec := batch.records[k];
    Stored(InternalKey(rec.uk, batch.sequence + k, rec.op), rec.value)
  }

  ghost predicate InBatch(batch: WriteBatch, n: nat, x: MemRec)
    requires n <= |batch.records|
  {
    exists k :: 0 <= k < n && x == AsStored(batch, k)
  }

  /** The memtable gains exactly the batch's records, numbered consecutively, with
      all they were written with. */
  lemma {:induction false} AppliedRecs(env: Env, m: Mem, batch: WriteBatch, n: nat)
    requires n <= |batch.records| && batch.sequence + |batch.records| <= SEQNUM_MAX
    requires Valid(env, m.slots) && SeqsBelow(env, m.slots, batch.sequence)
    requires forall k :: 0 <= k < |batch.records| ==> IsUserKey(batch.records[k].uk, env.keyTypes)
    ensures Valid(env, Applied(m, batch, n).slots) && SeqsBelow(env, Applied(m, batch, n).slots, batch.sequence + n)
    ensures forall x :: x in Recs(env, Applied(m, batch, n).slots) <==> x in Recs(env, m.slots) || InBatch(batch, n, x)
    ensures Applied(m, batch, n).firstSeq == m.firstSeq && Applied(m, batch, n).sealed == m.sealed
    ensures n > 0 && m.lastSeq < batch.sequence ==> Applied(m, batch, n).lastSeq == batch.sequence + n - 1
  {
    hide Insert, IsUserKey, SlotOk, Recs, Valid, SlotFor, SeqOf, UserKeyOf;
    if n > 0 {
      AppliedRecs(env, m, batch, n - 1);
      var before, seqno, rec := Applied(m, batch, n - 1), batch.sequence + n - 1, batch.records[n - 1];
      var slot := SlotFor(rec, seqno);
      SlotForOk(env, rec, seqno);
      InsertBelow(env, before.slots, slot, seqno + 1);
      forall x
        ensures InBatch(batch, n, x) <==> InBatch(batch, n - 1, x) || x == AsStored(batch, n - 1)
      {
        if InBatch(batch, n - 1, x) {
          var k :| 0 <= k < n - 1 && x == AsStored(batch, k);
          assert InBatch(batch, n, x);
        }
        assert x == AsStored(batch, n - 1) ==> InBatch(batch, n, x);
      }
    }
  }

  lemma InsertBelow(env: Env, slots: seq<Slot>, s: Slot, bound: nat)
    requires Valid(env, slots) && SlotOk(env, s) && SeqsBelow(env, slots, SeqOf(s.key)) && SeqOf(s.key) < bound
    ensures Valid(env, Insert(slots, s)) && SeqsBelow(env, Insert(slots, s), bound)
    ensures forall x :: x in Recs(env, Insert(slots, s)) <==> x == Decode(s) || x in Recs(env, slots)
  {
    hide Insert, IsUserKey, SeqOf, UserKeyOf, EncodeIkey, Less;
    InsertValid(env, slots, s);
    var all := Insert(slots, s);
    forall x
      ensures x in Recs(env, all) <==> x == Decode(s) || x in Recs(env, slots)
    {
      InsertedRecs(env, slots, s, x);
    }
    forall i | 0 <= i < |all|
      ensures SlotOk(env, all[i]) && SeqOf(all[i].key) < bound
    {
      InsertMembers(slots, s, all[i]);
    }
  }

  lemma InsertedRecs(env: Env, slots: seq<Slot>, s: Slot, rec: MemRec)
    requires Valid(env, slots) && SlotOk(env, s) && SeqsBelow(env, slots, SeqOf(s.key)) && Valid(env, Insert(slots, s))
    ensures rec in Recs(env, Insert(slots, s)) <==> rec == Decode(s) || rec in Recs(env, slots)
  {
    hide Insert, IsUserKey, SeqOf, UserKeyOf, EncodeIkey, Less;
    var all := Insert(slots, s);
    InsertMembers(slots, s, s);
    if rec in Recs(env, all) {
      var i :| 0 <= i < |all| && Recs(env, all)[i] == rec;
      InsertMembers(slots, s, all[i]);
      if all[i] in slots {
        var j :| 0 <= j < |slots| && slots[j] == all[i];
        assert Recs(env, slots)[j] == rec;
      }
    }
    if rec in Recs(env, slots) {
      var j :| 0 <= j < |slots| && Recs(env, slots)[j] == rec;
      InsertMembers(slots, s, slots[j]);
      var i :| 0 <= i < |all| && all[i] == slots[j];
      assert Recs(env, all)[i] == rec;
    }
    var k :| 0 <= k < |all| && all[k] == s;
    assert Recs(env, all)[k] == Decode(s);
  }

  // ── The manager ───────────────────────────────────────────────────────────

  /** The queue without the memtables that start at `firstSeq`. */
  function Retain(queue: seq<Mem>, firstSeq: nat): seq<Mem> {
    if queue == [] then []
    else if queue[0].firstSeq != firstSeq then [queue[0]] + Retain(queue[1..], firstSeq)
    else Retain(queue[1..], firstSeq)
  }

  lemma {:induction false} RetainAll(queue: seq<Mem>, firstSeq: nat)
    ensures |Retain(queue, firstSeq)| <= |queue|
    ensures Retain(queue, firstSeq) == queue <==> forall i :: 0 <= i < |queue| ==> queue[i].firstSeq != firstSeq
  {
    if queue != [] {
      RetainAll(queue[1..], firstSeq);
      assert queue == [queue[0]] + queue[1..];
      if queue[0].firstSeq != firstSeq {
        assert Retain(queue, firstSeq)[1..] == Retain(queue[1..], firstSeq);
      }
    }
  }

  /** Dropping the flushed memtable removes exactly that one if and only if no
      other queued memtable starts at the same sequence number. */
  lemma DropExact(queue: seq<Mem>)
    requires queue != []
    ensures Retain(queue, queue[0].firstSeq) == queue[1..] <==>
            forall i :: 0 < i < |queue| ==> queue[i].firstSeq != queue[0].firstSeq
  {
    RetainAll(queue[1..], queue[0].firstSeq);
    assert forall i :: 0 < i < |queue| ==> queue[i] == queue[1..][i - 1];
  }

  ghost predicate MemOk(env: Env, m: Mem) {
    Valid(env, m.slots)
  }

  ghost predicate QueueOk(env: Env, queue: seq<Mem>) {
    forall i :: 0 <= i < |queue| ==> MemOk(env, queue[i])
  }

  /** What a reader finds in the newest `n` of the queued memtables... */
  ghost function QueueNewest(env: Env, queue: seq<Mem>, n: nat, uk: bytes, readSeq: nat): Option<MemRec>
    requires n <= |queue| && QueueOk(env, queue)
  {
    if n == 0 then None
    else
      assert MemOk(env, queue[n - 1]);
      var here := Newest(env, queue[n - 1].slots, uk, readSeq);
      if here.Some? then here else QueueNewest(env, queue, n - 1, uk, readSeq)
  }

  /** ...and in the active memtable first. */
  ghost function MemNewest(env: Env, active: Mem, queue: seq<Mem>, uk: bytes, readSeq: nat): Option<MemRec>
    requires MemOk(env, active) && QueueOk(env, queue)
  {
    var here := Newest(env, active.slots, uk, readSeq);
    if here.Some? then here else QueueNewest(env, queue, |queue|, uk, readSeq)
  }

  class MemtableManager {
    var active: Mem
    var immutable: seq<Mem>

    ghost predicate Ok(env: Env)
      reads this
    {
      MemOk(env, active) && !active.sealed && QueueOk(env, immutable)
    }

    constructor (firstSeq: nat)
      ensures active == Fresh(firstSeq) && immutable == []
    {
      active, immutable := Fresh(firstSeq), [];
    }

    method Apply(batch: WriteBatch)
      requires !active.sealed && batch.sequence + |batch.records| <= SEQNUM_MAX
      modifies this
      ensures active == Applied(old(active), batch, |batch.records|) && immutable == old(immutable)
    {
      active := ApplyBatch(active, batch);
    }

    /** Seals the active memtable, queues it and opens a new one. */
    method Rotate(newFirstSeq: nat)
      modifies this
      ensures active == Fresh(newFirstSeq)
      ensures immutable == old(immutable) + [old(active).(sealed := true)]
    {
      var sealed := active.(sealed := true);
      active := Fresh(newFirstSeq);
      immutable := immutable + [sealed];
    }

    method DropFlushed(firstSeq: nat)
      modifies this
      ensures immutable == Retain(old(immutable), firstSeq) && active == old(active)
    {
      var kept: seq<Mem> := [];
      for i := 0 to |immutable|
        invariant immutable == old(immutable) && active == old(active)
        invariant kept + Retain(immutable[i..], firstSeq) == Retain(immutable, firstSeq)
      {
        assert immutable[i..][1..] == immutable[i + 1..];
        if immutable[i].firstSeq != firstSeq {
          kept := kept + [immutable[i]];
        }
      }
      assert immutable[|immutable|..] == [];
      immutable := kept;
    }

    /** Active first, then the queue from newest to oldest. */
    method GetEntry(ghost env: Env, uk: bytes, readSeq: nat) returns (r: Option<EntryValue>)
      requires Ok(env) && IsUserKey(uk, env.keyTypes)
      ensures r == AsEntry(MemNewest(env, active, immutable, uk, readSeq))
    {
      hide Newest, Valid, IsUserKey;
      r := Get(env, active.slots, uk, readSeq);
      if r.Some? { return; }
      var n := |immutable|;
      while n > 0
        invariant 0 <= n <= |immutable| && r.None?
        invariant MemNewest(env, active, immutable, uk, readSeq) == QueueNewest(env, immutable, n, uk, readSeq)
      {
        assert MemOk(env, immutable[n - 1]);
        r := Get(env, immutable[n - 1].slots, uk, readSeq);
        if r.Some? { return; }
        n := n - 1;
      }
    }
  }
}
