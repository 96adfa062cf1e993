/** Which version of a key a reader sees, and listings of all visible keys.

    Memtables and data files are both sorted runs of versions. A lookup takes
    the first version of the key that is not masked and not newer than the read
    sequence number; a scan lists, for every key in a range, what a lookup of
    the key would find.
 */
module Visibility {
  import opened Wrappers
  import opened ByteStrings
  import opened Keys
  import opened Table

  // ── The reference: walk all rows ──────────────────────────────────────────

  /** A lookup: user key, read sequence number, deletion vector. */
  datatype Query = Query(uk: bytes, readSeq: nat, dv: set<nat>)

  /** Deletion vectors hold 32-bit positions; later rows cannot be masked. */
  predicate Masked(dv: set<nat>, pos: nat) {
    pos < U32 && pos in dv
  }

  predicate Hit<T>(rec: Stored<T>, pos: nat, q: Query) {
    !Masked(q.dv, pos) && rec.key.uk == q.uk && rec.key.seqno <= q.readSeq
  }

  /** The first hit among `rows[i..]`, where `rows[0]` is at position `base`. */
  function FirstVisible<T>(rows: seq<Stored<T>>, i: nat, base: nat, q: Query): Option<Stored<T>>
    decreases |rows| - i
  {
    if i >= |rows| then None
    else if Hit(rows[i], base + i, q) then Some(rows[i])
    else FirstVisible(rows, i + 1, base, q)
  }

  /** Looking a key up by walking all rows. */
  function Lookup<T>(rows: seq<Stored<T>>, q: Query): Option<Stored<T>> {
    FirstVisible(rows, 0, 0, q)
  }

  lemma {:induction false} NoHitBefore<T>(rows: seq<Stored<T>>, i: nat, j: nat, base: nat, q: Query)
    requires i <= j <= |rows|
    requires forall k :: i <= k < j ==> !Hit(rows[k], base + k, q)
    ensures FirstVisible(rows, i, base, q) == FirstVisible(rows, j, base, q)
    decreases j - i
  {
    if i < j { NoHitBefore(rows, i + 1, j, base, q); }
  }

  lemma {:induction false} FirstVisibleIs<T>(rows: seq<Stored<T>>, i: nat, base: nat, q: Query)
    ensures match FirstVisible(rows, i, base, q)
            case None => forall k :: i <= k < |rows| ==> !Hit(rows[k], base + k, q)
            case Some(rec) =>
              exists k :: i <= k < |rows| && rec == rows[k] && Hit(rows[k], base + k, q) &&
                          forall j :: i <= j < k ==> !Hit(rows[j], base + j, q)
    decreases |rows| - i
  {
    if i < |rows| && !Hit(rows[i], base + i, q) {
      FirstVisibleIs(rows, i + 1, base, q);
      match FirstVisible(rows, i + 1, base, q)
      case None =>
      case Some(rec) =>
        var k :| i + 1 <= k < |rows| && rec == rows[k] && Hit(rows[k], base + k, q) &&
                 forall j :: i + 1 <= j < k ==> !Hit(rows[j], base + j, q);
        assert forall j :: i <= j < k ==> !Hit(rows[j], base + j, q);
    }
  }

  /** The walk finds the newest version that is unmasked and not newer than the
      read sequence number. */
  lemma LookupIsNewest<T>(rows: seq<Stored<T>>, q: Query)
    requires Sorted(rows)
    ensures match Lookup(rows, q)
            case None => forall k :: 0 <= k < |rows| ==> !Hit(rows[k], k, q)
            case Some(rec) =>
              exists k :: 0 <= k < |rows| && rec == rows[k] && Hit(rows[k], k, q) &&
                          forall j :: 0 <= j < |rows| && j != k && Hit(rows[j], j, q) ==>
                            rows[j].key.seqno <= rec.key.seqno
  {
    FirstVisibleIs(rows, 0, 0, q);
    match Lookup(rows, q)
    case None =>
    case Some(rec) =>
      var k :| 0 <= k < |rows| && rec == rows[k] && Hit(rows[k], 0 + k, q) &&
               forall j :: 0 <= j < k ==> !Hit(rows[j], 0 + j, q);
      forall j | 0 <= j < |rows| && j != k && Hit(rows[j], j, q)
        ensures rows[j].key.seqno <= rec.key.seqno
      {
        assert j > k;
        assert VersionLess(rows[k].key, rows[j].key);
        LessIrreflexive(q.uk);
      }
  }

  /** A version in the run that is newer than all others of its key is found. */
  lemma NewestByMembership<T>(rows: seq<Stored<T>>, q: Query, rec: Stored<T>)
    requires Sorted(rows) && q.dv == {} && rec in rows && rec.key.uk == q.uk && rec.key.seqno <= q.readSeq
    requires forall x :: x in rows && x.key.uk == q.uk && x.key.seqno <= q.readSeq && x != rec ==>
               x.key.seqno < rec.key.seqno
    ensures Lookup(rows, q) == Some(rec)
  {
    LookupIsNewest(rows, q);
    var k :| 0 <= k < |rows| && rows[k] == rec;
    assert Hit(rows[k], k, q);
    var j :| 0 <= j < |rows| && Lookup(rows, q).value == rows[j] && Hit(rows[j], j, q) &&
             forall i :: 0 <= i < |rows| && i != j && Hit(rows[i], i, q) ==>
               rows[i].key.seqno <= rows[j].key.seqno;
    assert j != k ==> rows[k].key.seqno <= rows[j].key.seqno;
  }

  /** Without a deletion vector, two sorted runs that agree on the versions of
      a key agree on its lookup. */
  lemma LookupByMembership<T>(a: seq<Stored<T>>, b: seq<Stored<T>>, q: Query)
    requires Sorted(a) && Sorted(b) && q.dv == {}
    requires forall x :: x in a && x.key.uk == q.uk ==> x in b
    requires forall x :: x in b && x.key.uk == q.uk ==> x in a
    ensures Lookup(a, q) == Lookup(b, q)
  {
    FirstVisibleIs(a, 0, 0, q);
    FirstVisibleIs(b, 0, 0, q);
    if Lookup(a, q).Some? { VisibleIsFound(b, q, Lookup(a, q).value); }
    if Lookup(b, q).Some? { VisibleIsFound(a, q, Lookup(b, q).value); }
    if Lookup(a, q).Some? {
      var x, y := Lookup(a, q).value, Lookup(b, q).value;
      FoundAtMost(a, q, x, y);
      FoundAtMost(b, q, y, x);
      if x != y { VersionAntisymmetric(x.key, y.key); }
    }
  }

  lemma VisibleIsFound<T>(rows: seq<Stored<T>>, q: Query, x: Stored<T>)
    requires q.dv == {} && x in rows && x.key.uk == q.uk && x.key.seqno <= q.readSeq
    ensures Lookup(rows, q).Some?
  {
    FirstVisibleIs(rows, 0, 0, q);
    var k :| 0 <= k < |rows| && rows[k] == x;
    assert Hit(rows[k], 0 + k, q);
  }

  /** The found version comes before any other visible one. */
  lemma FoundAtMost<T>(rows: seq<Stored<T>>, q: Query, x: Stored<T>, y: Stored<T>)
    requires Sorted(rows) && q.dv == {} && Lookup(rows, q) == Some(x)
    requires y in rows && y.key.uk == q.uk && y.key.seqno <= q.readSeq
    ensures x == y || VersionLess(x.key, y.key)
  {
    FirstVisibleIs(rows, 0, 0, q);
    var k :| 0 <= k < |rows| && x == rows[k] && Hit(rows[k], 0 + k, q) &&
             forall j :: 0 <= j < k ==> !Hit(rows[j], 0 + j, q);
    var j :| 0 <= j < |rows| && rows[j] == y;
    assert Hit(rows[j], 0 + j, q);
  }

  lemma VersionAntisymmetric(j: InternalKey, k: InternalKey)
    requires VersionLess(j, k)
    ensures !VersionLess(k, j) && j != k
  {
    LessIrreflexive(j.uk);
    if Less(j.uk, k.uk) { LessAsymmetric(j.uk, k.uk); }
  }

  // ── Listings ────────────────────────────────────────────────

  /** `[start, end)`, either side open. */
  datatype Range = Range(start: Option<bytes>, end: Option<bytes>)

  predicate InRange(uk: bytes, range: Range) {
    (range.start.Some? ==> AtMost(range.start.value, uk)) &&
    (range.end.Some? ==> Less(uk, range.end.value))
  }

  ghost predicate StrictlyAscending<T>(out: seq<Stored<T>>) {
    forall i, j :: 0 <= i < j < |out| ==> Less(out[i].key.uk, out[j].key.uk)
  }

  ghost predicate Occurs<T>(rows: seq<Stored<T>>, n: nat, rec: Stored<T>)
    requires n <= |rows|
  {
    exists k :: 0 <= k < n && rows[k] == rec
  }

  ghost predicate Listed<T>(out: seq<Stored<T>>, uk: bytes) {
    exists i :: 0 <= i < |out| && out[i].key.uk == uk
  }

  /** `out` lists, for the keys of `rows[..n]` in range that have a visible row,
      what a lookup of the key finds, in ascending key order. */
  ghost predicate Lists<T>(rows: seq<Stored<T>>, n: nat, range: Range, readSeq: nat, dv: set<nat>, out: seq<Stored<T>>)
    requires n <= |rows|
  {
    StrictlyAscending(out) &&
    (forall i :: 0 <= i < |out| ==>
      InRange(out[i].key.uk, range) && Lookup(rows, Query(out[i].key.uk, readSeq, dv)) == Some(out[i])) &&
    (forall i :: 0 <= i < |out| ==> Occurs(rows, n, out[i])) &&
    (forall k :: 0 <= k < n && InRange(rows[k].key.uk, range) && Hit(rows[k], k, Query(rows[k].key.uk, readSeq, dv)) ==>
      Listed(out, rows[k].key.uk))
  }

  /** A first visible row of a new key is what a lookup of it finds. */
  lemma FreshKeyIsFirst<T>(rows: seq<Stored<T>>, k: nat, range: Range, readSeq: nat, dv: set<nat>, out: seq<Stored<T>>)
    requires Sorted(rows) && k < |rows| && Lists(rows, k, range, readSeq, dv, out)
    requires InRange(rows[k].key.uk, range) && Hit(rows[k], k, Query(rows[k].key.uk, readSeq, dv))
    requires out != [] ==> out[|out| - 1].key.uk != rows[k].key.uk
    ensures Lists(rows, k + 1, range, readSeq, dv, out + [rows[k]])
  {
    var rec := rows[k];
    var q := Query(rec.key.uk, readSeq, dv);
    forall i | 0 <= i < |out|
      ensures Less(out[i].key.uk, rec.key.uk)
    {
      OutBelow(rows, k, range, readSeq, dv, out, i);
    }
    forall j | 0 <= j < k
      ensures !Hit(rows[j], 0 + j, q)
    {
      if Hit(rows[j], j, q) {
        var i :| 0 <= i < |out| && out[i].key.uk == rows[j].key.uk;
        LessIrreflexive(rec.key.uk);
      }
    }
    NoHitBefore(rows, 0, k, 0, q);
    ListsExtend(rows, k, range, readSeq, dv, out);
  }

  /** Keys already listed are below the next one. */
  lemma OutBelow<T>(rows: seq<Stored<T>>, k: nat, range: Range, readSeq: nat, dv: set<nat>, out: seq<Stored<T>>, i: nat)
    requires Sorted(rows) && k < |rows| && Lists(rows, k, range, readSeq, dv, out) && i < |out|
    requires out[|out| - 1].key.uk != rows[k].key.uk
    ensures Less(out[i].key.uk, rows[k].key.uk)
  {
    var last := out[|out| - 1];
    assert Occurs(rows, k, last);
    var m :| 0 <= m < k && rows[m] == last;
    SortedUserKeys(rows, m, k);
    AtMostLess(last.key.uk, rows[k].key.uk);
    if i < |out| - 1 { LessTransitive(out[i].key.uk, last.key.uk, rows[k].key.uk); }
  }

  lemma ListsExtend<T>(rows: seq<Stored<T>>, k: nat, range: Range, readSeq: nat, dv: set<nat>, out: seq<Stored<T>>)
    requires k < |rows| && Lists(rows, k, range, readSeq, dv, out) && InRange(rows[k].key.uk, range)
    requires Lookup(rows, Query(rows[k].key.uk, readSeq, dv)) == Some(rows[k])
    requires forall i :: 0 <= i < |out| ==> Less(out[i].key.uk, rows[k].key.uk)
    ensures Lists(rows, k + 1, range, readSeq, dv, out + [rows[k]])
  {
    hide Lookup, Less, InRange, Hit;
    var all := out + [rows[k]];
    forall i | 0 <= i < |all|
      ensures Occurs(rows, k + 1, all[i])
    {
      assert i < |out| ==> all[i] == out[i] && Occurs(rows, k, out[i]);
    }
    forall j | 0 <= j < k + 1 && InRange(rows[j].key.uk, range) && Hit(rows[j], j, Query(rows[j].key.uk, readSeq, dv))
      ensures Listed(all, rows[j].key.uk)
    {
      if j == k {
        assert all[|out|].key.uk == rows[j].key.uk;
      } else {
        var i :| 0 <= i < |out| && out[i].key.uk == rows[j].key.uk;
        assert all[i].key.uk == rows[j].key.uk;
      }
    }
  }

  /** A row that is skipped adds nothing to the listing. */
  lemma ListsSkip<T>(rows: seq<Stored<T>>, k: nat, range: Range, readSeq: nat, dv: set<nat>, out: seq<Stored<T>>)
    requires k < |rows| && Lists(rows, k, range, readSeq, dv, out)
    requires InRange(rows[k].key.uk, range) && Hit(rows[k], k, Query(rows[k].key.uk, readSeq, dv)) ==>
               Listed(out, rows[k].key.uk)
    ensures Lists(rows, k + 1, range, readSeq, dv, out)
  {
    hide Lookup, Less, InRange, Hit, Listed;
    forall i | 0 <= i < |out|
      ensures Occurs(rows, k + 1, out[i])
    {
      assert Occurs(rows, k, out[i]);
    }
  }

  /** Once a key reaches the end of the range, no later row matters. */
  lemma ListsStop<T>(rows: seq<Stored<T>>, k: nat, range: Range, readSeq: nat, dv: set<nat>, out: seq<Stored<T>>)
    requires Sorted(rows) && k < |rows| && Lists(rows, k, range, readSeq, dv, out)
    requires range.end.Some? && !Less(rows[k].key.uk, range.end.value)
    ensures Lists(rows, |rows|, range, readSeq, dv, out)
  {
    forall j | k <= j < |rows|
      ensures !InRange(rows[j].key.uk, range)
    {
      SortedUserKeys(rows, k, j);
      AtMostTransitive(range.end.value, rows[k].key.uk, rows[j].key.uk);
    }
    ListsGrow(rows, k, |rows|, range, readSeq, dv, out);
  }

  lemma ListsGrow<T>(rows: seq<Stored<T>>, k: nat, n: nat, range: Range, readSeq: nat, dv: set<nat>,
                     out: seq<Stored<T>>)
    requires k <= n <= |rows| && Lists(rows, k, range, readSeq, dv, out)
    requires forall j :: k <= j < n ==> !InRange(rows[j].key.uk, range)
    ensures Lists(rows, n, range, readSeq, dv, out)
  {
    hide Lookup, Less, InRange, Hit, Listed;
    forall i | 0 <= i < |out|
      ensures Occurs(rows, n, out[i])
    {
      assert Occurs(rows, k, out[i]);
    }
  }

  lemma ListsEmpty<T>(rows: seq<Stored<T>>, range: Range, readSeq: nat, dv: set<nat>)
    ensures Lists(rows, 0, range, readSeq, dv, [])
  {
  }
}
