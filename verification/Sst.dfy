/** Point lookup and scan in one data file (`parquet/reader.rs`).

    Both are fast forms of walking all rows of a sorted file. `Get` consults the
    bloom filter, the key range and the page index before it reads anything, and
    still returns what the full walk returns.
 */
module Sst {
  import opened Wrappers
  import opened ByteStrings
  import opened Keys
  import opened Table
  import opened Visibility
  import KvIndex
  import Bloom

  // ── Files ─────────────────────────────────────────────────────────────────

  /** The readable content of a data file: its rows, the row counts of its row
      groups, and the footer's bloom filter, page index and key bounds. */
  datatype File = File(
    rows: seq<Rec>,
    groups: seq<nat>,
    index: Option<KvIndex.Index>,
    bloom: Option<Bloom.Filter>,
    keyMin: bytes,
    keyMax: bytes)

  function Sum(ns: seq<nat>): nat {
    if ns == [] then 0 else ns[0] + Sum(ns[1..])
  }

  /** `b` is the first row of a row group, or the end of the file. */
  ghost predicate GroupBoundary(groups: seq<nat>, b: nat) {
    exists g :: 0 <= g <= |groups| && b == Sum(groups[..g])
  }

  /** The index has one entry per page, holding the page's first key and first
      row; pages tile the file and do not cross row groups. */
  ghost predicate PagesOk(es: seq<KvIndex.Entry>, rows: seq<Rec>, groups: seq<nat>) {
    (es == [] <==> rows == []) &&
    (es != [] ==> es[0].loc.firstRow == 0) &&
    (forall i :: 0 < i < |es| ==> es[i - 1].loc.firstRow < es[i].loc.firstRow) &&
    (forall i :: 0 <= i < |es| ==>
      es[i].loc.firstRow < |rows| && rows[es[i].loc.firstRow].key.seqno <= SEQNUM_MAX &&
      es[i].key == EncodeIkey(rows[es[i].loc.firstRow].key)) &&
    (forall b: nat :: GroupBoundary(groups, b) && b < |rows| ==>
      exists i :: 0 <= i < |es| && es[i].loc.firstRow == b)
  }

  ghost predicate IndexOk(f: File) {
    f.index.Some? ==>
      KvIndex.Valid(f.index.value) && PagesOk(KvIndex.Entries(f.index.value), f.rows, f.groups)
  }

  ghost predicate BloomOk(f: File, env: Env) {
    f.bloom.Some? ==>
      Bloom.WellFormed(f.bloom.value) &&
      forall i :: 0 <= i < |f.rows| ==> Bloom.MayContainKey(f.bloom.value, env.hash(f.rows[i].key.uk))
  }

  predicate BoundsOk(f: File) {
    if f.rows == [] then f.keyMin == [] && f.keyMax == []
    else f.keyMin == f.rows[0].key.uk && f.keyMax == f.rows[|f.rows| - 1].key.uk
  }

  /** What the writer guarantees of every file. */
  ghost predicate WellFormed(f: File, env: Env) {
    AllValid(env, f.rows) &&
    Sorted(f.rows) && Sum(f.groups) == |f.rows| && BoundsOk(f) && IndexOk(f) && BloomOk(f, env)
  }

  /** No row lies outside the recorded bounds. */
  lemma WithinBounds(f: File, i: nat)
    requires Sorted(f.rows) && BoundsOk(f) && i < |f.rows|
    ensures AtMost(f.keyMin, f.rows[i].key.uk) && AtMost(f.rows[i].key.uk, f.keyMax)
  {
    SortedUserKeys(f.rows, 0, i);
    SortedUserKeys(f.rows, i, |f.rows| - 1);
  }

  /** The reference: walk all rows of the file. */
  function FullScan(f: File, q: Query): Option<Rec> {
    Lookup(f.rows, q)
  }

  // ── Reading a page ────────────────────────────────────────────────────────

  /** The end of the row group holding `row`. */
  function GroupEnd(groups: seq<nat>, row: nat): (end: nat)
    requires row < Sum(groups)
    ensures row < end <= Sum(groups)
  {
    if row < groups[0] then groups[0] else groups[0] + GroupEnd(groups[1..], row - groups[0])
  }

  lemma {:induction false} GroupEndIsBoundary(groups: seq<nat>, row: nat)
    requires row < Sum(groups)
    ensures GroupBoundary(groups, GroupEnd(groups, row))
  {
    if row < groups[0] {
      assert groups[..1] == [groups[0]];
      assert Sum(groups[..1]) == groups[0] + Sum([]);
    } else {
      GroupEndIsBoundary(groups[1..], row - groups[0]);
      var g :| 0 <= g <= |groups[1..]| && GroupEnd(groups[1..], row - groups[0]) == Sum(groups[1..][..g]);
      assert groups[..g + 1][0] == groups[0] && groups[..g + 1][1..] == groups[1..][..g];
    }
  }

  lemma {:induction false} GroupEndIs(groups: seq<nat>, row: nat, g: nat)
    requires g < |groups| && Sum(groups[..g]) <= row < Sum(groups[..g]) + groups[g]
    ensures row < Sum(groups) && GroupEnd(groups, row) == Sum(groups[..g]) + groups[g]
  {
    if g > 0 {
      assert groups[..g][0] == groups[0] && groups[..g][1..] == groups[1..][..g - 1];
      GroupEndIs(groups[1..], row - groups[0], g - 1);
    }
  }

  /** The row group holding `row`, as its first row and its end. */
  method LocateGroup(groups: seq<nat>, row: nat) returns (r: Option<(nat, nat)>)
    ensures r.None? <==> row >= Sum(groups)
    ensures r.Some? ==> r.value.0 <= row && r.value.1 == GroupEnd(groups, row)
  {
    var start := 0;
    for g := 0 to |groups|
      invariant start == Sum(groups[..g]) <= row
    {
      SumStep(groups, g);
      var end := start + groups[g];
      if row < end {
        GroupEndIs(groups, row, g);
        return Some((start, end));
      }
      start := end;
    }
    assert groups[..|groups|] == groups;
    r := None;
  }

  lemma SumStep(ns: seq<nat>, g: nat)
    requires g < |ns|
    ensures Sum(ns[..g + 1]) == Sum(ns[..g]) + ns[g]
  {
    SumAppend(ns[..g], ns[g]);
    assert ns[..g + 1] == ns[..g] + [ns[g]];
  }

  lemma {:induction false} SumAppend(ns: seq<nat>, n: nat)
    ensures Sum(ns + [n]) == Sum(ns) + n
  {
    if ns != [] {
      SumAppend(ns[1..], n);
      assert (ns + [n])[1..] == ns[1..] + [n];
    }
  }

  /** The end of the rows read for a page: the next page's first row, or the
      end of the row group. */
  function PageStop(f: File, loc: KvIndex.PageLocation, next: Option<u64>): (end: nat)
    requires Sum(f.groups) == |f.rows| && loc.firstRow < |f.rows|
    ensures end <= |f.rows|
    ensures (next.Some? ==> loc.firstRow <= next.value) ==> loc.firstRow <= end
  {
    var groupEnd := GroupEnd(f.groups, loc.firstRow);
    if next.Some? && next.value <= groupEnd then next.value else groupEnd
  }

  /** `read_rows_in_page`. */
  method ReadPage(f: File, loc: KvIndex.PageLocation, next: Option<u64>) returns (r: Result<seq<Rec>>)
    requires Sum(f.groups) == |f.rows|
    requires next.Some? ==> loc.firstRow <= next.value
    ensures r.Err? <==> loc.firstRow >= |f.rows|
    ensures r.Err? ==> r.error == Parquet
    ensures r.Ok? ==> r.value == f.rows[loc.firstRow..PageStop(f, loc, next)]
  {
    var group := LocateGroup(f.groups, loc.firstRow);
    if group.None? { return Err(Parquet); }
    var upper := if next.Some? && next.value <= group.value.1 then next.value else group.value.1;
    r := Ok(f.rows[loc.firstRow..upper]);
  }

  // ── Point lookup ──────────────────────────────────────────────────────────

  method FindVisible(rows: seq<Rec>, base: nat, q: Query) returns (r: Option<Rec>)
    ensures r == FirstVisible(rows, 0, base, q)
  {
    for i := 0 to |rows|
      invariant FirstVisible(rows, 0, base, q) == FirstVisible(rows, i, base, q)
    {
      if Hit(rows[i], base + i, q) { return Some(rows[i]); }
    }
    r := None;
  }

  lemma {:induction false} SliceVisible(rows: seq<Rec>, s: nat, e: nat, i: nat, q: Query)
    requires s <= e <= |rows| && i <= e - s
    ensures FirstVisible(rows[s..e], i, s, q).Some? ==>
              FirstVisible(rows, s + i, 0, q) == FirstVisible(rows[s..e], i, s, q)
    decreases e - s - i
  {
    if i < e - s && !Hit(rows[s..e][i], s + i, q) { SliceVisible(rows, s, e, i + 1, q); }
  }

  /** A hit on any page settles the lookup, unless the page starts with the same
      user key and is not the file's first. */
  lemma PageHitSettles(f: File, s: nat, e: nat, q: Query)
    requires Sorted(f.rows) && s <= e <= |f.rows|
    requires FirstVisible(f.rows[s..e], 0, s, q).Some?
    requires s == 0 || f.rows[s].key.uk != q.uk
    ensures FullScan(f, q) == FirstVisible(f.rows[s..e], 0, s, q)
  {
    SliceVisible(f.rows, s, e, 0, q);
    FirstVisibleIs(f.rows[s..e], 0, s, q);
    var page := f.rows[s..e];
    var rec := FirstVisible(page, 0, s, q).value;
    var k :| 0 <= k < |page| && rec == page[k] && Hit(page[k], s + k, q);
    forall j | 0 <= j < s
      ensures !Hit(f.rows[j], 0 + j, q)
    {
      if f.rows[j].key.uk == q.uk { SortedContiguous(f.rows, j, s, s + k); }
    }
    NoHitBefore(f.rows, 0, s, 0, q);
  }

  lemma NoKeyNoHit(f: File, q: Query)
    requires forall i :: 0 <= i < |f.rows| ==> f.rows[i].key.uk != q.uk
    ensures FullScan(f, q) == None
  {
    NoHitBefore(f.rows, 0, |f.rows|, 0, q);
  }

  predicate OutsideBounds(f: File, uk: bytes) {
    (f.keyMin != [] && Less(uk, f.keyMin)) || (f.keyMax != [] && Less(f.keyMax, uk))
  }

  /** An empty bound excludes nothing. */
  lemma OutsideBoundsIff(f: File, uk: bytes)
    ensures OutsideBounds(f, uk) <==> !AtMost(f.keyMin, uk) || (f.keyMax != [] && !AtMost(uk, f.keyMax))
  {
  }

  lemma OutsideBoundsAbsent(f: File, uk: bytes)
    requires Sorted(f.rows) && BoundsOk(f) && OutsideBounds(f, uk)
    ensures forall i :: 0 <= i < |f.rows| ==> f.rows[i].key.uk != uk
  {
    forall i | 0 <= i < |f.rows|
      ensures f.rows[i].key.uk != uk
    {
      WithinBounds(f, i);
    }
  }

  function Probe(uk: bytes): bytes {
    uk + [255, 255, 255, 255, 255, 255, 255, 255, 255]
  }

  /** The bloom gate, the range gate, the page fast path with its
      multi-version guard, and the fallback all agree with the full walk. */
  method Get(env: Env, f: File, q: Query) returns (r: Result<Option<Rec>>)
    requires WellFormed(f, env)
    ensures r == Ok(FullScan(f, q))
  {
    if f.bloom.Some? {
      var maybe := Bloom.MayContain(f.bloom.value, env.hash(q.uk));
      if !maybe {
        NoKeyNoHit(f, q);
        return Ok(None);
      }
    }
    if OutsideBounds(f, q.uk) {
      OutsideBoundsAbsent(f, q.uk);
      NoKeyNoHit(f, q);
      return Ok(None);
    }
    if f.index.Some? {
      var matched := KvIndex.FindPage(f.index.value, Probe(q.uk));
      if matched.Some? {
        var (loc, next) := matched.value;
        MatchedPageOk(f, Probe(q.uk), loc, next);
        var page := ReadPage(f, loc, next);
        var rows := page.value;
        var mayHaveEarlier := loc.firstRow > 0 && rows != [] && rows[0].key.uk == q.uk;
        var hit := FindVisible(rows, loc.firstRow, q);
        if hit.Some? && !mayHaveEarlier {
          PageHitSettles(f, loc.firstRow, PageStop(f, loc, next), q);
          return Ok(hit);
        }
      }
    }
    var hit := FindVisible(f.rows, 0, q);
    r := Ok(hit);
  }

  lemma MatchedPageOk(f: File, target: bytes, loc: KvIndex.PageLocation, next: Option<u64>)
    requires IndexOk(f) && f.index.Some?
    requires KvIndex.IsAnswer(KvIndex.Entries(f.index.value), target, Some((loc, next)))
    ensures loc.firstRow < |f.rows|
    ensures next.Some? ==> loc.firstRow <= next.value
  {
    hide KvIndex.Entries, KvIndex.Valid;
    var es := KvIndex.Entries(f.index.value);
    var i: nat :| KvIndex.Covers(es, target, i) && loc == es[i].loc && next == KvIndex.NextRow(es, i);
    assert i + 1 < |es| ==> es[i].loc.firstRow < es[i + 1].loc.firstRow;
  }

  // ── Range scan of one file ────────────────────────────────────────────────

  /** Tombstones are listed too; the caller merges them with other files. */
  method Scan(f: File, range: Range, readSeq: nat, dv: set<nat>) returns (out: seq<Rec>)
    requires Sorted(f.rows)
    ensures Lists(f.rows, |f.rows|, range, readSeq, dv, out)
  {
    hide Lookup, Less, Lists;
    out := [];
    var last: Option<bytes> := None;
    ListsEmpty(f.rows, range, readSeq, dv);
    for k := 0 to |f.rows|
      invariant Lists(f.rows, k, range, readSeq, dv, out)
      invariant last == if out == [] then None else Some(out[|out| - 1].key.uk)
    {
      var uk := f.rows[k].key.uk;
      if Masked(dv, k) || f.rows[k].key.seqno > readSeq {
        ListsSkip(f.rows, k, range, readSeq, dv, out);
        continue;
      }
      if range.start.Some? && Less(uk, range.start.value) {
        ListsSkip(f.rows, k, range, readSeq, dv, out);
        continue;
      }
      if range.end.Some? && !Less(uk, range.end.value) {
        ListsStop(f.rows, k, range, readSeq, dv, out);
        return;
      }
      if last == Some(uk) {
        assert out[|out| - 1].key.uk == uk;
        ListsSkip(f.rows, k, range, readSeq, dv, out);
        continue;
      }
      FreshKeyIsFirst(f.rows, k, range, readSeq, dv, out);
      last := Some(uk);
      out := out + [f.rows[k]];
    }
  }
}
