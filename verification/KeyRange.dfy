/** Streaming the keys of a file in a range (`iter_user_keys_in_range` and
    `RangeKeyIter` in `parquet/reader.rs`).

    The iterator is documented to yield every version of every key in
    `[lo, hi]`. It does so exactly if the versions of `lo` do not continue
    across a page boundary: a page is skipped when the next page starts at or
    below `lo`, although it may end with newer versions of `lo`.
 */
module KeyRange {
  import opened Wrappers
  import opened ByteStrings
  import opened Keys
  import opened Table
  import opened Sst
  import KvIndex

  predicate InWindow(uk: bytes, lo: bytes, hi: bytes) {
    AtMost(lo, uk) && AtMost(uk, hi)
  }

  /** The reference: key and position of each row in the window, in file order,
      among the rows from `s` to `e`. */
  function Filtered(rows: seq<Rec>, s: nat, e: nat, lo: bytes, hi: bytes): seq<(bytes, nat)>
    requires e <= |rows|
    decreases e - s
  {
    if s >= e then []
    else if InWindow(rows[s].key.uk, lo, hi) then [(rows[s].key.uk, s)] + Filtered(rows, s + 1, e, lo, hi)
    else Filtered(rows, s + 1, e, lo, hi)
  }

  lemma {:induction false} FilteredMembers(rows: seq<Rec>, s: nat, e: nat, lo: bytes, hi: bytes, p: (bytes, nat))
    requires e <= |rows|
    ensures p in Filtered(rows, s, e, lo, hi) <==> s <= p.1 < e && p.0 == rows[p.1].key.uk && InWindow(p.0, lo, hi)
    decreases e - s
  {
    if s < e { FilteredMembers(rows, s + 1, e, lo, hi, p); }
  }

  // ── Page selection ────────────────────────────────────────────────────────

  type Page = (KvIndex.PageLocation, Option<u64>)

  /** `ikey_user_key_prefix`. */
  function StripTag(k: bytes): bytes {
    if |k| < 8 then k else k[..|k| - 8]
  }

  /** The pages kept from entry `i` on. */
  function Selected(es: seq<KvIndex.Entry>, i: nat, lo: bytes, hi: bytes): seq<Page>
    decreases |es| - i
  {
    if i >= |es| || Less(hi, StripTag(es[i].key)) then []
    else if i + 1 < |es| && AtMost(StripTag(es[i + 1].key), lo) then Selected(es, i + 1, lo, hi)
    else [(es[i].loc, KvIndex.NextRow(es, i))] + Selected(es, i + 1, lo, hi)
  }

  method SelectPages(es: seq<KvIndex.Entry>, lo: bytes, hi: bytes) returns (pages: seq<Page>)
    ensures pages == Selected(es, 0, lo, hi)
  {
    hide Less, AtMost, StripTag;
    pages := [];
    for i := 0 to |es|
      invariant pages + Selected(es, i, lo, hi) == Selected(es, 0, lo, hi)
    {
      if Less(hi, StripTag(es[i].key)) { break; }
      if i + 1 < |es| && AtMost(StripTag(es[i + 1].key), lo) { continue; }
      pages := pages + [(es[i].loc, KvIndex.NextRow(es, i))];
    }
  }

  ghost predicate PageOk(f: File, page: Page) {
    page.0.firstRow < |f.rows| && (page.1.Some? ==> page.0.firstRow <= page.1.value)
  }

  ghost predicate FileOk(f: File) {
    Sorted(f.rows) && BoundsOk(f) && Sum(f.groups) == |f.rows| && IndexOk(f)
  }

  ghost function PageKeys(f: File, page: Page, lo: bytes, hi: bytes): seq<(bytes, nat)>
    requires Sum(f.groups) == |f.rows| && PageOk(f, page)
  {
    Filtered(f.rows, page.0.firstRow, PageStop(f, page.0, page.1), lo, hi)
  }

  ghost function PagesKeys(f: File, pages: seq<Page>, lo: bytes, hi: bytes): seq<(bytes, nat)>
    requires Sum(f.groups) == |f.rows| && forall p :: p in pages ==> PageOk(f, p)
  {
    if pages == [] then [] else PageKeys(f, pages[0], lo, hi) + PagesKeys(f, pages[1..], lo, hi)
  }

  lemma PagesKeysStep(f: File, pages: seq<Page>, n: nat, lo: bytes, hi: bytes)
    requires Sum(f.groups) == |f.rows| && (forall p :: p in pages ==> PageOk(f, p)) && n < |pages|
    ensures PagesKeys(f, pages[n..], lo, hi) == PageKeys(f, pages[n], lo, hi) + PagesKeys(f, pages[n + 1..], lo, hi)
  {
    hide PageKeys, PageOk;
    assert pages[n..][1..] == pages[n + 1..];
  }

  predicate Disjoint(f: File, lo: bytes, hi: bytes) {
    (f.keyMin != [] && Less(hi, f.keyMin)) || (f.keyMax != [] && Less(f.keyMax, lo)) || Less(hi, lo)
  }

  /** Everything the iterator yields. */
  ghost function Yield(f: File, lo: bytes, hi: bytes): seq<(bytes, nat)>
    requires FileOk(f)
  {
    if Disjoint(f, lo, hi) then []
    else if f.index.None? then Filtered(f.rows, 0, |f.rows|, lo, hi)
    else
      SelectedOk(f, 0, lo, hi);
      PagesKeys(f, Selected(KvIndex.Entries(f.index.value), 0, lo, hi), lo, hi)
  }

  lemma {:induction false} SelectedOk(f: File, i: nat, lo: bytes, hi: bytes)
    requires FileOk(f) && f.index.Some?
    ensures forall p :: p in Selected(KvIndex.Entries(f.index.value), i, lo, hi) ==> PageOk(f, p)
    decreases |KvIndex.Entries(f.index.value)| - i
  {
    hide KvIndex.Entries, KvIndex.Valid, Less, Sorted;
    var es := KvIndex.Entries(f.index.value);
    if i < |es| {
      SelectedOk(f, i + 1, lo, hi);
      assert i + 1 < |es| ==> es[i].loc.firstRow < es[i + 1].loc.firstRow;
    }
  }

  // ── The iterator ──────────────────────────────────────────────────────────

  /** `RangeKeyIter`. */
  class RangeKeyIter {
    const f: File
    const lo: bytes
    const hi: bytes
    const pages: seq<Page>
    var nextPage: nat
    var buffer: seq<(bytes, nat)>
    var fallbackDone: bool

    ghost predicate Ready()
      reads this
    {
      Sum(f.groups) == |f.rows| && nextPage <= |pages| && forall p :: p in pages ==> PageOk(f, p)
    }

    /** The items still to come, in order. */
    ghost function Remaining(): seq<(bytes, nat)>
      requires Ready()
      reads this
    {
      buffer + PagesKeys(f, pages[nextPage..], lo, hi) +
      if fallbackDone then [] else Filtered(f.rows, 0, |f.rows|, lo, hi)
    }

    constructor (f: File, lo: bytes, hi: bytes, pages: seq<Page>, fallbackDone: bool)
      requires Sum(f.groups) == |f.rows| && forall p :: p in pages ==> PageOk(f, p)
      ensures this.f == f && Ready()
      ensures Remaining() == PagesKeys(f, pages, lo, hi) +
              if fallbackDone then [] else Filtered(f.rows, 0, |f.rows|, lo, hi)
    {
      hide Filtered;
      this.f, this.lo, this.hi, this.pages := f, lo, hi, pages;
      nextPage, buffer, this.fallbackDone := 0, [], fallbackDone;
      new;
      assert pages[0..] == pages;
      assert [] + PagesKeys(f, pages, lo, hi) == PagesKeys(f, pages, lo, hi);
    }

    method LoadPage()
      requires Ready() && buffer == [] && nextPage < |pages|
      modifies this
      ensures Ready() && Remaining() == old(Remaining())
      ensures nextPage == old(nextPage) + 1 && fallbackDone == old(fallbackDone)
    {
      hide Filtered, PageStop, Sum, PagesKeys;
      var page := pages[nextPage];
      assert page in pages && PageOk(f, page);
      var rows := ReadPage(f, page.0, page.1);
      PagesKeysStep(f, pages, nextPage, lo, hi);
      nextPage := nextPage + 1;
      buffer := Keep(f.rows, page.0.firstRow, PageStop(f, page.0, page.1), rows.value, lo, hi);
    }

    method LoadAll()
      requires Ready() && buffer == [] && nextPage == |pages| && !fallbackDone
      modifies this
      ensures Ready() && Remaining() == old(Remaining())
      ensures nextPage == old(nextPage) && fallbackDone
    {
      hide Filtered, Sum;
      fallbackDone := true;
      assert f.rows[0..|f.rows|] == f.rows;
      buffer := Keep(f.rows, 0, |f.rows|, f.rows, lo, hi);
    }

    /** Yields the next remaining item, reading pages only when needed. */
    method NextKey() returns (item: Option<(bytes, nat)>)
      requires Ready()
      modifies this
      ensures Ready()
      ensures item.None? ==> old(Remaining()) == [] && Remaining() == []
      ensures item.Some? ==> old(Remaining()) == [item.value] + Remaining()
    {
      hide Filtered, PageOk, Sum;
      while true
        invariant Ready() && Remaining() == old(Remaining())
        decreases |pages| - nextPage, !fallbackDone, |buffer|
      {
        if buffer != [] {
          item := Some(buffer[0]);
          buffer := buffer[1..];
          return;
        }
        if nextPage < |pages| {
          LoadPage();
          continue;
        }
        if !fallbackDone {
          LoadAll();
          continue;
        }
        return None;
      }
    }
  }

  /** The filter applied to the rows of one page. */
  method Keep(ghost all: seq<Rec>, s: nat, ghost e: nat, rows: seq<Rec>, lo: bytes, hi: bytes)
    returns (kept: seq<(bytes, nat)>)
    requires s <= e <= |all| && rows == all[s..e]
    ensures kept == Filtered(all, s, e, lo, hi)
  {
    hide Less;
    kept := [];
    for i := 0 to |rows|
      invariant kept + Filtered(all, s + i, e, lo, hi) == Filtered(all, s, e, lo, hi)
    {
      if InWindow(rows[i].key.uk, lo, hi) {
        kept := kept + [(rows[i].key.uk, s + i)];
      }
    }
  }

  /** Opens the iterator; no page is read yet. */
  method IterUserKeysInRange(f: File, lo: bytes, hi: bytes) returns (it: RangeKeyIter)
    requires FileOk(f)
    ensures fresh(it) && it.f == f && it.Ready() && it.Remaining() == Yield(f, lo, hi)
  {
    hide Filtered, Selected, KvIndex.Entries, KvIndex.Valid, Sorted;
    if Disjoint(f, lo, hi) {
      it := new RangeKeyIter(f, [], [], [], true);
    } else if f.index.None? {
      it := new RangeKeyIter(f, lo, hi, [], false);
    } else {
      var es := KvIndex.Collect(f.index.value);
      var pages := SelectPages(es, lo, hi);
      SelectedOk(f, 0, lo, hi);
      it := new RangeKeyIter(f, lo, hi, pages, true);
    }
  }

  // ── Pages ─────────────────────────────────────────────────────────────────

  /** Where page `i` ends. */
  ghost function PageEnd(f: File, i: nat): (e: nat)
    requires IndexOk(f) && f.index.Some? && i < |KvIndex.Entries(f.index.value)|
    ensures e <= |f.rows| && KvIndex.Entries(f.index.value)[i].loc.firstRow < e
  {
    hide KvIndex.Entries, KvIndex.Valid;
    var es := KvIndex.Entries(f.index.value);
    assert i + 1 < |es| ==> es[i].loc.firstRow < es[i + 1].loc.firstRow;
    if i + 1 < |es| then es[i + 1].loc.firstRow else |f.rows|
  }

  lemma {:induction false} FirstRowsAscend(es: seq<KvIndex.Entry>, i: nat, j: nat)
    requires i < j < |es|
    requires forall k :: 0 < k < |es| ==> es[k - 1].loc.firstRow < es[k].loc.firstRow
    ensures es[i].loc.firstRow < es[j].loc.firstRow
    decreases j
  {
    if i < j - 1 { FirstRowsAscend(es, i, j - 1); }
    assert es[j - 1].loc.firstRow < es[j].loc.firstRow;
  }

  /** Clamping to the row group never cuts a page short. */
  lemma PageStopIsEnd(f: File, i: nat)
    requires FileOk(f) && f.index.Some? && i < |KvIndex.Entries(f.index.value)|
    ensures PageOk(f, (KvIndex.Entries(f.index.value)[i].loc, KvIndex.NextRow(KvIndex.Entries(f.index.value), i)))
    ensures PageStop(f, KvIndex.Entries(f.index.value)[i].loc, KvIndex.NextRow(KvIndex.Entries(f.index.value), i)) ==
            PageEnd(f, i)
  {
    hide KvIndex.Entries, KvIndex.Valid, GroupEnd, Sorted;
    var es := KvIndex.Entries(f.index.value);
    var row := es[i].loc.firstRow;
    var e := PageEnd(f, i);
    GroupEndIsBoundary(f.groups, row);
    var b := GroupEnd(f.groups, row);
    if b < |f.rows| {
      var j :| 0 <= j < |es| && es[j].loc.firstRow == b;
      if j < i { FirstRowsAscend(es, j, i); }
      if i + 1 < j { FirstRowsAscend(es, i + 1, j); }
    }
  }

  lemma EntryUserKey(f: File, i: nat)
    requires IndexOk(f) && f.index.Some? && i < |KvIndex.Entries(f.index.value)|
    ensures KvIndex.Entries(f.index.value)[i].loc.firstRow < |f.rows|
    ensures StripTag(KvIndex.Entries(f.index.value)[i].key) ==
            f.rows[KvIndex.Entries(f.index.value)[i].loc.firstRow].key.uk
  {
    hide KvIndex.Entries, KvIndex.Valid;
    var es := KvIndex.Entries(f.index.value);
    var k := f.rows[es[i].loc.firstRow].key;
    assert es[i].key == k.uk + Tag(k.seqno, k.op);
    assert StripTag(es[i].key) == k.uk;
  }

  lemma TakePage(f: File, i: nat, lo: bytes, hi: bytes)
    requires FileOk(f) && f.index.Some? && i < |KvIndex.Entries(f.index.value)|
    requires
      var es := KvIndex.Entries(f.index.value);
      !Less(hi, StripTag(es[i].key)) && !(i + 1 < |es| && AtMost(StripTag(es[i + 1].key), lo))
    ensures forall p :: p in Selected(KvIndex.Entries(f.index.value), i, lo, hi) ==> PageOk(f, p)
    ensures forall p :: p in Selected(KvIndex.Entries(f.index.value), i + 1, lo, hi) ==> PageOk(f, p)
    ensures PagesKeys(f, Selected(KvIndex.Entries(f.index.value), i, lo, hi), lo, hi) ==
            Filtered(f.rows, KvIndex.Entries(f.index.value)[i].loc.firstRow, PageEnd(f, i), lo, hi) +
            PagesKeys(f, Selected(KvIndex.Entries(f.index.value), i + 1, lo, hi), lo, hi)
  {
    hide KvIndex.Entries, KvIndex.Valid, StripTag, Less, Filtered, PageStop, Sorted, Sum;
    var es := KvIndex.Entries(f.index.value);
    SelectedOk(f, i, lo, hi);
    SelectedOk(f, i + 1, lo, hi);
    PageStopIsEnd(f, i);
    var pages := Selected(es, i, lo, hi);
    assert pages[1..] == Selected(es, i + 1, lo, hi);
  }

  /** No yielded position lies on a page that was skipped. */
  lemma {:induction false} SkippedNotYielded(f: File, j: nat, i: nat, lo: bytes, hi: bytes, p: (bytes, nat))
    requires FileOk(f) && f.index.Some? && i + 1 < |KvIndex.Entries(f.index.value)|
    requires AtMost(StripTag(KvIndex.Entries(f.index.value)[i + 1].key), lo)
    requires KvIndex.Entries(f.index.value)[i].loc.firstRow <= p.1 < PageEnd(f, i)
    requires forall q :: q in Selected(KvIndex.Entries(f.index.value), j, lo, hi) ==> PageOk(f, q)
    ensures p !in PagesKeys(f, Selected(KvIndex.Entries(f.index.value), j, lo, hi), lo, hi)
    decreases |KvIndex.Entries(f.index.value)| - j
  {
    hide KvIndex.Entries, KvIndex.Valid, StripTag, Less, Filtered, PageStop, Sorted, Sum;
    var es := KvIndex.Entries(f.index.value);
    if j < |es| && !Less(hi, StripTag(es[j].key)) {
      SelectedOk(f, j + 1, lo, hi);
      SkippedNotYielded(f, j + 1, i, lo, hi, p);
      if !(j + 1 < |es| && AtMost(StripTag(es[j + 1].key), lo)) {
        TakePage(f, j, lo, hi);
        FilteredMembers(f.rows, es[j].loc.firstRow, PageEnd(f, j), lo, hi, p);
        if j < i { PagesApart(f, j, i); } else { PagesApart(f, i, j); }
      }
    }
  }

  lemma PagesApart(f: File, i: nat, j: nat)
    requires FileOk(f) && f.index.Some? && i < j < |KvIndex.Entries(f.index.value)|
    ensures PageEnd(f, i) <= KvIndex.Entries(f.index.value)[j].loc.firstRow
  {
    hide KvIndex.Entries, KvIndex.Valid, Sorted, Sum;
    if i + 1 < j { FirstRowsAscend(KvIndex.Entries(f.index.value), i + 1, j); }
  }

  lemma DisjointHasNone(f: File, lo: bytes, hi: bytes)
    requires FileOk(f) && AtMost(lo, hi) && Disjoint(f, lo, hi)
    ensures forall i: nat :: i < |f.rows| ==> !InWindow(f.rows[i].key.uk, lo, hi)
  {
    hide KvIndex.Entries, KvIndex.Valid, Less, Sum;
    forall i: nat | i < |f.rows|
      ensures !InWindow(f.rows[i].key.uk, lo, hi)
    {
      WithinBounds(f, i);
      if f.keyMin != [] && Less(hi, f.keyMin) { LessAtMost(hi, f.keyMin, f.rows[i].key.uk); }
      if f.keyMax != [] && Less(f.keyMax, lo) { LessAtMost(f.rows[i].key.uk, f.keyMax, lo); }
    }
  }

  /** One row per user key. */
  ghost predicate SingleVersion(f: File) {
    forall i, j :: 0 <= i < j < |f.rows| ==> f.rows[i].key.uk != f.rows[j].key.uk
  }

  // ── Order ─────────────────────────────────────────────────────────────────

  /** `ys` names rows of the window from `from` on, in ascending position. */
  ghost predicate Rising(f: File, ys: seq<(bytes, nat)>, from: nat, to: nat, lo: bytes, hi: bytes) {
    (forall i, j :: 0 <= i < j < |ys| ==> ys[i].1 < ys[j].1) &&
    (forall i :: 0 <= i < |ys| ==> IsRow(f, ys[i]) && from <= ys[i].1 < to && InWindow(ys[i].0, lo, hi))
  }

  predicate IsRow(f: File, y: (bytes, nat)) {
    y.1 < |f.rows| && y.0 == f.rows[y.1].key.uk
  }

  lemma {:induction false} FilteredRises(f: File, s: nat, e: nat, lo: bytes, hi: bytes)
    requires e <= |f.rows|
    ensures Rising(f, Filtered(f.rows, s, e, lo, hi), s, e, lo, hi)
    decreases e - s
  {
    if s < e { FilteredRises(f, s + 1, e, lo, hi); }
  }

  lemma RisingJoin(f: File, a: seq<(bytes, nat)>, b: seq<(bytes, nat)>, s: nat, m: nat, e: nat, lo: bytes, hi: bytes)
    requires s <= m <= e && Rising(f, a, s, m, lo, hi) && Rising(f, b, m, e, lo, hi)
    ensures Rising(f, a + b, s, e, lo, hi)
  {
    hide IsRow, InWindow;
  }

  lemma {:induction false} SelectedRises(f: File, i: nat, from: nat, lo: bytes, hi: bytes)
    requires FileOk(f) && f.index.Some? && from <= |f.rows|
    requires i < |KvIndex.Entries(f.index.value)| ==> from <= KvIndex.Entries(f.index.value)[i].loc.firstRow
    ensures forall p :: p in Selected(KvIndex.Entries(f.index.value), i, lo, hi) ==> PageOk(f, p)
    ensures Rising(f, PagesKeys(f, Selected(KvIndex.Entries(f.index.value), i, lo, hi), lo, hi), from, |f.rows|, lo, hi)
    decreases |KvIndex.Entries(f.index.value)| - i
  {
    hide KvIndex.Entries, KvIndex.Valid, StripTag, Less, Filtered, PageStop, Sorted, Sum, Rising;
    var es := KvIndex.Entries(f.index.value);
    SelectedOk(f, i, lo, hi);
    if i < |es| && !Less(hi, StripTag(es[i].key)) {
      if i + 1 < |es| && AtMost(StripTag(es[i + 1].key), lo) {
        SelectedRises(f, i + 1, from, lo, hi);
      } else {
        var s, e := es[i].loc.firstRow, PageEnd(f, i);
        TakePage(f, i, lo, hi);
        SelectedRises(f, i + 1, e, lo, hi);
        FilteredRises(f, s, e, lo, hi);
        NoneRises(f, from, s, lo, hi);
        var page := Filtered(f.rows, s, e, lo, hi);
        var rest := PagesKeys(f, Selected(es, i + 1, lo, hi), lo, hi);
        RisingJoin(f, [], page, from, s, e, lo, hi);
        assert [] + page == page;
        RisingJoin(f, page, rest, from, e, |f.rows|, lo, hi);
      }
    } else {
      NoneRises(f, from, |f.rows|, lo, hi);
    }
  }

  lemma NoneRises(f: File, from: nat, to: nat, lo: bytes, hi: bytes)
    ensures Rising(f, [], from, to, lo, hi)
  {
  }

  /** The iterator yields rows of the window without repeats, in file order,
      whether or not it yields them all. */
  lemma YieldRises(f: File, lo: bytes, hi: bytes)
    requires FileOk(f)
    ensures Rising(f, Yield(f, lo, hi), 0, |f.rows|, lo, hi)
  {
    hide KvIndex.Entries, KvIndex.Valid, Filtered, Sorted, Sum, Rising, Selected, PagesKeys;
    if Disjoint(f, lo, hi) {
      NoneRises(f, 0, |f.rows|, lo, hi);
    } else if f.index.None? {
      FilteredRises(f, 0, |f.rows|, lo, hi);
    } else {
      SelectedRises(f, 0, 0, lo, hi);
    }
  }

  // ── Exactly what is yielded ───────────────────────────────────────────────

  /** Row `p` is a version of `lo`, and a later page starts with another one. */
  ghost predicate LostAt(f: File, lo: bytes, p: nat)
    requires IndexOk(f) && p < |f.rows|
  {
    f.rows[p].key.uk == lo && f.index.Some? &&
    exists i :: 0 < i < |KvIndex.Entries(f.index.value)| && StartsLater(f, lo, p, i)
  }

  ghost predicate StartsLater(f: File, lo: bytes, p: nat, i: nat)
    requires IndexOk(f) && f.index.Some? && i < |KvIndex.Entries(f.index.value)|
  {
    var b := KvIndex.Entries(f.index.value)[i].loc.firstRow;
    p < b && f.rows[b].key.uk == lo
  }

  /** The page of row `p`, searched from page `j` on. */
  lemma {:induction false} PageOf(f: File, p: nat, j: nat) returns (i: nat)
    requires FileOk(f) && f.index.Some? && j < |KvIndex.Entries(f.index.value)|
    requires KvIndex.Entries(f.index.value)[j].loc.firstRow <= p < |f.rows|
    ensures i < |KvIndex.Entries(f.index.value)| && KvIndex.Entries(f.index.value)[i].loc.firstRow <= p < PageEnd(f, i)
    decreases |KvIndex.Entries(f.index.value)| - j
  {
    hide KvIndex.Entries, KvIndex.Valid, Sorted, Sum;
    i := j;
    if PageEnd(f, j) <= p { i := PageOf(f, p, j + 1); }
  }

  lemma {:induction false} SelectedYields(f: File, i: nat, j: nat, lo: bytes, hi: bytes, p: nat)
    requires FileOk(f) && f.index.Some? && i <= j < |KvIndex.Entries(f.index.value)|
    requires KvIndex.Entries(f.index.value)[j].loc.firstRow <= p < PageEnd(f, j)
    requires InWindow(f.rows[p].key.uk, lo, hi) && !LostAt(f, lo, p)
    ensures forall q :: q in Selected(KvIndex.Entries(f.index.value), i, lo, hi) ==> PageOk(f, q)
    ensures (f.rows[p].key.uk, p) in PagesKeys(f, Selected(KvIndex.Entries(f.index.value), i, lo, hi), lo, hi)
    decreases j - i
  {
    hide KvIndex.Entries, KvIndex.Valid, StripTag, Less, Filtered, PageStop, Sum, Sorted;
    var es := KvIndex.Entries(f.index.value);
    SelectedOk(f, i, lo, hi);
    SelectedOk(f, i + 1, lo, hi);
    EntryUserKey(f, i);
    if i < j { FirstRowsAscend(es, i, j); }
    SortedUserKeys(f.rows, es[i].loc.firstRow, p);
    AtMostTransitive(f.rows[es[i].loc.firstRow].key.uk, f.rows[p].key.uk, hi);
    if i < j {
      SelectedYields(f, i + 1, j, lo, hi, p);
    } else if i + 1 < |es| && AtMost(StripTag(es[i + 1].key), lo) {
      SkippedIsLost(f, i, lo, p);
    }
    if !(i + 1 < |es| && AtMost(StripTag(es[i + 1].key), lo)) {
      TakePage(f, i, lo, hi);
      FilteredMembers(f.rows, es[i].loc.firstRow, PageEnd(f, i), lo, hi, (f.rows[p].key.uk, p));
    }
  }

  /** A row of the window whose page is skipped is lost... */
  lemma SkippedIsLost(f: File, i: nat, lo: bytes, p: nat)
    requires FileOk(f) && f.index.Some? && i + 1 < |KvIndex.Entries(f.index.value)|
    requires KvIndex.Entries(f.index.value)[i].loc.firstRow <= p < PageEnd(f, i) && AtMost(lo, f.rows[p].key.uk)
    requires AtMost(StripTag(KvIndex.Entries(f.index.value)[i + 1].key), lo)
    ensures LostAt(f, lo, p)
  {
    hide KvIndex.Entries, KvIndex.Valid, StripTag, Less, Sum, Sorted;
    EntryUserKey(f, i + 1);
    var b := KvIndex.Entries(f.index.value)[i + 1].loc.firstRow;
    SortedUserKeys(f.rows, p, b);
    AtMostTransitive(f.rows[p].key.uk, f.rows[b].key.uk, lo);
    AtMostTransitive(lo, f.rows[p].key.uk, f.rows[b].key.uk);
    AtMostLess(f.rows[p].key.uk, lo);
    AtMostLess(f.rows[b].key.uk, lo);
    assert StartsLater(f, lo, p, i + 1);
  }

  /** ...and a lost row's page is skipped. */
  lemma LostIsSkipped(f: File, i: nat, lo: bytes, p: nat)
    requires FileOk(f) && f.index.Some? && i < |KvIndex.Entries(f.index.value)|
    requires KvIndex.Entries(f.index.value)[i].loc.firstRow <= p < PageEnd(f, i) && LostAt(f, lo, p)
    ensures i + 1 < |KvIndex.Entries(f.index.value)| && AtMost(StripTag(KvIndex.Entries(f.index.value)[i + 1].key), lo)
  {
    hide KvIndex.Entries, KvIndex.Valid, StripTag, Less, Sum, Sorted;
    var es := KvIndex.Entries(f.index.value);
    var j :| 0 < j < |es| && StartsLater(f, lo, p, j);
    if j < i { FirstRowsAscend(es, j, i); }
    EntryUserKey(f, i + 1);
    if i + 1 < j { FirstRowsAscend(es, i + 1, j); }
    SortedUserKeys(f.rows, es[i + 1].loc.firstRow, es[j].loc.firstRow);
  }

  /** The iterator yields exactly the rows of the window that are not versions
      of `lo` followed by a page that starts with `lo` again. */
  lemma YieldMembers(f: File, lo: bytes, hi: bytes, p: nat)
    requires FileOk(f) && AtMost(lo, hi) && p < |f.rows|
    ensures (f.rows[p].key.uk, p) in Yield(f, lo, hi) <==> InWindow(f.rows[p].key.uk, lo, hi) && !LostAt(f, lo, p)
  {
    hide KvIndex.Entries, KvIndex.Valid, StripTag, Less, Filtered, Selected, Sum, PagesKeys, Sorted, InWindow;
    var y := (f.rows[p].key.uk, p);
    FilteredMembers(f.rows, 0, |f.rows|, lo, hi, y);
    if Disjoint(f, lo, hi) {
      DisjointHasNone(f, lo, hi);
    } else if f.index.Some? {
      var es := KvIndex.Entries(f.index.value);
      var i := PageOf(f, p, 0);
      SelectedOk(f, 0, lo, hi);
      YieldInWindow(f, lo, hi, y);
      if LostAt(f, lo, p) {
        LostIsSkipped(f, i, lo, p);
        SkippedNotYielded(f, 0, i, lo, hi, y);
      } else if InWindow(y.0, lo, hi) {
        SelectedYields(f, 0, i, lo, hi, p);
      }
    }
  }

  ghost predicate Ascends(a: seq<(bytes, nat)>) {
    forall i, j :: 0 <= i < j < |a| ==> a[i].1 < a[j].1
  }

  lemma AscendingTail(a: seq<(bytes, nat)>, y: (bytes, nat))
    requires Ascends(a) && a != []
    ensures y in a[1..] <==> y in a && y != a[0]
  {
    if y in a[1..] {
      var k :| 0 <= k < |a[1..]| && a[1..][k] == y;
      assert a[k + 1] == y;
    }
    if y in a && y != a[0] {
      var k :| 0 <= k < |a| && a[k] == y;
      assert a[1..][k - 1] == y;
    }
  }

  lemma AscendingHead(a: seq<(bytes, nat)>, b: seq<(bytes, nat)>)
    requires Ascends(a) && Ascends(b) && a != [] && b != [] && a[0] in b && b[0] in a
    ensures a[0] == b[0]
  {
    var k :| 0 <= k < |b| && b[k] == a[0];
    var j :| 0 <= j < |a| && a[j] == b[0];
  }

  /** Two ascending sequences with the same members are the same. */
  lemma {:induction false} AscendingUnique(a: seq<(bytes, nat)>, b: seq<(bytes, nat)>)
    requires Ascends(a) && Ascends(b) && forall y :: y in a <==> y in b
    ensures a == b
  {
    assert b == [] || b[0] in b;
    if a != [] {
      assert a[0] in a && a[0] in b;
      AscendingHead(a, b);
      forall y
        ensures y in a[1..] <==> y in b[1..]
      {
        AscendingTail(a, y);
        AscendingTail(b, y);
      }
      AscendingUnique(a[1..], b[1..]);
    }
  }

  /** The iterator yields exactly the rows in the window, in file order, if and
      only if no version of `lo` is lost. */
  lemma YieldIsComplete(f: File, lo: bytes, hi: bytes)
    requires FileOk(f) && AtMost(lo, hi)
    ensures Yield(f, lo, hi) == Filtered(f.rows, 0, |f.rows|, lo, hi) <==>
            forall p: nat :: p < |f.rows| ==> !LostAt(f, lo, p)
  {
    hide Yield, Filtered, Rising, LostAt, Sorted, Sum, IndexOk, BoundsOk;
    var ys, all := Yield(f, lo, hi), Filtered(f.rows, 0, |f.rows|, lo, hi);
    YieldRises(f, lo, hi);
    FilteredRises(f, 0, |f.rows|, lo, hi);
    forall y: (bytes, nat)
      ensures y in all <==> IsRow(f, y) && InWindow(y.0, lo, hi)
      ensures y in ys <==> IsRow(f, y) && InWindow(y.0, lo, hi) && !LostAt(f, lo, y.1)
    {
      FilteredMembers(f.rows, 0, |f.rows|, lo, hi, y);
      YieldInWindow(f, lo, hi, y);
      if IsRow(f, y) { YieldMembers(f, lo, hi, y.1); }
    }
    if p: nat :| p < |f.rows| && LostAt(f, lo, p) {
      LostIsLo(f, lo, p);
      LessIrreflexive(lo);
      assert (lo, p) in all && (lo, p) !in ys;
    } else {
      RisingAscends(f, ys, lo, hi);
      RisingAscends(f, all, lo, hi);
      AscendingUnique(ys, all);
    }
  }

  lemma RisingAscends(f: File, ys: seq<(bytes, nat)>, lo: bytes, hi: bytes)
    requires Rising(f, ys, 0, |f.rows|, lo, hi)
    ensures Ascends(ys)
  {
  }

  lemma LostIsLo(f: File, lo: bytes, p: nat)
    requires IndexOk(f) && p < |f.rows| && LostAt(f, lo, p)
    ensures f.rows[p].key.uk == lo
  {
  }

  lemma YieldInWindow(f: File, lo: bytes, hi: bytes, y: (bytes, nat))
    requires FileOk(f)
    ensures y in Yield(f, lo, hi) ==> InWindow(y.0, lo, hi) && IsRow(f, y)
  {
    hide Yield, FileOk, InWindow, IsRow;
    YieldRises(f, lo, hi);
  }

  lemma SingleVersionNeverLost(f: File, lo: bytes, p: nat)
    requires IndexOk(f) && SingleVersion(f) && p < |f.rows|
    ensures !LostAt(f, lo, p)
  {
    hide KvIndex.Entries, KvIndex.Valid;
    if f.index.Some? {
      var es := KvIndex.Entries(f.index.value);
      forall i | 0 < i < |es|
        ensures f.rows[p].key.uk == lo ==> !StartsLater(f, lo, p, i)
      {
        assert p < es[i].loc.firstRow ==> f.rows[p].key.uk != f.rows[es[i].loc.firstRow].key.uk;
      }
    }
  }

  /** No page of the file starts with a key that the page before also holds, so
      nothing is ever lost. */
  ghost predicate NoneLost(f: File) {
    IndexOk(f) && forall lo, p: nat :: p < |f.rows| ==> !LostAt(f, lo, p)
  }

  lemma SingleVersionNoneLost(f: File)
    requires IndexOk(f) && SingleVersion(f)
    ensures NoneLost(f)
  {
    hide IndexOk, LostAt;
    forall lo, p: nat | p < |f.rows|
      ensures !LostAt(f, lo, p)
    {
      SingleVersionNeverLost(f, lo, p);
    }
  }
}
