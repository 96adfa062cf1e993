/** The sparse page index (`parquet/kv_index.rs`).

    One entry per data page: the first internal key on the page and the page's
    location. Keys are front-coded against their predecessor, except at restart
    points, so that a lookup can binary-search the restarts and then scan.

    Two results. For every buffer that `FromBytes` accepts, also one that
    `Build` never produced, search and iteration stay inside the buffer and
    answer about the entries the buffer holds. For every buffer that `Build`
    produces those entries are the input, and search finds the last key that is
    not above the target.
 */
module KvIndex {
  import opened Wrappers
  import opened ByteStrings
  import opened Arithmetic

  const HEADER: nat := 24
  const ENTRY_HEADER: nat := 4
  const TAIL: nat := 20
  const MAX_KEY_LEN: nat := 65535
  const VERSION: byte := 1

  datatype PageLocation = PageLocation(pageOffset: u64, pageSize: u32, firstRow: u64)

  datatype Entry = Entry(key: bytes, loc: PageLocation)

  // ── Reading integers ──────────────────────────────────────────────────────

  function U16At(buf: bytes, pos: nat): u16
    requires pos + 2 <= |buf|
  {
    buf[pos] as int + 0x100 * (buf[pos + 1] as int)
  }

  function U32At(buf: bytes, pos: nat): u32
    requires pos + 4 <= |buf|
  {
    U16At(buf, pos) as int + 0x1_0000 * (U16At(buf, pos + 2) as int)
  }

  function U64At(buf: bytes, pos: nat): u64
    requires pos + 8 <= |buf|
  {
    U32At(buf, pos) as int + 0x1_0000_0000 * (U32At(buf, pos + 4) as int)
  }

  lemma ReadU16(buf: bytes, pos: nat, n: nat)
    requires pos + 2 <= |buf| && buf[pos..pos + 2] == ToLe(n, 2)
    ensures U16At(buf, pos) == n % U16
  {
    Mod16(n);
    var s := buf[pos..pos + 2];
    assert s == [n % 256] + ToLe(n / 256, 1);
    assert s[1] == ToLe(n / 256, 1)[0] == n / 256 % 256;
  }

  lemma Mod16(n: nat)
    ensures n % 256 + 256 * (n / 256 % 256) == n % U16
  {
  }

  lemma LeTail(n: nat, w: nat)
    requires w >= 2
    ensures ToLe(n, w)[..2] == ToLe(n, 2)
    ensures ToLe(n, w)[2..] == ToLe(n / 256 / 256, w - 2)
  {
    var s := ToLe(n, w);
    assert s == [n % 256] + ToLe(n / 256, w - 1);
    assert s == [n % 256] + ([n / 256 % 256] + ToLe(n / 256 / 256, w - 2));
    assert ToLe(n, 2) == [n % 256] + [n / 256 % 256];
  }

  lemma Mod32(n: nat)
    ensures n % U16 + U16 * (n / 256 / 256 % U16) == n % U32
  {
    assert n / 256 / 256 == n / U16;
  }

  lemma Mod64(n: nat)
    ensures n % U32 + U32 * (n / 256 / 256 / 256 / 256 % U32) == n % U64
  {
    assert n / 256 / 256 / 256 / 256 == n / U32;
  }

  lemma ReadU32(buf: bytes, pos: nat, n: nat)
    requires pos + 4 <= |buf| && buf[pos..pos + 4] == ToLe(n, 4)
    ensures U32At(buf, pos) == n % U32
  {
    hide U16At, ToLe;
    LeTail(n, 4);
    Mod32(n);
    assert buf[pos..pos + 2] == buf[pos..pos + 4][..2];
    assert buf[pos + 2..pos + 4] == buf[pos..pos + 4][2..];
    ReadU16(buf, pos, n);
    ReadU16(buf, pos + 2, n / 256 / 256);
  }

  lemma ReadU64(buf: bytes, pos: nat, n: nat)
    requires pos + 8 <= |buf| && buf[pos..pos + 8] == ToLe(n, 8)
    ensures U64At(buf, pos) == n % U64
  {
    hide U16At, U32At, ToLe;
    Mod64(n);
    var s, m := buf[pos..pos + 8], n / 256 / 256;
    LeTail(n, 8);
    LeTail(n, 4);
    LeTail(m, 6);
    LeTail(m, 2);
    assert buf[pos..pos + 4] == s[..2] + s[2..][..2] == ToLe(n, 4)[..2] + ToLe(n, 4)[2..] == ToLe(n, 4);
    assert buf[pos + 4..pos + 8] == s[2..][2..];
    ReadU32(buf, pos, n);
    ReadU32(buf, pos + 4, m / 256 / 256);
  }

  // ── The encoding ──────────────────────────────────────────────────────────

  /** Length of the longest common prefix. */
  function SharedLen(a: bytes, b: bytes): (n: nat)
    ensures n <= |a| && n <= |b| && a[..n] == b[..n]
  {
    if a == [] || b == [] || a[0] != b[0] then 0
    else
      var n := SharedLen(a[1..], b[1..]);
      assert a[..n + 1] == [a[0]] + a[1..][..n] && b[..n + 1] == [b[0]] + b[1..][..n];
      n + 1
  }

  lemma {:induction false} SharedLenIs(a: bytes, b: bytes, n: nat)
    requires n <= |a| && n <= |b| && a[..n] == b[..n]
    requires n < |a| && n < |b| ==> a[n] != b[n]
    ensures SharedLen(a, b) == n
  {
    if n > 0 {
      assert a[..n][0] == b[..n][0];
      assert a[1..][..n - 1] == a[..n][1..] && b[1..][..n - 1] == b[..n][1..];
      SharedLenIs(a[1..], b[1..], n - 1);
    }
  }

  method SharedPrefixLen(a: bytes, b: bytes) returns (i: nat)
    ensures i == SharedLen(a, b)
  {
    var n := if |a| < |b| then |a| else |b|;
    i := 0;
    while i < n && a[i] == b[i]
      invariant i <= n
      invariant a[..i] == b[..i]
    {
      i := i + 1;
    }
    SharedLenIs(a, b, i);
  }

  function LocBytes(loc: PageLocation): (s: bytes)
    ensures |s| == TAIL
  {
    ToLe(loc.pageOffset, 8) + ToLe(loc.pageSize, 4) + ToLe(loc.firstRow, 8)
  }

  function EntryBytes(shared: nat, e: Entry): (s: bytes)
    requires shared <= |e.key|
    ensures |s| == ENTRY_HEADER + (|e.key| - shared) + TAIL
  {
    ToLe(shared, 2) + ToLe(|e.key| - shared, 2) + e.key[shared..] + LocBytes(e.loc)
  }

  predicate IsRestart(i: nat, interval: nat)
    requires interval > 0
  {
    (i % U32) % interval == 0
  }

  function PrevKey(es: seq<Entry>, i: nat): bytes
    requires i <= |es|
  {
    if i == 0 then [] else es[i - 1].key
  }

  function SharedAt(es: seq<Entry>, interval: nat, i: nat): (n: nat)
    requires interval > 0 && i < |es|
    ensures n <= |es[i].key| && n <= |PrevKey(es, i)|
    ensures es[i].key[..n] == PrevKey(es, i)[..n]
  {
    if IsRestart(i, interval) then 0 else SharedLen(PrevKey(es, i), es[i].key)
  }

  /** The first `n` entries of the entries section. */
  function EntriesBytes(es: seq<Entry>, interval: nat, n: nat): bytes
    requires interval > 0 && n <= |es|
  {
    if n == 0 then []
    else EntriesBytes(es, interval, n - 1) + EntryBytes(SharedAt(es, interval, n - 1), es[n - 1])
  }

  function Offset(es: seq<Entry>, interval: nat, i: nat): nat
    requires interval > 0 && i <= |es|
  {
    |EntriesBytes(es, interval, i)|
  }

  /** Offsets of the restart points among the first `n` entries. */
  function Restarts(es: seq<Entry>, interval: nat, n: nat): seq<nat>
    requires interval > 0 && n <= |es|
  {
    if n == 0 then []
    else if IsRestart(n - 1, interval) then Restarts(es, interval, n - 1) + [Offset(es, interval, n - 1) % U32]
    else Restarts(es, interval, n - 1)
  }

  function RestartTable(rs: seq<nat>): (s: bytes)
    ensures |s| == 4 * |rs|
  {
    if rs == [] then [] else RestartTable(rs[..|rs| - 1]) + ToLe(rs[|rs| - 1], 4)
  }

  function Header(num: nat, interval: nat, size: nat, restarts: nat): (s: bytes)
    ensures |s| == HEADER
  {
    [VERSION, 0, 0, 0] + ToLe(num, 4) + ToLe(interval, 4) + ToLe(size, 4) + ToLe(restarts, 4) + ToLe(0, 4)
  }

  /** The whole buffer. All four header fields and the offsets are the low 32
      bits of the quantities they stand for. */
  function Encoded(es: seq<Entry>, interval: nat): bytes
    requires interval > 0
  {
    var body, rs := EntriesBytes(es, interval, |es|), Restarts(es, interval, |es|);
    Header(|es|, interval, |body|, |rs|) + body + RestartTable(rs)
  }

  ghost predicate Ascending(es: seq<Entry>) {
    forall i :: 0 < i < |es| ==> Less(es[i - 1].key, es[i].key)
  }

  ghost predicate Buildable(es: seq<Entry>) {
    Ascending(es) && forall i :: 0 <= i < |es| ==> |es[i].key| <= MAX_KEY_LEN
  }

  function Clamp(interval: u32): (n: nat)
    ensures n > 0
  {
    if interval == 0 then 1 else interval
  }

  /** Refuses exactly the inputs that could not be represented or searched. */
  method Build(es: seq<Entry>, interval: u32) returns (r: Result<bytes>)
    ensures r.Ok? <==> Buildable(es)
    ensures r.Ok? && interval == 0 ==> r.value == Encoded(es, 1)
    ensures r.Ok? && interval > 0 ==> r.value == Encoded(es, interval)
    ensures r.Err? ==> r.error == Parquet
  {
    hide EntryBytes, SharedLen, Less;
    var ri := Clamp(interval);
    var body: bytes := [];
    var offsets: seq<nat> := [];
    var prev: bytes := [];
    for i := 0 to |es|
      invariant prev == PrevKey(es, i)
      invariant body == EntriesBytes(es, ri, i)
      invariant offsets == Restarts(es, ri, i)
      invariant forall j :: 0 < j < i ==> Less(es[j - 1].key, es[j].key)
      invariant forall j :: 0 <= j < i ==> |es[j].key| <= MAX_KEY_LEN
    {
      var key := es[i].key;
      if |key| > MAX_KEY_LEN { return Err(Parquet); }
      if i > 0 && !Less(prev, key) { return Err(Parquet); }
      var shared := 0;
      if IsRestart(i, ri) {
        offsets := offsets + [|body| % U32];
      } else {
        shared := SharedPrefixLen(prev, key);
      }
      body := body + EntryBytes(shared, es[i]);
      prev := key;
    }
    var table: bytes := [];
    for k := 0 to |offsets|
      invariant table == RestartTable(offsets[..k])
    {
      assert offsets[..k + 1][..k] == offsets[..k];
      table := table + ToLe(offsets[k], 4);
    }
    assert offsets[..|offsets|] == offsets;
    r := Ok(Header(|es|, ri, |body|, |offsets|) + body + table);
  }

  // ── Parsing ───────────────────────────────────────────────────────────────

  /** A parsed index. */
  datatype Index = Index(buf: bytes, num: nat, interval: nat, size: nat, restarts: seq<nat>)

  /** Where a walk over the entries stands: the next entry's offset and the
      key of the entry before it. */
  datatype Pos = Pos(cursor: nat, prev: bytes)

  /** The entry at `p` lies inside the section and can be rebuilt. */
  predicate Fits(buf: bytes, size: nat, p: Pos)
    requires HEADER + size <= |buf|
  {
    p.cursor + ENTRY_HEADER <= size &&
    U16At(buf, HEADER + p.cursor) <= |p.prev| &&
    p.cursor + ENTRY_HEADER + U16At(buf, HEADER + p.cursor + 2) + TAIL <= size
  }

  function Next(buf: bytes, size: nat, p: Pos): Pos
    requires HEADER + size <= |buf| && Fits(buf, size, p)
  {
    var abs := HEADER + p.cursor;
    var shared, suffix := U16At(buf, abs), U16At(buf, abs + 2);
    Pos(p.cursor + ENTRY_HEADER + suffix + TAIL,
        p.prev[..shared] + buf[abs + ENTRY_HEADER..abs + ENTRY_HEADER + suffix])
  }

  /** The position after `i` entries. */
  ghost function At(buf: bytes, size: nat, i: nat): Pos
    requires HEADER + size <= |buf|
  {
    if i == 0 then Pos(0, [])
    else
      var p := At(buf, size, i - 1);
      if Fits(buf, size, p) then Next(buf, size, p) else p
  }

  function RestartsAt(buf: bytes, base: nat, n: nat): (rs: seq<nat>)
    requires base + 4 * n <= |buf|
    ensures |rs| == n
    ensures forall i :: 0 <= i < n ==> rs[i] == U32At(buf, base + 4 * i)
  {
    if n == 0 then [] else RestartsAt(buf, base, n - 1) + [U32At(buf, base + 4 * (n - 1))]
  }

  /** The header is right and the three sections fill the buffer exactly. */
  predicate HeaderOk(buf: bytes) {
    |buf| >= HEADER && buf[0] == VERSION && U32At(buf, 8) != 0 &&
    |buf| == HEADER + U32At(buf, 12) + 4 * U32At(buf, 16)
  }

  function View(buf: bytes): Index
    requires HeaderOk(buf)
  {
    Index(buf, U32At(buf, 4), U32At(buf, 8), U32At(buf, 12),
          RestartsAt(buf, HEADER + U32At(buf, 12), U32At(buf, 16)))
  }

  /** Entry `i` fits, and if it is a restart it is stored in full at the
      offset the restart table gives. */
  ghost predicate EntryOk(idx: Index, i: nat)
    requires idx.interval > 0 && HEADER + idx.size <= |idx.buf|
  {
    var p := At(idx.buf, idx.size, i);
    Fits(idx.buf, idx.size, p) &&
    (Aligned(i, idx.interval) ==>
      U16At(idx.buf, HEADER + p.cursor) == 0 &&
      Slot(i, idx.interval) < |idx.restarts| && idx.restarts[Slot(i, idx.interval)] == p.cursor)
  }

  /** Entry `i` starts a restart group, and the number of that group. */
  predicate Aligned(i: nat, interval: nat)
    requires interval > 0
  {
    i % interval == 0
  }

  function Slot(i: nat, interval: nat): nat
    requires interval > 0
  {
    i / interval
  }

  ghost predicate TableOk(idx: Index) {
    (forall r :: 0 <= r < |idx.restarts| ==> idx.restarts[r] <= idx.size) &&
    (forall r :: 0 < r < |idx.restarts| ==> idx.restarts[r - 1] < idx.restarts[r])
  }

  ghost predicate Valid(idx: Index) {
    idx.interval > 0 && HEADER + idx.size <= |idx.buf| &&
    |idx.restarts| == CeilDiv(idx.num, idx.interval) &&
    TableOk(idx) &&
    (forall i :: 0 <= i < idx.num ==> EntryOk(idx, i)) &&
    At(idx.buf, idx.size, idx.num).cursor == idx.size
  }

  ghost predicate Acceptable(buf: bytes) {
    HeaderOk(buf) && Valid(View(buf))
  }

  /** Accepts a buffer exactly when every entry is well-formed. */
  method FromBytes(buf: bytes) returns (r: Result<Index>)
    ensures r.Ok? <==> Acceptable(buf)
    ensures r.Ok? ==> r.value == View(buf)
    ensures r.Err? ==> r.error == Corruption
  {
    hide U16At, U32At, CeilDiv;
    if |buf| < HEADER || buf[0] != VERSION || U32At(buf, 8) == 0 { return Err(Corruption); }
    var num, interval, size, count := U32At(buf, 4), U32At(buf, 8), U32At(buf, 12), U32At(buf, 16);
    if |buf| != HEADER + size + 4 * (count as int) { return Err(Corruption); }
    var base := HEADER + size;
    var restarts: seq<nat> := [];
    for k := 0 to count
      invariant restarts == RestartsAt(buf, base, k)
      invariant forall r :: 0 <= r < k ==> restarts[r] <= size
      invariant forall r :: 0 < r < k ==> restarts[r - 1] < restarts[r]
    {
      var ro := U32At(buf, base + 4 * k);
      ghost var full := RestartsAt(buf, base, count);
      assert full[k] == ro && (k > 0 ==> full[k - 1] == restarts[k - 1]);
      if ro > size { return Err(Corruption); }
      if k > 0 && ro <= restarts[k - 1] { return Err(Corruption); }
      restarts := restarts + [ro];
    }
    if count != CeilDiv(num, interval) { return Err(Corruption); }
    var idx := Index(buf, num, interval, size, restarts);
    var ok := WalkEntries(idx);
    r := if ok then Ok(idx) else Err(Corruption);
  }

  /** The validation pass over all entries. */
  method WalkEntries(idx: Index) returns (ok: bool)
    requires idx.interval > 0 && HEADER + idx.size <= |idx.buf|
    requires |idx.restarts| == CeilDiv(idx.num, idx.interval)
    requires TableOk(idx)
    ensures ok <==> Valid(idx)
  {
    hide U16At, CeilDiv, Aligned, Slot, At, EntryOk;
    var cursor: nat, prevLen: nat := 0, 0;
    WalkStart(idx);
    for i := 0 to idx.num
      invariant forall j :: 0 <= j < i ==> EntryOk(idx, j)
      invariant cursor == At(idx.buf, idx.size, i).cursor
      invariant prevLen == |At(idx.buf, idx.size, i).prev|
    {
      var abs := HEADER + cursor;
      WalkStep(idx, i);
      if cursor + ENTRY_HEADER > idx.size { return false; }
      var shared: nat, suffix: nat := U16At(idx.buf, abs), U16At(idx.buf, abs + 2);
      if Aligned(i, idx.interval) && shared != 0 { return false; }
      if shared > prevLen { return false; }
      if cursor + ENTRY_HEADER + suffix + TAIL > idx.size { return false; }
      if Aligned(i, idx.interval) {
        RestartInTable(i, idx.num, idx.interval);
        if idx.restarts[Slot(i, idx.interval)] != cursor { return false; }
      }
      prevLen := shared + suffix;
      cursor := cursor + ENTRY_HEADER + suffix + TAIL;
    }
    ok := cursor == idx.size;
  }

  lemma WalkStart(idx: Index)
    requires HEADER + idx.size <= |idx.buf|
    ensures At(idx.buf, idx.size, 0) == Pos(0, [])
  {
  }

  /** What the walk looks at decides whether entry `i` is well-formed. */
  lemma WalkStep(idx: Index, i: nat)
    requires idx.interval > 0 && HEADER + idx.size <= |idx.buf|
    ensures
      var p := At(idx.buf, idx.size, i);
      EntryOk(idx, i) <==>
        Fits(idx.buf, idx.size, p) &&
        (Aligned(i, idx.interval) ==>
          U16At(idx.buf, HEADER + p.cursor) == 0 &&
          Slot(i, idx.interval) < |idx.restarts| && idx.restarts[Slot(i, idx.interval)] == p.cursor)
    ensures
      var p, q := At(idx.buf, idx.size, i), At(idx.buf, idx.size, i + 1);
      Fits(idx.buf, idx.size, p) ==>
        var shared: nat, suffix: nat := U16At(idx.buf, HEADER + p.cursor), U16At(idx.buf, HEADER + p.cursor + 2);
        q.cursor == p.cursor + ENTRY_HEADER + suffix + TAIL && |q.prev| == shared + suffix
  {
    hide U16At, Aligned, Slot;
  }

  lemma RestartInTable(i: nat, num: nat, interval: nat)
    requires interval > 0 && i < num && Aligned(i, interval)
    ensures Slot(i, interval) < CeilDiv(num, interval)
  {
    DivisibleIsMultiple(i, interval);
    MultiplesBelow(i / interval, num, interval);
  }

  // ── The entries a valid index holds ───────────────────────────────────────

  function LocAt(buf: bytes, pos: nat): PageLocation
    requires pos + TAIL <= |buf|
  {
    PageLocation(U64At(buf, pos), U32At(buf, pos + 8), U64At(buf, pos + 12))
  }

  ghost function EntryAt(idx: Index, i: nat): Entry
    requires Valid(idx) && i < idx.num
  {
    assert EntryOk(idx, i);
    var next := At(idx.buf, idx.size, i + 1);
    Entry(next.prev, LocAt(idx.buf, HEADER + next.cursor - TAIL))
  }

  ghost function Entries(idx: Index): (es: seq<Entry>)
    requires Valid(idx)
    ensures |es| == idx.num
  {
    seq(idx.num, i requires 0 <= i < idx.num => EntryAt(idx, i))
  }

  /** `decode_entry_at`. */
  function DecodeAt(idx: Index, p: Pos): (Entry, Pos)
    requires HEADER + idx.size <= |idx.buf| && Fits(idx.buf, idx.size, p)
  {
    var next := Next(idx.buf, idx.size, p);
    (Entry(next.prev, LocAt(idx.buf, HEADER + next.cursor - TAIL)), next)
  }

  lemma {:induction false} CursorsAscend(idx: Index, i: nat, j: nat)
    requires Valid(idx) && i <= j <= idx.num
    ensures At(idx.buf, idx.size, i).cursor + 24 * (j - i) <= At(idx.buf, idx.size, j).cursor
    decreases j
  {
    if i < j {
      assert EntryOk(idx, j - 1);
      CursorsAscend(idx, i, j - 1);
    }
  }

  /** The scan is at the end of the section exactly after the last entry. */
  lemma CursorEnd(idx: Index, i: nat)
    requires Valid(idx) && i <= idx.num
    ensures At(idx.buf, idx.size, i).cursor <= idx.size
    ensures At(idx.buf, idx.size, i).cursor == idx.size <==> i == idx.num
  {
    CursorsAscend(idx, i, idx.num);
  }

  /** Every restart offset points at its entry, and decoding there needs no
      previous key. */
  lemma RestartPoints(idx: Index, r: nat)
    requires Valid(idx) && r < |idx.restarts|
    ensures Multiple(r, idx.interval) < idx.num
    ensures idx.restarts[r] == At(idx.buf, idx.size, Multiple(r, idx.interval)).cursor
    ensures Fits(idx.buf, idx.size, Pos(idx.restarts[r], []))
    ensures DecodeAt(idx, Pos(idx.restarts[r], [])) ==
            (EntryAt(idx, Multiple(r, idx.interval)), At(idx.buf, idx.size, Multiple(r, idx.interval) + 1))
  {
    hide U16At, Multiple, CeilDiv, LocAt;
    MultiplesBelow(r, idx.num, idx.interval);
    MultipleDivides(r, idx.interval);
    var i := Multiple(r, idx.interval);
    assert EntryOk(idx, i);
    var p := At(idx.buf, idx.size, i);
    var none: bytes := [];
    assert p.prev[..0] == none == none[..0];
  }

  // ── Search ────────────────────────────────────────────────────────────────

  /** Entry `i` is not above the target and the next one, if any, is. */
  ghost predicate Covers(es: seq<Entry>, target: bytes, i: nat) {
    i < |es| && AtMost(es[i].key, target) && (i + 1 < |es| ==> Less(target, es[i + 1].key))
  }

  ghost predicate IsAnswer(es: seq<Entry>, target: bytes, r: Option<(PageLocation, Option<u64>)>) {
    match r
    case None => es == [] || Less(target, es[0].key)
    case Some((loc, next)) =>
      exists i: nat :: Covers(es, target, i) && loc == es[i].loc && next == NextRow(es, i)
  }

  /** The first row of the page after page `i`, if there is one. */
  function NextRow(es: seq<Entry>, i: nat): Option<u64> {
    if i + 1 < |es| then Some(es[i + 1].loc.firstRow) else None
  }

  /** `read_restart_key`: the full key of restart `r`. */
  method ReadRestartKey(idx: Index, r: nat) returns (key: bytes)
    requires Valid(idx) && r < |idx.restarts|
    ensures Multiple(r, idx.interval) < idx.num && key == Entries(idx)[Multiple(r, idx.interval)].key
  {
    hide U16At, LocAt, CeilDiv, Multiple;
    RestartPoints(idx, r);
    var pos := HEADER + idx.restarts[r];
    var suffix := U16At(idx.buf, pos + 2);
    key := idx.buf[pos + ENTRY_HEADER..pos + ENTRY_HEADER + suffix];
    assert EntryOk(idx, Multiple(r, idx.interval));
    ghost var none: bytes := [];
    assert none[..0] + key == key;
  }

  /** Phase 1: the last restart whose key is not above the target, found by
      bisection; -1 if the first restart is already above it. */
  method LastRestart(idx: Index, target: bytes) returns (lo: int)
    requires Valid(idx)
    ensures -1 <= lo < |idx.restarts|
    ensures lo >= 0 ==>
            Multiple(lo, idx.interval) < idx.num && AtMost(Entries(idx)[Multiple(lo, idx.interval)].key, target)
    ensures lo == -1 && idx.num > 0 ==> Less(target, Entries(idx)[0].key)
  {
    var hi := |idx.restarts|;
    lo := -1;
    while hi - lo > 1
      invariant -1 <= lo < hi <= |idx.restarts|
      invariant lo >= 0 ==>
                Multiple(lo, idx.interval) < idx.num && AtMost(Entries(idx)[Multiple(lo, idx.interval)].key, target)
      invariant hi < |idx.restarts| ==>
                Multiple(hi, idx.interval) < idx.num && Less(target, Entries(idx)[Multiple(hi, idx.interval)].key)
      decreases hi - lo
    {
      var mid := (lo + hi) / 2;
      var key := ReadRestartKey(idx, mid);
      if AtMost(key, target) { lo := mid; } else { hi := mid; }
    }
    if lo == -1 && idx.num > 0 {
      RestartInTable(0, idx.num, idx.interval);
    }
  }

  /** Phase 2: decode forward from entry `i`, whose key is not above the
      target, to the last entry of the run that is not above it. */
  lemma EntryDecodes(idx: Index, j: nat)
    requires Valid(idx) && j < idx.num
    ensures HEADER + idx.size <= |idx.buf| && Fits(idx.buf, idx.size, At(idx.buf, idx.size, j))
    ensures DecodeAt(idx, At(idx.buf, idx.size, j)) == (Entries(idx)[j], At(idx.buf, idx.size, j + 1))
    ensures Entries(idx)[j] == EntryAt(idx, j)
  {
    hide U16At, LocAt, CeilDiv;
    assert EntryOk(idx, j);
  }

  method ScanFrom(idx: Index, target: bytes, start: nat, ghost i: nat)
    returns (best: Option<PageLocation>, next: Option<u64>)
    requires Valid(idx) && i < idx.num
    requires start == At(idx.buf, idx.size, i).cursor
    requires Fits(idx.buf, idx.size, Pos(start, []))
    requires DecodeAt(idx, Pos(start, [])) == (EntryAt(idx, i), At(idx.buf, idx.size, i + 1))
    ensures best.None? ==> Less(target, Entries(idx)[i].key)
    ensures best.Some? ==> IsAnswer(Entries(idx), target, Some((best.value, next)))
  {
    hide U16At, LocAt, Less, At, EntryAt, DecodeAt, Fits, Entries, EntryOk, TableOk, CeilDiv;
    var p := Pos(start, []);
    best, next := None, None;
    ghost var j := i;
    CursorEnd(idx, i);
    while true
      invariant i <= j <= idx.num
      invariant p.cursor == At(idx.buf, idx.size, j).cursor
      invariant j == i ==> p == Pos(start, []) && best.None?
      invariant j > i ==> p == At(idx.buf, idx.size, j)
      invariant j > i ==> best == Some(Entries(idx)[j - 1].loc) && AtMost(Entries(idx)[j - 1].key, target)
      invariant next.None?
      decreases idx.num - j
    {
      CursorEnd(idx, j);
      if p.cursor >= idx.size {
        assert Covers(Entries(idx), target, j - 1);
        return;
      }
      EntryDecodes(idx, j);
      var (e, q) := DecodeAt(idx, p);
      if Less(target, e.key) {
        if best.Some? {
          next := Some(e.loc.firstRow);
          assert Covers(Entries(idx), target, j - 1);
        }
        return;
      }
      best, p, j := Some(e.loc), q, j + 1;
    }
  }

  /** `find_page_with_next`. */
  method FindPage(idx: Index, target: bytes) returns (r: Option<(PageLocation, Option<u64>)>)
    requires Valid(idx)
    ensures IsAnswer(Entries(idx), target, r)
  {
    hide U16At, LocAt, Next, Less, CeilDiv;
    if idx.num == 0 { return None; }
    var lo := LastRestart(idx, target);
    var restart := if lo < 0 then 0 else lo;
    RestartInTable(0, idx.num, idx.interval);
    RestartPoints(idx, restart);
    RestartPoints(idx, 0);
    var best, next := ScanFrom(idx, target, if lo < 0 then 0 else idx.restarts[lo], Multiple(restart, idx.interval));
    if best.None? {
      LessAsymmetricAtMost(target, Entries(idx)[Multiple(restart, idx.interval)].key);
      return None;
    }
    r := Some((best.value, next));
  }

  lemma LessAsymmetricAtMost(a: bytes, b: bytes)
    ensures !(Less(a, b) && AtMost(b, a))
  {
  }

  /** On ascending keys the answer is unique: it is the entry with the greatest
      key not above the target. */
  lemma AnswerUnique(es: seq<Entry>, target: bytes, r: Option<(PageLocation, Option<u64>)>, i: nat)
    requires Ascending(es) && IsAnswer(es, target, r) && Covers(es, target, i)
    ensures r == Some((es[i].loc, NextRow(es, i)))
  {
    hide Less;
    match r
    case None =>
      AscendingAtMost(es, 0, i);
      AtMostTransitive(es[0].key, es[i].key, target);
    case Some((loc, next)) =>
      var k: nat :| Covers(es, target, k) && loc == es[k].loc && next == NextRow(es, k);
      if k < i {
        AscendingAtMost(es, k + 1, i);
        AtMostTransitive(es[k + 1].key, es[i].key, target);
      } else if i < k {
        AscendingAtMost(es, i + 1, k);
        AtMostTransitive(es[i + 1].key, es[k].key, target);
      }
  }

  lemma {:induction false} AscendingAtMost(es: seq<Entry>, i: nat, j: nat)
    requires Ascending(es) && i <= j < |es|
    ensures AtMost(es[i].key, es[j].key)
    decreases j
  {
    if i == j {
      LessIrreflexive(es[i].key);
    } else {
      AscendingAtMost(es, i, j - 1);
      AtMostLess(es[j - 1].key, es[j].key);
      AtMostTransitive(es[i].key, es[j - 1].key, es[j].key);
    }
  }

  // ── Iteration ─────────────────────────────────────────────────────────────

  /** `KvSparseIndexIter`. */
  class IndexIter {
    const idx: Index
    var cursor: nat
    var prev: bytes
    var remaining: nat

    ghost function Taken(): int
      reads this
    {
      idx.num - remaining
    }

    ghost predicate Ready()
      reads this
    {
      Valid(idx) && remaining <= idx.num && Pos(cursor, prev) == At(idx.buf, idx.size, idx.num - remaining)
    }

    constructor (idx: Index)
      requires Valid(idx)
      ensures this.idx == idx && Ready() && Taken() == 0
    {
      this.idx := idx;
      cursor, prev, remaining := 0, [], idx.num;
    }

    /** Yields the entries in order, each once. */
    method NextEntry() returns (e: Option<Entry>)
      requires Ready()
      modifies this
      ensures Ready()
      ensures old(Taken()) == idx.num ==> e.None? && Taken() == idx.num
      ensures old(Taken()) < idx.num ==> e == Some(Entries(idx)[old(Taken())]) && Taken() == old(Taken()) + 1
    {
      hide U16At, LocAt;
      if remaining == 0 { return None; }
      assert EntryOk(idx, idx.num - remaining);
      var (entry, p) := DecodeAt(idx, Pos(cursor, prev));
      cursor, prev, remaining := p.cursor, p.prev, remaining - 1;
      e := Some(entry);
    }
  }

  /** `iter().collect()`. */
  method Collect(idx: Index) returns (es: seq<Entry>)
    requires Valid(idx)
    ensures es == Entries(idx)
  {
    hide U16At, LocAt, Next, At;
    var it := new IndexIter(idx);
    es := [];
    var e := it.NextEntry();
    while e.Some?
      invariant it.idx == idx && it.Ready()
      invariant e.Some? ==> |es| < idx.num && e.value == Entries(idx)[|es|] && it.Taken() == |es| + 1
      invariant e.None? ==> |es| == idx.num
      invariant |es| <= idx.num && es == Entries(idx)[..|es|]
      decreases idx.num - |es|
    {
      es := es + [e.value];
      e := it.NextEntry();
    }
  }

  // ── Round trip ────────────────────────────────────────────────────────────

  /** The length of the entries section fits in its 32 bits. */
  ghost predicate Representable(es: seq<Entry>, interval: nat)
    requires interval > 0
  {
    Offset(es, interval, |es|) < U32
  }

  /** Then the other quantities stored in 32 bits fit, too. */
  lemma {:induction false} CountsFit(es: seq<Entry>, interval: nat, n: nat)
    requires interval > 0 && n <= |es|
    ensures |Restarts(es, interval, n)| <= n && (ENTRY_HEADER + TAIL) * n <= Offset(es, interval, n)
  {
    hide EntryBytes, SharedAt, IsRestart;
    if n > 0 { CountsFit(es, interval, n - 1); }
  }

  lemma {:induction false} EntriesPrefix(es: seq<Entry>, interval: nat, i: nat, n: nat)
    requires interval > 0 && i <= n <= |es|
    ensures EntriesBytes(es, interval, i) <= EntriesBytes(es, interval, n)
    decreases n
  {
    hide EntryBytes, SharedAt;
    if i < n { EntriesPrefix(es, interval, i, n - 1); }
  }

  /** Entry `i` occupies the bytes between its offset and the next one's. */
  lemma EntryInside(es: seq<Entry>, interval: nat, i: nat)
    requires interval > 0 && i < |es|
    ensures
      var buf, at := Encoded(es, interval), HEADER + Offset(es, interval, i);
      var e := EntryBytes(SharedAt(es, interval, i), es[i]);
      at + |e| <= HEADER + Offset(es, interval, |es|) <= |buf| &&
      Offset(es, interval, i + 1) == Offset(es, interval, i) + |e| &&
      buf[at..at + |e|] == e
  {
    hide EntryBytes, SharedAt, Encoded, EntriesBytes;
    var buf, body := Encoded(es, interval), EntriesBytes(es, interval, |es|);
    var upto := EntriesBytes(es, interval, i + 1);
    var a, b := Offset(es, interval, i), |upto|;
    BodyInside(es, interval);
    EntriesPrefix(es, interval, i + 1, |es|);
    EntryAppended(es, interval, i);
    SliceOf(buf, HEADER, body, a, b);
    assert body[a..b] == upto[a..b];
  }

  lemma EntryAppended(es: seq<Entry>, interval: nat, i: nat)
    requires interval > 0 && i < |es|
    ensures
      var e := EntryBytes(SharedAt(es, interval, i), es[i]);
      var a := Offset(es, interval, i);
      Offset(es, interval, i + 1) == a + |e| && EntriesBytes(es, interval, i + 1)[a..a + |e|] == e
  {
    hide EntryBytes, SharedAt;
  }

  lemma BodyInside(es: seq<Entry>, interval: nat)
    requires interval > 0
    ensures HEADER + Offset(es, interval, |es|) <= |Encoded(es, interval)|
    ensures Encoded(es, interval)[HEADER..HEADER + Offset(es, interval, |es|)] == EntriesBytes(es, interval, |es|)
  {
    hide EntriesBytes, Restarts, RestartTable, Header;
  }

  lemma SliceOf(buf: bytes, at: nat, whole: bytes, i: nat, j: nat)
    requires at + |whole| <= |buf| && buf[at..at + |whole|] == whole && i <= j <= |whole|
    ensures buf[at + i..at + j] == whole[i..j]
  {
    forall k | i <= k < j
      ensures buf[at + k] == whole[k]
    {
      assert buf[at..at + |whole|][k] == whole[k];
    }
  }

  /** The parts of one entry read back from wherever it was written. */
  lemma EntryReads(buf: bytes, at: nat, shared: nat, e: Entry)
    requires shared <= |e.key| <= MAX_KEY_LEN
    requires at + |EntryBytes(shared, e)| <= |buf|
    requires buf[at..at + |EntryBytes(shared, e)|] == EntryBytes(shared, e)
    ensures U16At(buf, at) == shared
    ensures U16At(buf, at + 2) == |e.key| - shared
    ensures buf[at + 4..at + 4 + |e.key| - shared] == e.key[shared..]
  {
    var s, k := EntryBytes(shared, e), |e.key| - shared;
    SliceOf(buf, at, s, 0, 2);
    ReadU16(buf, at, shared);
    SliceOf(buf, at, s, 2, 4);
    ReadU16(buf, at + 2, k);
    SliceOf(buf, at, s, 4, 4 + k);
  }

  lemma LocReads(buf: bytes, at: nat, loc: PageLocation)
    requires at + TAIL <= |buf| && buf[at..at + TAIL] == LocBytes(loc)
    ensures LocAt(buf, at) == loc
  {
    hide U16At, U32At, U64At, ToLe;
    var s := LocBytes(loc);
    SliceOf(buf, at, s, 0, 8);
    SliceOf(buf, at, s, 8, 12);
    SliceOf(buf, at, s, 12, 20);
    ReadU64(buf, at, loc.pageOffset);
    ReadU32(buf, at + 8, loc.pageSize);
    ReadU64(buf, at + 12, loc.firstRow);
  }

  /** The walk over a built buffer stands at entry `i` with its predecessor's
      key, and entry `i` can be decoded there. */
  lemma {:induction false} BuiltAt(es: seq<Entry>, interval: nat, i: nat)
    requires interval > 0 && Buildable(es) && i <= |es|
    ensures HEADER + Offset(es, interval, |es|) <= |Encoded(es, interval)|
    ensures At(Encoded(es, interval), Offset(es, interval, |es|), i) ==
            Pos(Offset(es, interval, i), PrevKey(es, i))
  {
    hide U16At, SharedAt, Next, EntryBytes, Restarts;
    if i > 0 {
      BuiltAt(es, interval, i - 1);
      BuiltStep(es, interval, i - 1);
    }
  }

  lemma BuiltStep(es: seq<Entry>, interval: nat, i: nat)
    requires interval > 0 && Buildable(es) && i < |es|
    ensures
      var buf, size := Encoded(es, interval), Offset(es, interval, |es|);
      var p := Pos(Offset(es, interval, i), PrevKey(es, i));
      HEADER + size <= |buf| && Fits(buf, size, p) &&
      Next(buf, size, p) == Pos(Offset(es, interval, i + 1), es[i].key) &&
      U16At(buf, HEADER + p.cursor) == SharedAt(es, interval, i)
  {
    hide Encoded, U16At, EntryBytes, EntriesBytes, SharedAt;
    var buf, shared := Encoded(es, interval), SharedAt(es, interval, i);
    EntryInside(es, interval, i);
    EntryReads(buf, HEADER + Offset(es, interval, i), shared, es[i]);
    assert es[i].key == es[i].key[..shared] + es[i].key[shared..];
  }

  lemma BuiltLoc(es: seq<Entry>, interval: nat, i: nat)
    requires interval > 0 && i < |es|
    ensures HEADER + Offset(es, interval, i + 1) <= |Encoded(es, interval)|
    ensures Offset(es, interval, i + 1) >= TAIL
    ensures LocAt(Encoded(es, interval), HEADER + Offset(es, interval, i + 1) - TAIL) == es[i].loc
  {
    hide Encoded, LocAt, EntriesBytes, SharedAt, LocBytes;
    var buf, at := Encoded(es, interval), HEADER + Offset(es, interval, i);
    var s := EntryBytes(SharedAt(es, interval, i), es[i]);
    EntryInside(es, interval, i);
    SliceOf(buf, at, s, |s| - TAIL, |s|);
    LocReads(buf, at + |s| - TAIL, es[i].loc);
  }

  lemma HeaderReads(es: seq<Entry>, interval: nat)
    requires 0 < interval < U32 && Representable(es, interval)
    ensures HeaderOk(Encoded(es, interval))
    ensures
      var buf := Encoded(es, interval);
      U32At(buf, 4) == |es| && U32At(buf, 8) == interval && U32At(buf, 12) == Offset(es, interval, |es|) &&
      U32At(buf, 16) == |Restarts(es, interval, |es|)|
  {
    hide U16At, U32At, EntriesBytes, Restarts, RestartTable, ToLe;
    var buf, n := Encoded(es, interval), |es|;
    var size, count := Offset(es, interval, n), |Restarts(es, interval, n)|;
    var h := Header(n, interval, size, count);
    CountsFit(es, interval, n);
    assert buf[0..0 + HEADER] == h;
    assert h[4..8] == ToLe(n, 4) && h[8..12] == ToLe(interval, 4);
    assert h[12..16] == ToLe(size, 4) && h[16..20] == ToLe(count, 4);
    SliceOf(buf, 0, h, 4, 8);
    SliceOf(buf, 0, h, 8, 12);
    SliceOf(buf, 0, h, 12, 16);
    SliceOf(buf, 0, h, 16, 20);
    ReadU32(buf, 4, n);
    ReadU32(buf, 8, interval);
    ReadU32(buf, 12, size);
    ReadU32(buf, 16, count);
  }

  lemma {:induction false} TableSlot(rs: seq<nat>, k: nat)
    requires k < |rs|
    ensures RestartTable(rs)[4 * k..4 * k + 4] == ToLe(rs[k], 4)
  {
    var init := rs[..|rs| - 1];
    if k < |rs| - 1 {
      TableSlot(init, k);
      assert RestartTable(rs)[4 * k..4 * k + 4] == RestartTable(init)[4 * k..4 * k + 4];
    }
  }

  lemma TableReads(es: seq<Entry>, interval: nat, k: nat)
    requires 0 < interval < U32 && Representable(es, interval)
    requires k < |Restarts(es, interval, |es|)| && Restarts(es, interval, |es|)[k] < U32
    ensures HEADER + Offset(es, interval, |es|) + 4 * k + 4 <= |Encoded(es, interval)|
    ensures U32At(Encoded(es, interval), HEADER + Offset(es, interval, |es|) + 4 * k) == Restarts(es, interval, |es|)[k]
  {
    hide U32At, EntriesBytes, Restarts, Header, ToLe;
    var buf, at, rs := Encoded(es, interval), HEADER + Offset(es, interval, |es|), Restarts(es, interval, |es|);
    var table := RestartTable(rs);
    assert buf[at..at + |table|] == table;
    TableSlot(rs, k);
    SliceOf(buf, at, table, 4 * k, 4 * k + 4);
    ReadU32(buf, at + 4 * k, rs[k]);
  }

  lemma CountStep(n: nat, interval: nat)
    requires interval > 0 && n < U32
    ensures IsRestart(n, interval) ==>
              CeilDiv(n + 1, interval) == CeilDiv(n, interval) + 1 && Multiple(CeilDiv(n, interval), interval) == n
    ensures !IsRestart(n, interval) ==> CeilDiv(n + 1, interval) == CeilDiv(n, interval)
  {
    hide CeilDiv, Multiple;
    CeilDivStep(n, interval);
  }

  /** Restart `k` of the first `n` entries is entry `Multiple(k, interval)`. */
  lemma {:induction false} RestartsAre(es: seq<Entry>, interval: nat, n: nat)
    requires interval > 0 && n <= |es| < U32 && Offset(es, interval, |es|) < U32
    ensures |Restarts(es, interval, n)| == CeilDiv(n, interval)
    ensures forall k :: 0 <= k < |Restarts(es, interval, n)| ==>
              Multiple(k, interval) < n && Restarts(es, interval, n)[k] == Offset(es, interval, Multiple(k, interval))
  {
    hide EntriesBytes, CeilDiv, Multiple, SharedAt, IsRestart;
    if n > 0 {
      RestartsAre(es, interval, n - 1);
      EntriesPrefix(es, interval, n - 1, |es|);
      CountStep(n - 1, interval);
    } else {
      CeilDivIs(0, interval, 0);
    }
  }

  lemma BuiltRestarts(es: seq<Entry>, interval: nat)
    requires 0 < interval < U32 && Representable(es, interval)
    ensures HeaderOk(Encoded(es, interval))
    ensures View(Encoded(es, interval)) ==
            Index(Encoded(es, interval), |es|, interval, Offset(es, interval, |es|), Restarts(es, interval, |es|))
  {
    hide Encoded, U32At, EntriesBytes, Restarts, Multiple;
    var buf, rs := Encoded(es, interval), Restarts(es, interval, |es|);
    var base := HEADER + Offset(es, interval, |es|);
    HeaderReads(es, interval);
    CountsFit(es, interval, |es|);
    RestartsAre(es, interval, |es|);
    forall k | 0 <= k < |rs|
      ensures RestartsAt(buf, base, |rs|)[k] == rs[k]
    {
      EntriesPrefix(es, interval, Multiple(k, interval), |es|);
      TableReads(es, interval, k);
    }
    assert RestartsAt(buf, base, |rs|) == rs;
  }

  lemma BuiltTable(es: seq<Entry>, interval: nat, k: nat)
    requires 0 < interval < U32 && Representable(es, interval)
    requires 0 < k < |Restarts(es, interval, |es|)|
    ensures Restarts(es, interval, |es|)[k - 1] < Restarts(es, interval, |es|)[k]
  {
    hide EntriesBytes, Restarts, CeilDiv;
    CountsFit(es, interval, |es|);
    RestartsAre(es, interval, |es|);
    var i, j := Multiple(k - 1, interval), Multiple(k, interval);
    OffsetGrows(es, interval, i);
    EntriesPrefix(es, interval, i + 1, j);
  }

  lemma OffsetGrows(es: seq<Entry>, interval: nat, i: nat)
    requires interval > 0 && i < |es|
    ensures Offset(es, interval, i) < Offset(es, interval, i + 1)
  {
    hide EntryBytes, SharedAt;
  }

  lemma BuiltEntryOk(es: seq<Entry>, interval: nat, i: nat)
    requires 0 < interval < U32 && Representable(es, interval) && Buildable(es) && i < |es|
    ensures HEADER + Offset(es, interval, |es|) <= |Encoded(es, interval)|
    ensures EntryOk(Index(Encoded(es, interval), |es|, interval, Offset(es, interval, |es|),
                          Restarts(es, interval, |es|)), i)
  {
    hide Encoded, U16At, EntriesBytes, Restarts, SharedLen, At;
    BuiltAt(es, interval, i);
    BuiltStep(es, interval, i);
    if i % interval == 0 {
      CountsFit(es, interval, |es|);
      RestartsAre(es, interval, |es|);
      RestartInTable(i, |es|, interval);
      DivisibleIsMultiple(i, interval);
    }
  }

  /** Parsing a built index gives back its entries if the section fits... */
  lemma FittingRoundTrip(es: seq<Entry>, interval: nat)
    requires 0 < interval < U32 && Buildable(es) && Representable(es, interval)
    ensures Acceptable(Encoded(es, interval))
    ensures Entries(View(Encoded(es, interval))) == es
  {
    hide Encoded, U16At, U32At, EntriesBytes, Restarts, At, LocAt, Multiple, EntryOk;
    var n, rs := |es|, Restarts(es, interval, |es|);
    BuiltRestarts(es, interval);
    CountsFit(es, interval, n);
    RestartsAre(es, interval, n);
    var idx := View(Encoded(es, interval));
    forall k | 0 <= k < |rs|
      ensures rs[k] <= idx.size
    {
      EntriesPrefix(es, interval, Multiple(k, interval), n);
    }
    forall k | 0 < k < |rs|
      ensures rs[k - 1] < rs[k]
    {
      BuiltTable(es, interval, k);
    }
    forall i | 0 <= i < n
      ensures EntryOk(idx, i)
    {
      BuiltEntryOk(es, interval, i);
    }
    BuiltAt(es, interval, n);
    assert Valid(idx);
    forall i | 0 <= i < n
      ensures EntryAt(idx, i) == es[i]
    {
      BuiltAt(es, interval, i + 1);
      BuiltLoc(es, interval, i);
    }
  }

  /** ...and fails on the header if it does not. */
  lemma OverflowRefused(es: seq<Entry>, interval: nat)
    requires interval > 0 && !Representable(es, interval)
    ensures !HeaderOk(Encoded(es, interval))
  {
    hide U32At, EntriesBytes, Restarts, RestartTable, ToLe;
    var buf, n := Encoded(es, interval), |es|;
    var size, count := Offset(es, interval, n), |Restarts(es, interval, n)|;
    var h := Header(n, interval, size, count);
    assert buf[0..0 + HEADER] == h;
    assert h[12..16] == ToLe(size, 4) && h[16..20] == ToLe(count, 4);
    SliceOf(buf, 0, h, 12, 16);
    SliceOf(buf, 0, h, 16, 20);
    ReadU32(buf, 12, size);
    ReadU32(buf, 16, count);
  }

  /** For strictly ascending keys of at most 65535 bytes, parsing what `build`
      wrote succeeds and gives back the entries if and only if the entries
      section is shorter than 2^32 bytes. */
  lemma RoundTrip(es: seq<Entry>, interval: nat)
    requires 0 < interval < U32 && Buildable(es)
    ensures Acceptable(Encoded(es, interval)) <==> Offset(es, interval, |es|) < U32
    ensures Acceptable(Encoded(es, interval)) ==> Entries(View(Encoded(es, interval))) == es
  {
    hide Encoded, Entries, View, Valid, HeaderOk, Offset;
    if Representable(es, interval) {
      FittingRoundTrip(es, interval);
    } else {
      OverflowRefused(es, interval);
    }
  }

  /** A list of 2^28 keys that `build` accepts and `from_bytes` refuses. */
  function TooMany(): seq<Entry> {
    seq(0x1000_0000, i requires 0 <= i < 0x1000_0000 => Entry(ToBe(i, 8), PageLocation(0, 0, 0)))
  }

  lemma BuiltButRefused(interval: nat)
    requires 0 < interval < U32
    ensures Buildable(TooMany()) && !Acceptable(Encoded(TooMany(), interval))
  {
    hide Encoded, Valid, HeaderOk, ToBe, EntriesBytes, Restarts;
    var es := TooMany();
    Pow256Values();
    forall i | 0 < i < |es|
      ensures Less(es[i - 1].key, es[i].key)
    {
      BeOrder(i - 1, i, 8);
    }
    CountsFit(es, interval, |es|);
    OverflowRefused(es, interval);
  }

  /** End to end: build, parse, iterate and search. Fails exactly if the keys
      are not strictly ascending, one is too long, or the section is. */
  method BuildThenSearch(es: seq<Entry>, interval: u32, target: bytes)
    returns (ok: bool, listed: seq<Entry>, r: Option<(PageLocation, Option<u64>)>)
    ensures ok <==> Buildable(es) && Representable(es, Clamp(interval))
    ensures ok ==> listed == es && IsAnswer(es, target, r)
    ensures ok ==> (r.None? <==> es == [] || Less(target, es[0].key))
    ensures ok ==> forall i: nat :: Covers(es, target, i) ==>
              r == Some((es[i].loc, if i == |es| - 1 then None else Some(es[i + 1].loc.firstRow)))
  {
    hide Encoded, At, Next, EntryAt, Offset;
    ok, listed, r := false, [], None;
    var built := Build(es, interval);
    if built.Err? { return; }
    RoundTrip(es, Clamp(interval));
    var parsed := FromBytes(built.value);
    if parsed.Err? { return; }
    ok := true;
    listed := Collect(parsed.value);
    r := FindPage(parsed.value, target);
    forall i: nat | Covers(es, target, i)
      ensures r == Some((es[i].loc, NextRow(es, i)))
    {
      AnswerUnique(es, target, r, i);
    }
    if r.Some? {
      ghost var i: nat :| Covers(es, target, i);
      AscendingAtMost(es, 0, i);
      AtMostTransitive(es[0].key, es[i].key, target);
    }
  }
}
