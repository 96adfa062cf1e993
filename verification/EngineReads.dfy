/** Lookups and scans over all layers agree with the last operations. */
module EngineReads {
  import opened Wrappers
  import opened ByteStrings
  import opened Keys
  import opened Table
  import opened Visibility
  import opened Memtable
  import opened Versions
  import opened Catalog
  import opened LiveFiles
  import opened ReadPath
  import opened Flush
  import opened FlushCommit
  import opened EngineState

  // ── Point lookup ──────────────────────────────────────────────────────────

  ghost predicate MemtablesOk(sys: Sys, s: State) {
    MemOk(sys.env, s.active) && QueueOk(sys.env, s.queue)
  }

  lemma SoundMemtables(sys: Sys, s: State)
    requires MemsSound(sys, s)
    ensures MemtablesOk(sys, s)
  {
    hide InMem, Valid;
    assert MemSound(sys.env, MemAt(s, Layers(s)));
    forall i | 0 <= i < |s.queue|
      ensures MemOk(sys.env, s.queue[i])
    {
      assert MemSound(sys.env, MemAt(s, i + 1));
    }
  }

  /** The search from the newest memtable down stops at the last operation. */
  lemma {:induction false} QueueSearch(sys: Sys, s: State, spec: Spec, n: nat, uk: bytes)
    requires Inv(sys, s, spec) && n <= |s.queue| && MemtablesOk(sys, s)
    requires forall j :: n < j <= Layers(s) ==> !HasKey(sys.env, MemAt(s, j), uk)
    ensures match QueueNewest(sys.env, s.queue, n, uk, s.visible)
            case None => forall j :: 1 <= j <= Layers(s) ==> !HasKey(sys.env, MemAt(s, j), uk)
            case Some(x) => uk in spec && spec[uk] == Canon(x)
  {
    hide Newest, Valid, HasKey, TopIn, MemSound, VersionOk, CatalogOk, SysOk, Layered, PhaseOk, FirstsAscend, CacheOk,
         Tracks, InFiles;
    if n > 0 {
      AllReadable(sys, s, n);
      MemLookup(sys.env, MemAt(s, n), uk, s.visible);
      var here := Newest(sys.env, s.queue[n - 1].slots, uk, s.visible);
      if here.Some? {
        TopmostIsLast(sys, s, spec, n, Canon(here.value));
      } else {
        QueueSearch(sys, s, spec, n - 1, uk);
      }
    }
  }

  lemma MemSearch(sys: Sys, s: State, spec: Spec, uk: bytes)
    requires Inv(sys, s, spec) && MemtablesOk(sys, s)
    ensures match MemNewest(sys.env, s.active, s.queue, uk, s.visible)
            case None => forall j :: 1 <= j <= Layers(s) ==> !HasKey(sys.env, MemAt(s, j), uk)
            case Some(x) => uk in spec && spec[uk] == Canon(x)
  {
    hide Newest, Valid, HasKey, TopIn, MemSound, VersionOk, CatalogOk, SysOk, Layered, PhaseOk, FirstsAscend, CacheOk,
         Tracks, InFiles;
    var n := Layers(s);
    AllReadable(sys, s, n);
    MemLookup(sys.env, MemAt(s, n), uk, s.visible);
    var here := Newest(sys.env, s.active.slots, uk, s.visible);
    if here.Some? {
      TopmostIsLast(sys, s, spec, n, Canon(here.value));
    } else {
      QueueSearch(sys, s, spec, |s.queue|, uk);
    }
  }

  /** What the files say once no memtable has the key. */
  lemma DiskSearch(sys: Sys, s: State, spec: Spec, uk: bytes, ans: Option<Rec>)
    requires Inv(sys, s, spec)
    requires forall j :: 1 <= j <= Layers(s) ==> !HasKey(sys.env, MemAt(s, j), uk)
    requires NewestOnDisk(sys.codec, DiskOf(s), s.version, uk, s.visible, ans)
    ensures ans.None? ==> uk !in spec
    ensures ans.Some? ==> uk in spec && spec[uk] == FromRow(ans.value)
  {
    hide HasKey, MemsSound, VersionOk, CatalogOk, SysOk, Layered, PhaseOk, FirstsAscend, CacheOk, InMem, OnDisk,
         InVersion;
    DiskIsLast(sys, s, spec, uk);
    if uk in spec {
      var x :| OnDisk(sys.codec, DiskOf(s), s.version, x) && FromRow(x) == spec[uk];
      RowCounted(sys, s, x);
    }
    if ans.Some? {
      assert InFiles(sys, DiskOf(s), s.version, FromRow(ans.value));
      assert InLayer(sys, s, 0, FromRow(ans.value));
    }
  }

  lemma RowCounted(sys: Sys, s: State, x: Rec)
    requires VersionOk(sys.env, sys.codec, DiskOf(s), s.version) && Counted(sys, s) &&
             OnDisk(sys.codec, DiskOf(s), s.version, x)
    ensures x.key.seqno <= s.visible
  {
    hide VersionOk, InVersion, InMem;
    var f :| InVersion(s.version, f) && Shows(sys.codec, DiskOf(s), f, x);
    ShownBelow(sys, s, f, x);
  }

  // ── Range scan ────────────────────────────────────────────────────────────

  /** A memtable entry as the scan harvests it. */
  function HarvestRow(e: MemRec): Rec {
    Stored(e.key, if e.key.op == Put && e.val.Some? then e.val.value else Row([]))
  }

  /** `x` is as new as `v`, for the same key. */
  ghost predicate Outranks(x: Rec, v: MemRec) {
    x.key.uk == v.key.uk && (FromRow(x) == v || x.key.seqno > v.key.seqno)
  }

  ghost predicate RepresentedIn(harvest: seq<Rec>, v: MemRec) {
    exists x :: x in harvest && Outranks(x, v)
  }

  /** Everything harvested is stored and in range, and everything stored in
      range is represented. */
  ghost predicate Complete(sys: Sys, s: State, range: Range, harvest: seq<Rec>) {
    (forall x :: x in harvest ==> InRange(x.key.uk, range) && InState(sys, s, FromRow(x))) &&
    (forall v :: InState(sys, s, v) && InRange(v.key.uk, range) ==> RepresentedIn(harvest, v))
  }

  /** `out` lists the live keys in range, ascending, each with its row. */
  ghost predicate ScanOf(spec: Spec, range: Range, out: seq<Rec>) {
    StrictlyAscending(out) &&
    (forall x :: x in out ==>
      InRange(x.key.uk, range) && x.key.op == Put && x.key.uk in spec && spec[x.key.uk] == FromRow(x)) &&
    (forall uk :: uk in spec && InRange(uk, range) && spec[uk].key.op == Put ==> Listed(out, uk))
  }

  lemma TopIsLast(sys: Sys, s: State, spec: Spec, range: Range, harvest: seq<Rec>, x: Rec)
    requires Tracks(sys, s, spec) && Complete(sys, s, range, harvest) && Top(harvest, x)
    ensures x.key.uk in spec && spec[x.key.uk] == FromRow(x)
  {
    hide InState, InRange;
    var v := spec[x.key.uk];
    assert RepresentedIn(harvest, v);
    var y :| y in harvest && Outranks(y, v);
    assert NotNewer(FromRow(y), v);
    assert !VersionLess(y.key, x.key);
  }

  lemma LastIsTop(sys: Sys, s: State, spec: Spec, range: Range, harvest: seq<Rec>, uk: bytes) returns (x: Rec)
    requires Tracks(sys, s, spec) && Complete(sys, s, range, harvest) && uk in spec && InRange(uk, range)
    ensures Top(harvest, x) && FromRow(x) == spec[uk]
  {
    hide InState, InRange;
    assert RepresentedIn(harvest, spec[uk]);
    x :| x in harvest && Outranks(x, spec[uk]);
    assert NotNewer(FromRow(x), spec[uk]);
    forall y | y in harvest && y.key.uk == uk
      ensures !VersionLess(y.key, x.key)
    {
      LessIrreflexive(uk);
      assert NotNewer(FromRow(y), spec[uk]);
    }
  }

  /** Sorting and deduplicating a complete harvest gives the scan. */
  lemma ScanIsRight(sys: Sys, s: State, spec: Spec, range: Range, harvest: seq<Rec>, out: seq<Rec>)
    requires Tracks(sys, s, spec) && Complete(sys, s, range, harvest) && StrictlyAscending(out)
    requires forall x :: x in out ==> x.key.op == Put && Top(harvest, x)
    requires forall x :: Top(harvest, x) && x.key.op == Put ==> Listed(out, x.key.uk)
    ensures ScanOf(spec, range, out)
  {
    hide InState, InRange, Tracks, Top;
    forall x | x in out
      ensures InRange(x.key.uk, range) && x.key.uk in spec && spec[x.key.uk] == FromRow(x)
    {
      TopIsLast(sys, s, spec, range, harvest, x);
      TopHarvested(harvest, x);
    }
    forall uk | uk in spec && InRange(uk, range) && spec[uk].key.op == Put
      ensures Listed(out, uk)
    {
      var x := LastIsTop(sys, s, spec, range, harvest, uk);
      SpecKey(sys, s, spec, uk);
    }
  }

  lemma TopHarvested(harvest: seq<Rec>, x: Rec)
    requires Top(harvest, x)
    ensures x in harvest
  {
  }

  lemma SpecKey(sys: Sys, s: State, spec: Spec, uk: bytes)
    requires Tracks(sys, s, spec) && uk in spec
    ensures spec[uk].key.uk == uk
  {
  }

  /** A scan lists exactly the keys in range that a lookup finds, with the row
      the lookup returns. */
  lemma ScanAgreesWithLookup(spec: Spec, range: Range, out: seq<Rec>, uk: bytes)
    requires ScanOf(spec, range, out)
    ensures Listed(out, uk) <==> InRange(uk, range) && Answer(spec, uk).Some?
    ensures forall i :: 0 <= i < |out| && out[i].key.uk == uk ==> Answer(spec, uk) == Some(out[i].val)
  {
    hide InRange, Less;
    forall i | 0 <= i < |out| && out[i].key.uk == uk
      ensures Answer(spec, uk) == Some(out[i].val) && InRange(uk, range)
    {
      assert out[i] in out;
    }
  }

  // ── Harvesting ────────────────────────────────────────────────────────────

  ghost predicate MemHarvested(env: Env, m: Mem, range: Range, out: seq<Rec>) {
    (forall x :: x in out ==> InRange(x.key.uk, range) && InMem(env, m, FromRow(x))) &&
    (forall v :: InMem(env, m, v) && InRange(v.key.uk, range) ==> RepresentedIn(out, v))
  }

  lemma ListedAreTops(env: Env, m: Mem, readSeq: nat, entries: seq<MemRec>)
    requires MemSound(env, m) && AllVisible(env, m, readSeq)
    requires Lists(Recs(env, m.slots), |m.slots|, EVERYTHING, readSeq, {}, entries)
    ensures forall i :: 0 <= i < |entries| ==>
            TopIn(env, m, Canon(entries[i])) && FromRow(HarvestRow(entries[i])) == Canon(entries[i])
    ensures forall v :: InMem(env, m, v) ==> Listed(entries, v.key.uk)
  {
    hide Lookup, Recs, Valid, SlotOk, Decode, TopIn;
    forall i | 0 <= i < |entries|
      ensures TopIn(env, m, Canon(entries[i])) && FromRow(HarvestRow(entries[i])) == Canon(entries[i])
    {
      MemLookup(env, m, entries[i].key.uk, readSeq);
      assert InMem(env, m, Canon(entries[i]));
    }
    var recs := Recs(env, m.slots);
    forall v | InMem(env, m, v)
      ensures Listed(entries, v.key.uk)
    {
      var x :| x in recs && Canon(x) == v;
      var k :| 0 <= k < |recs| && recs[k] == x;
      assert Hit(recs[k], k, Query(x.key.uk, readSeq, {}));
    }
  }

  /** One memtable's part of a scan. */
  method HarvestMem(ghost env: Env, m: Mem, range: Range, readSeq: nat) returns (out: seq<Rec>)
    requires MemSound(env, m) && AllVisible(env, m, readSeq)
    ensures MemHarvested(env, m, range, out)
  {
    hide InMem, TopIn, Lists, Less, InRange, MemSound, AllVisible;
    SoundIsOk(env, m);
    var entries := IterAll(env, m.slots, readSeq);
    ListedAreTops(env, m, readSeq, entries);
    out := [];
    for i := 0 to |entries|
      invariant forall x :: x in out ==> InRange(x.key.uk, range) && InMem(env, m, FromRow(x))
      invariant forall k :: 0 <= k < i && InRange(entries[k].key.uk, range) ==> HarvestRow(entries[k]) in out
    {
      var uk := entries[i].key.uk;
      RangeGate(uk, range);
      if range.start.Some? && Less(uk, range.start.value) { continue; }
      if range.end.Some? && !Less(uk, range.end.value) { continue; }
      TopInMem(env, m, Canon(entries[i]));
      out := out + [HarvestRow(entries[i])];
    }
    forall v | InMem(env, m, v) && InRange(v.key.uk, range)
      ensures RepresentedIn(out, v)
    {
      var i :| 0 <= i < |entries| && entries[i].key.uk == v.key.uk;
      TopOutranks(env, m, entries[i], v);
    }
  }

  lemma RangeGate(uk: bytes, range: Range)
    ensures InRange(uk, range) <==>
            !(range.start.Some? && Less(uk, range.start.value)) && !(range.end.Some? && !Less(uk, range.end.value))
  {
  }

  lemma TopInMem(env: Env, m: Mem, v: MemRec)
    requires TopIn(env, m, v)
    ensures InMem(env, m, v)
  {
  }

  lemma TopOutranks(env: Env, m: Mem, e: MemRec, v: MemRec)
    requires TopIn(env, m, Canon(e)) && FromRow(HarvestRow(e)) == Canon(e) && InMem(env, m, v) && v.key.uk == e.key.uk
    ensures Outranks(HarvestRow(e), v)
  {
    hide InMem;
  }

  /** The memtables above layer `k` are harvested. */
  ghost predicate HarvestedAbove(sys: Sys, s: State, range: Range, k: nat, out: seq<Rec>) {
    (forall x :: x in out ==> InRange(x.key.uk, range) && InState(sys, s, FromRow(x))) &&
    (forall j, v :: k < j && InLayer(sys, s, j, v) && InRange(v.key.uk, range) ==> RepresentedIn(out, v))
  }

  lemma HarvestMore(sys: Sys, s: State, range: Range, k: nat, out: seq<Rec>, more: seq<Rec>)
    requires 1 <= k <= Layers(s) && HarvestedAbove(sys, s, range, k, out) &&
             MemHarvested(sys.env, MemAt(s, k), range, more)
    ensures HarvestedAbove(sys, s, range, k - 1, out + more)
  {
    hide InRange, InMem, Outranks, InFiles;
    var all := out + more;
    forall x | x in more
      ensures InState(sys, s, FromRow(x))
    {
      assert InLayer(sys, s, k, FromRow(x));
    }
    forall v | RepresentedIn(out, v) || RepresentedIn(more, v)
      ensures RepresentedIn(all, v)
    {
      var x :| (x in out || x in more) && Outranks(x, v);
      assert x in all;
    }
  }

  lemma HarvestFiles(sys: Sys, s: State, range: Range, out: seq<Rec>, more: seq<Rec>)
    requires VersionOk(sys.env, sys.codec, DiskOf(s), s.version) && Counted(sys, s) &&
             HarvestedAbove(sys, s, range, 0, out)
    requires forall x :: x in more ==> OnDisk(sys.codec, DiskOf(s), s.version, x) && InScan(x, range, s.visible)
    requires forall y :: OnDisk(sys.codec, DiskOf(s), s.version, y) && InScan(y, range, s.visible) ==>
             Represented(more, y)
    ensures Complete(sys, s, range, out + more)
  {
    hide VersionOk, Counted, OnDisk, InMem, InRange;
    var all := out + more;
    forall x | x in more
      ensures InState(sys, s, FromRow(x))
    {
      assert InLayer(sys, s, 0, FromRow(x));
    }
    forall v | InState(sys, s, v) && InRange(v.key.uk, range)
      ensures RepresentedIn(all, v)
    {
      var k: nat :| InLayer(sys, s, k, v);
      if k == 0 {
        var y :| OnDisk(sys.codec, DiskOf(s), s.version, y) && FromRow(y) == v;
        RowCounted(sys, s, y);
        var x :| x in more && x.key.uk == y.key.uk && (x == y || x.key.seqno > y.key.seqno);
        assert x in all && Outranks(x, v);
      } else {
        var x :| x in out && Outranks(x, v);
        assert x in all;
      }
    }
  }
}
