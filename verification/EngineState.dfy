/** The engine's state and what holds of it between any two steps. */
module EngineState {
  import opened Wrappers
  import opened ByteStrings
  import opened Keys
  import opened Table
  import opened Sst
  import opened Memtable
  import opened Versions
  import opened Catalog
  import opened LiveFiles
  import opened Flush
  import opened FlushCommit

  /** How far the flush in progress has come. */
  datatype Phase = Idle | Committed(next: Version, path: DataPath) | Installed(path: DataPath)

  datatype CacheEntry = CacheEntry(op: Op, row: Row)

  /** `MeruEngine`: memtables, sequence counters, catalog, data files, installed
      version, the running flush and the row cache. */
  datatype State = State(
    active: Mem,
    queue: seq<Mem>,
    counter: nat,
    visible: nat,
    store: Store,
    files: map<DataPath, File>,
    version: Version,
    phase: Phase,
    cache: map<bytes, CacheEntry>)

  /** The reference: the last operation on each key ever written. */
  type Spec = map<bytes, MemRec>

  function DiskOf(s: State): Disk {
    Disk(s.files, s.store.puffins)
  }

  // ── Layers ────────────────────────────────────────────────────────────────

  function Layers(s: State): nat {
    |s.queue| + 1
  }

  /** Layer 0 is the installed version; then the queue, oldest first; then the
      active memtable. */
  function MemAt(s: State, k: nat): Mem
    requires 1 <= k <= Layers(s)
  {
    if k <= |s.queue| then s.queue[k - 1] else s.active
  }

  ghost predicate MemsSound(sys: Sys, s: State) {
    forall k :: 1 <= k <= Layers(s) ==> MemSound(sys.env, MemAt(s, k))
  }

  ghost predicate InFiles(sys: Sys, disk: Disk, version: Version, v: MemRec) {
    exists x :: OnDisk(sys.codec, disk, version, x) && FromRow(x) == v
  }

  ghost predicate InLayer(sys: Sys, s: State, k: nat, v: MemRec) {
    if k == 0 then InFiles(sys, DiskOf(s), s.version, v)
    else k <= Layers(s) && InMem(sys.env, MemAt(s, k), v)
  }

  ghost predicate InState(sys: Sys, s: State, v: MemRec) {
    exists k: nat :: InLayer(sys, s, k, v)
  }

  /** The newest stored version of each key is its last operation. */
  ghost predicate Tracks(sys: Sys, s: State, spec: Spec) {
    (forall uk :: uk in spec ==> spec[uk].key.uk == uk && InState(sys, s, spec[uk])) &&
    (forall v :: InState(sys, s, v) ==> v.key.uk in spec && NotNewer(v, spec[v.key.uk]))
  }

  // ── Sequence numbers ──────────────────────────────────────────────────────

  ghost predicate Below(sys: Sys, a: Mem, b: Mem) {
    forall x, y :: InMem(sys.env, a, x) && InMem(sys.env, b, y) ==> x.key.seqno < y.key.seqno
  }

  /** The file the running flush installed, which shares its versions with the
      oldest memtable until that is dropped. */
  function Exempt(s: State, k: nat): Option<DataPath> {
    if k == 1 && s.phase.Installed? then Some(s.phase.path) else None
  }

  ghost predicate Layered(sys: Sys, s: State) {
    (forall j, k :: 1 <= j < k <= Layers(s) ==> Below(sys, MemAt(s, j), MemAt(s, k))) &&
    (forall k :: 1 <= k <= Layers(s) ==> FilesBelow(sys, s.version, MemAt(s, k), Exempt(s, k)))
  }

  /** Everything stored is visible. Numbers between the visible one and the
      counter were given to batches that the log refused. */
  ghost predicate Counted(sys: Sys, s: State) {
    s.visible < s.counter <= SEQNUM_MAX &&
    (forall k, v :: 1 <= k && InLayer(sys, s, k, v) ==> v.key.seqno <= s.visible) &&
    (forall f :: InVersion(s.version, f) ==> f.meta.seqMax <= s.visible)
  }

  function FirstAt(s: State, k: nat): nat
    requires 1 <= k <= Layers(s)
  {
    MemAt(s, k).firstSeq
  }

  /** Every memtable can be told apart by its first sequence number. */
  ghost predicate FirstsAscend(s: State) {
    !s.active.sealed &&
    (forall j, k :: 1 <= j < k <= Layers(s) ==> FirstAt(s, j) < FirstAt(s, k)) &&
    s.active.firstSeq <= s.counter + 1 && (s.active.slots != [] ==> s.active.firstSeq <= s.counter) &&
    (forall i :: 0 <= i < |s.queue| ==> s.queue[i].slots != [])
  }

  // ── The invariant ─────────────────────────────────────────────────────────

  ghost predicate PhaseOk(sys: Sys, s: State) {
    match s.phase
    case Idle => s.version == VersionOf(s.store.manifest)
    case Committed(next, path) =>
      s.queue != [] && next == VersionOf(s.store.manifest) &&
      VersionOk(sys.env, sys.codec, DiskOf(s), next) && RefsBelow(s.version, s.store.nextVer) &&
      Successor(sys, DiskOf(s), s.version, next, MemAt(s, 1), path)
    case Installed(path) =>
      s.queue != [] && s.version == VersionOf(s.store.manifest) &&
      Adds(sys, DiskOf(s), s.version, MemAt(s, 1), path)
  }

  /** A cached entry is the key's last operation. */
  ghost predicate CacheOk(s: State, spec: Spec) {
    forall uk :: uk in s.cache ==> uk in spec && CacheAgrees(s.cache[uk], spec[uk])
  }

  predicate CacheAgrees(c: CacheEntry, v: MemRec) {
    c.op == v.key.op && (c.op == Put ==> v.val == Some(c.row))
  }

  ghost predicate Inv(sys: Sys, s: State, spec: Spec) {
    SysOk(sys) && MemsSound(sys, s) && Tracks(sys, s, spec) && Layered(sys, s) && Counted(sys, s) &&
    FirstsAscend(s) && CatalogOk(sys.codec, s.store) && VersionOk(sys.env, sys.codec, DiskOf(s), s.version) &&
    PhaseOk(sys, s) && CacheOk(s, spec)
  }

  /** What a reader must get for a key. */
  function Answer(spec: Spec, uk: bytes): Option<Row> {
    if uk in spec && spec[uk].key.op == Put then spec[uk].val else None
  }

  // ── The topmost layer that has a key has its newest version ───────────────

  lemma LowerIsOlder(sys: Sys, s: State, j: nat, k: nat, v: MemRec, w: MemRec)
    requires Layered(sys, s) && VersionOk(sys.env, sys.codec, DiskOf(s), s.version) && PhaseOk(sys, s)
    requires j < k <= Layers(s) && InLayer(sys, s, j, v) && TopIn(sys.env, MemAt(s, k), w)
    requires v.key.uk == w.key.uk
    ensures NotNewer(v, w)
  {
    hide InMem, VersionOk, Image, Successor, InVersion, VersionOf;
    if j > 0 {
      assert Below(sys, MemAt(s, j), MemAt(s, k));
    } else {
      var x :| OnDisk(sys.codec, DiskOf(s), s.version, x) && FromRow(x) == v;
      var f :| InVersion(s.version, f) && Shows(sys.codec, DiskOf(s), f, x);
      ShownBelow(sys, s, f, x);
      if Some(f.path) == Exempt(s, k) {
        ExemptIsImage(sys, s, f, x);
      } else {
        assert FilesBelow(sys, s.version, MemAt(s, k), Exempt(s, k));
      }
    }
  }

  lemma ShownBelow(sys: Sys, s: State, f: DataFile, x: Rec)
    requires VersionOk(sys.env, sys.codec, DiskOf(s), s.version)
    requires InVersion(s.version, f) && Shows(sys.codec, DiskOf(s), f, x)
    ensures x.key.seqno <= f.meta.seqMax && HasRow(DiskOf(s), f, x)
  {
    hide FileSound, Compatible, WellArranged, InVersion, Covers;
    ShownIsRow(sys.codec, DiskOf(s), f, x);
    RowInBounds(sys.env, sys.codec, DiskOf(s), f, x);
  }

  /** Rows of the freshly installed file are the newest of the memtable. */
  lemma ExemptIsImage(sys: Sys, s: State, f: DataFile, x: Rec)
    requires VersionOk(sys.env, sys.codec, DiskOf(s), s.version) && PhaseOk(sys, s) && s.phase.Installed?
    requires InVersion(s.version, f) && f.path == s.phase.path && HasRow(DiskOf(s), f, x)
    ensures TopIn(sys.env, MemAt(s, 1), FromRow(x))
  {
    hide FileReady, WellArranged, InVersion, TopIn, VersionOf, NewerRows;
    var g :| InVersion(s.version, g) && g.path == s.phase.path && NewFileOf(sys, DiskOf(s), MemAt(s, 1), g);
    assert g != f ==> Compatible(DiskOf(s), f, g);
  }

  lemma LayerHasKey(sys: Sys, s: State, k: nat, v: MemRec)
    requires k > 0 && InLayer(sys, s, k, v)
    ensures k <= Layers(s) && HasKey(sys.env, MemAt(s, k), v.key.uk)
  {
  }

  /** The first memtable from the top that has the key has its last operation. */
  lemma TopmostIsLast(sys: Sys, s: State, spec: Spec, k: nat, w: MemRec)
    requires Inv(sys, s, spec) && 1 <= k <= Layers(s) && TopIn(sys.env, MemAt(s, k), w)
    requires forall j :: k < j <= Layers(s) ==> !HasKey(sys.env, MemAt(s, j), w.key.uk)
    ensures w.key.uk in spec && spec[w.key.uk] == w
  {
    hide MemSound, InMem, VersionOk, CatalogOk, SysOk, Layered, PhaseOk, Counted, FirstsAscend, CacheOk, InFiles;
    assert InLayer(sys, s, k, w);
    var v := spec[w.key.uk];
    var j: nat :| InLayer(sys, s, j, v);
    if j > k { LayerHasKey(sys, s, j, v); }
    if j < k {
      LowerIsOlder(sys, s, j, k, v, w);
    }
  }

  /** If no memtable has the key, the newest row on disk is its last operation. */
  lemma DiskIsLast(sys: Sys, s: State, spec: Spec, uk: bytes)
    requires Inv(sys, s, spec)
    requires forall j :: 1 <= j <= Layers(s) ==> !HasKey(sys.env, MemAt(s, j), uk)
    ensures uk in spec ==> InFiles(sys, DiskOf(s), s.version, spec[uk])
  {
    hide MemSound, InMem, VersionOk, CatalogOk, SysOk, Layered, PhaseOk, Counted, FirstsAscend, CacheOk, InFiles;
    if uk in spec {
      var j: nat :| InLayer(sys, s, j, spec[uk]);
      if j > 0 { LayerHasKey(sys, s, j, spec[uk]); }
    }
  }

  /** Everything stored is visible to a reader at the visible sequence number. */
  lemma AllReadable(sys: Sys, s: State, k: nat)
    requires MemsSound(sys, s) && Counted(sys, s) && 1 <= k <= Layers(s)
    ensures MemSound(sys.env, MemAt(s, k)) && AllVisible(sys.env, MemAt(s, k), s.visible)
  {
    hide Valid, Recs, SlotOk, Decode;
    assert MemSound(sys.env, MemAt(s, k));
    forall x | x in Recs(sys.env, MemAt(s, k).slots)
      ensures x.key.seqno <= s.visible
    {
      assert InMem(sys.env, MemAt(s, k), Canon(x));
      assert InLayer(sys, s, k, Canon(x));
    }
  }
}
