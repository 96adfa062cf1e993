/** Safety over whole runs of the engine. */
module EngineRuns {
  import opened Wrappers
  import opened ByteStrings
  import opened Keys
  import opened Table
  import opened Sst
  import opened Memtable
  import opened Manifest
  import opened Versions
  import opened Catalog
  import opened LiveFiles
  import opened ReadPath
  import opened Flush
  import opened FlushCommit
  import opened EngineState
  import opened EngineSteps
  import opened EngineReads

  // ── Steps ─────────────────────────────────────────────────────────────────

  /** `Abort` is a batch of `n` records that the log refuses. `Flush` carries the
      keys given to the resolver; none if deletion vectors are not emitted.
      `Fill` and `Evict` are what lookups do to the cache. */
  datatype Step =
    | Write(recs: seq<BatchRec>)
    | Abort(n: nat)
    | Rotate
    | Flush(job: Job, keys: seq<bytes>)
    | Fail
    | Install
    | Drop
    | Fill(uk: bytes, row: Rec)
    | Evict(keep: set<bytes>)

  ghost predicate CanWrite(sys: Sys, s: State, recs: seq<BatchRec>) {
    recs != [] && s.counter + |recs| <= SEQNUM_MAX && forall i :: 0 <= i < |recs| ==> RecordOk(sys, recs[i])
  }

  ghost predicate CanFill(sys: Sys, s: State, uk: bytes, row: Rec) {
    (forall j :: 1 <= j <= Layers(s) ==> !HasKey(sys.env, MemAt(s, j), uk)) &&
    NewestOnDisk(sys.codec, DiskOf(s), s.version, uk, s.visible, Some(row))
  }

  function Aborted(s: State, n: nat): State {
    s.(counter := s.counter + n)
  }

  function Filled(s: State, uk: bytes, row: Rec): State {
    s.(cache := s.cache[uk := CacheEntry(row.key.op, row.val)])
  }

  function Evicted(s: State, keep: set<bytes>): State {
    s.(cache := map k | k in s.cache && k in keep :: s.cache[k])
  }

  /** One atomic step. Only memtables that are not empty are rotated. */
  ghost predicate Next(sys: Sys, s: State, spec: Spec, step: Step, s': State, spec': Spec) {
    match step
    case Write(recs) =>
      CanWrite(sys, s, recs) && s' == WriteMany(s, recs, |recs|) && spec' == SpecMany(spec, recs, s.counter, |recs|)
    case Abort(n) => s.counter + n <= SEQNUM_MAX && s' == Aborted(s, n) && spec' == spec
    case Rotate => s.active.slots != [] && s' == Rotated(s) && spec' == spec
    case Flush(job, _) =>
      CanCommit(sys, s, job) && CommitOk(sys.codec, s.store, TxnOf(sys, job)) && s' == CommitFlush(sys, s, job) &&
        spec' == spec
    case Fail => FlushFails(sys, s, s') && spec' == spec
    case Install => s.phase.Committed? && s' == InstallVersion(s) && spec' == spec
    case Drop => s.phase.Installed? && s.queue != [] && s' == DropOldest(s) && spec' == spec
    case Fill(uk, row) => CanFill(sys, s, uk, row) && s' == Filled(s, uk, row) && spec' == spec
    case Evict(keep) => s' == Evicted(s, keep) && spec' == spec
  }

  /** A change of the cache alone. */
  lemma CacheKeepsInv(sys: Sys, s: State, spec: Spec, t: State)
    requires Inv(sys, s, spec) && t == s.(cache := t.cache) && CacheOk(t, spec)
    ensures Inv(sys, t, spec)
  {
    hide SysOk, CatalogOk, VersionOk, VersionOf, Successor, Adds, InLayer, MemsSound, Layered, Counted, FirstsAscend;
    assert s.queue != [] ==> MemAt(t, 1) == MemAt(s, 1);
    CacheKeepsLayers(sys, s, t);
    SameLayersTrack(sys, s, t, spec);
  }

  lemma CacheKeepsLayers(sys: Sys, s: State, t: State)
    requires MemsSound(sys, s) && Layered(sys, s) && Counted(sys, s) && FirstsAscend(s) && t == s.(cache := t.cache)
    ensures MemsSound(sys, t) && Layered(sys, t) && Counted(sys, t) && FirstsAscend(t)
    ensures forall k: nat, v :: InLayer(sys, t, k, v) <==> InLayer(sys, s, k, v)
  {
    hide InMem, InFiles, MemSound, FilesBelow, Below, InVersion;
    forall k | 1 <= k <= Layers(t)
      ensures MemAt(t, k) == MemAt(s, k) && FirstAt(t, k) == FirstAt(s, k) && Exempt(t, k) == Exempt(s, k)
    {
    }
    forall k: nat, v
      ensures InLayer(sys, t, k, v) <==> InLayer(sys, s, k, v)
    {
    }
  }

  /** The counter alone moves on. */
  lemma AbortKeepsInv(sys: Sys, s: State, spec: Spec, n: nat)
    requires Inv(sys, s, spec) && s.counter + n <= SEQNUM_MAX
    ensures Inv(sys, Aborted(s, n), spec)
  {
    hide SysOk, CatalogOk, VersionOk, VersionOf, Successor, Adds, InLayer, MemsSound, Layered, Counted, FirstsAscend;
    var t := Aborted(s, n);
    assert s.queue != [] ==> MemAt(t, 1) == MemAt(s, 1);
    AbortKeepsLayers(sys, s, n);
    SameLayersTrack(sys, s, t, spec);
  }

  lemma AbortKeepsLayers(sys: Sys, s: State, n: nat)
    requires MemsSound(sys, s) && Layered(sys, s) && Counted(sys, s) && FirstsAscend(s) && s.counter + n <= SEQNUM_MAX
    ensures MemsSound(sys, Aborted(s, n)) && Layered(sys, Aborted(s, n)) && Counted(sys, Aborted(s, n))
    ensures FirstsAscend(Aborted(s, n))
    ensures forall k: nat, v :: InLayer(sys, Aborted(s, n), k, v) <==> InLayer(sys, s, k, v)
  {
    hide InMem, InFiles, MemSound, FilesBelow, Below, InVersion;
    var t := Aborted(s, n);
    forall k | 1 <= k <= Layers(t)
      ensures MemAt(t, k) == MemAt(s, k) && FirstAt(t, k) == FirstAt(s, k) && Exempt(t, k) == Exempt(s, k)
    {
    }
    forall k: nat, v
      ensures InLayer(sys, t, k, v) <==> InLayer(sys, s, k, v)
    {
    }
  }

  lemma FillKeepsInv(sys: Sys, s: State, spec: Spec, uk: bytes, row: Rec)
    requires Inv(sys, s, spec) && CanFill(sys, s, uk, row)
    ensures Inv(sys, Filled(s, uk, row), spec)
  {
    hide Inv, NewestOnDisk, HasKey;
    DiskSearch(sys, s, spec, uk, Some(row));
    InvCache(sys, s, spec);
    CacheKeepsInv(sys, s, spec, Filled(s, uk, row));
  }

  lemma InvCache(sys: Sys, s: State, spec: Spec)
    requires Inv(sys, s, spec)
    ensures CacheOk(s, spec)
  {
  }

  lemma EvictKeepsInv(sys: Sys, s: State, spec: Spec, keep: set<bytes>)
    requires Inv(sys, s, spec)
    ensures Inv(sys, Evicted(s, keep), spec)
  {
    hide Inv;
    InvCache(sys, s, spec);
    CacheKeepsInv(sys, s, spec, Evicted(s, keep));
  }

  /** Every step keeps the invariant. */
  lemma StepKeepsInv(sys: Sys, s: State, spec: Spec, step: Step, s': State, spec': Spec)
    requires Inv(sys, s, spec) && Next(sys, s, spec, step, s', spec')
    ensures Inv(sys, s', spec')
  {
    hide Inv, CanCommit, RecordOk, WriteMany, SpecMany, CommitFlush, Rotated, FlushFails, InstallVersion, DropOldest,
         Aborted, CanFill, Filled, Evicted, CommitOk;
    match step
    case Write(recs) => BatchKeepsInv(sys, s, spec, recs, |recs|);
    case Abort(n) => AbortKeepsInv(sys, s, spec, n);
    case Rotate => RotateKeepsInv(sys, s, spec);
    case Flush(job, _) => CommitKeepsInv(sys, s, spec, job);
    case Fail => FailKeepsInv(sys, s, spec, s');
    case Install => InstallKeepsInv(sys, s, spec);
    case Drop => DropKeepsInv(sys, s, spec);
    case Fill(uk, row) => FillKeepsInv(sys, s, spec, uk, row);
    case Evict(keep) => EvictKeepsInv(sys, s, spec, keep);
  }

  // ── Runs ──────────────────────────────────────────────────────────────────

  ghost predicate IsRun(sys: Sys, ss: seq<State>, specs: seq<Spec>, steps: seq<Step>) {
    |ss| == |specs| == |steps| + 1 && Inv(sys, ss[0], specs[0]) &&
    forall i :: 0 <= i < |steps| ==> Next(sys, ss[i], specs[i], steps[i], ss[i + 1], specs[i + 1])
  }

  lemma {:induction false} RunKeepsInv(sys: Sys, ss: seq<State>, specs: seq<Spec>, steps: seq<Step>, i: nat)
    requires IsRun(sys, ss, specs, steps) && i < |ss|
    ensures Inv(sys, ss[i], specs[i])
  {
    hide Inv, Next;
    if i > 0 {
      RunKeepsInv(sys, ss, specs, steps, i - 1);
      StepKeepsInv(sys, ss[i - 1], specs[i - 1], steps[i - 1], ss[i], specs[i]);
    }
  }

  // ── The beginning ─────────────────────────────────────────────────────────

  /** The engine right after opening a table whose log is empty. */
  function Opened(store: Store, files: map<DataPath, File>, init: nat): State
    requires init >= 1
  {
    State(Memtable.Fresh(init), [], init, init - 1, store, files, VersionOf(store.manifest), Idle, map[])
  }

  /** The reference holds the newest row of each key on disk. */
  ghost predicate DiskSpec(sys: Sys, disk: Disk, v: Version, readSeq: nat, spec: Spec) {
    (forall uk :: uk in spec ==>
      exists x :: NewestOnDisk(sys.codec, disk, v, uk, readSeq, Some(x)) && spec[uk] == FromRow(x)) &&
    (forall x :: OnDisk(sys.codec, disk, v, x) ==> x.key.uk in spec)
  }

  lemma OpenLayers(sys: Sys, s: State, k: nat, v: MemRec)
    requires s.queue == [] && s.active.slots == []
    ensures InLayer(sys, s, k, v) <==> k == 0 && InFiles(sys, DiskOf(s), s.version, v)
    ensures MemsSound(sys, s)
  {
    hide InFiles;
    EmptyMem(sys.env, s.active.firstSeq);
    assert forall x :: !InMem(sys.env, s.active, x) by {
      assert Recs(sys.env, []) == [];
    }
  }

  /** Opening a sound table establishes the invariant. */
  lemma OpenedOk(sys: Sys, store: Store, files: map<DataPath, File>, init: nat, spec: Spec)
    requires SysOk(sys) && CatalogOk(sys.codec, store) && 1 <= init <= SEQNUM_MAX
    requires VersionOk(sys.env, sys.codec, Disk(files, store.puffins), VersionOf(store.manifest))
    requires forall f :: InVersion(VersionOf(store.manifest), f) ==> f.meta.seqMax < init
    requires DiskSpec(sys, Disk(files, store.puffins), VersionOf(store.manifest), init - 1, spec)
    ensures Inv(sys, Opened(store, files, init), spec)
  {
    hide SysOk, CatalogOk, VersionOk, VersionOf, InMem, InVersion, MemSound, DiskSpec, Tracks;
    var s := Opened(store, files, init);
    forall k: nat, v
      ensures InLayer(sys, s, k, v) <==> k == 0 && InFiles(sys, DiskOf(s), s.version, v)
      ensures MemsSound(sys, s)
    {
      OpenLayers(sys, s, k, v);
    }
    OpenLayers(sys, s, 0, Stored(InternalKey([], 0, Put), None));
    forall k, x | 1 <= k <= Layers(s)
      ensures !InMem(sys.env, MemAt(s, k), x)
    {
      assert !InLayer(sys, s, k, x);
    }
    assert Counted(sys, s);
    OpenTracks(sys, s, spec);
  }

  lemma OpenTracks(sys: Sys, s: State, spec: Spec)
    requires forall k: nat, v :: InLayer(sys, s, k, v) <==> k == 0 && InFiles(sys, DiskOf(s), s.version, v)
    requires VersionOk(sys.env, sys.codec, DiskOf(s), s.version) && Counted(sys, s)
    requires DiskSpec(sys, DiskOf(s), s.version, s.visible, spec)
    ensures Tracks(sys, s, spec)
  {
    hide VersionOk, OnDisk, Counted, InLayer;
    forall uk | uk in spec
      ensures spec[uk].key.uk == uk && InState(sys, s, spec[uk])
    {
      var x :| NewestOnDisk(sys.codec, DiskOf(s), s.version, uk, s.visible, Some(x)) && spec[uk] == FromRow(x);
      assert InLayer(sys, s, 0, spec[uk]);
    }
    forall v | InState(sys, s, v)
      ensures v.key.uk in spec && NotNewer(v, spec[v.key.uk])
    {
      var y :| OnDisk(sys.codec, DiskOf(s), s.version, y) && FromRow(y) == v;
      var x :| NewestOnDisk(sys.codec, DiskOf(s), s.version, v.key.uk, s.visible, Some(x)) &&
        spec[v.key.uk] == FromRow(x);
      RowCounted(sys, s, y);
    }
  }

  /** A new table is a sound start, so runs exist. */
  lemma NewTableOk(sys: Sys)
    requires SysOk(sys)
    ensures Inv(sys, Opened(Store(EMPTY_MANIFEST, 1, map[]), map[], 1), map[])
  {
    hide SysOk, Inv, VersionOf, InVersion, LoadDv;
    var store := Store(EMPTY_MANIFEST, 1, map[]);
    VersionListsLive(EMPTY_MANIFEST);
    assert forall f :: !InVersion(VersionOf(EMPTY_MANIFEST), f);
    OpenedOk(sys, store, map[], 1, map[]);
  }

  /** The last of the first `n` records that writes `uk`. */
  function LastIndex(recs: seq<BatchRec>, n: nat, uk: bytes): (r: Option<nat>)
    requires n <= |recs|
    ensures r.Some? ==> r.value < n && recs[r.value].uk == uk && forall j :: r.value < j < n ==> recs[j].uk != uk
    ensures r.None? ==> forall j :: 0 <= j < n ==> recs[j].uk != uk
  {
    if n == 0 then None else if recs[n - 1].uk == uk then Some(n - 1) else LastIndex(recs, n - 1, uk)
  }

  /** After a batch, a key's entry is its last record in the batch, if any. */
  lemma {:induction false} SpecManyIs(spec: Spec, recs: seq<BatchRec>, base: nat, n: nat, uk: bytes)
    requires n <= |recs|
    ensures match LastIndex(recs, n, uk)
            case Some(i) => uk in SpecMany(spec, recs, base, n) &&
              SpecMany(spec, recs, base, n)[uk] == VersionFor(recs[i], base + i)
            case None =>
              (uk in SpecMany(spec, recs, base, n) <==> uk in spec) &&
              (uk in spec ==> SpecMany(spec, recs, base, n)[uk] == spec[uk])
  {
    hide VersionFor;
    if n > 0 { SpecManyIs(spec, recs, base, n - 1, uk); }
  }

  // ── What lookups return, in terms of what was written ─────────────────────

  /** All records written by the first `i` steps, in order. */
  function Written(steps: seq<Step>, i: nat): seq<BatchRec>
    requires i <= |steps|
  {
    if i == 0 then [] else Written(steps, i - 1) + if steps[i - 1].Write? then steps[i - 1].recs else []
  }

  /** The row of a key's last put in `log`, nothing if its last record is a
      delete, and what was there before if it has none. */
  function LastWrite(log: seq<BatchRec>, before: Spec, uk: bytes): Option<Row> {
    match LastIndex(log, |log|, uk)
    case Some(i) => if log[i].op == Put then log[i].value else None
    case None => Answer(before, uk)
  }

  lemma {:induction false} LastIndexJoin(a: seq<BatchRec>, b: seq<BatchRec>, n: nat, uk: bytes)
    requires n <= |b|
    ensures LastIndex(a + b, |a| + n, uk) ==
            match LastIndex(b, n, uk) { case Some(i) => Some(|a| + i) case None => LastIndex(a, |a|, uk) }
  {
    if n > 0 {
      LastIndexJoin(a, b, n - 1, uk);
      assert (a + b)[|a| + n - 1] == b[n - 1];
    } else {
      LastIndexPrefix(a, b, |a|, uk);
    }
  }

  lemma {:induction false} LastIndexPrefix(a: seq<BatchRec>, b: seq<BatchRec>, n: nat, uk: bytes)
    requires n <= |a|
    ensures LastIndex(a + b, n, uk) == LastIndex(a, n, uk)
  {
    if n > 0 { LastIndexPrefix(a, b, n - 1, uk); }
  }

  /** The reference is the history of writes. */
  lemma {:induction false} SpecIsHistory(sys: Sys, ss: seq<State>, specs: seq<Spec>, steps: seq<Step>, i: nat,
                                         uk: bytes)
    requires IsRun(sys, ss, specs, steps) && i < |ss|
    ensures Answer(specs[i], uk) == LastWrite(Written(steps, i), specs[0], uk)
  {
    hide Inv, CanWrite, CanCommit, CommitFlush, Rotated, FlushFails, InstallVersion, DropOldest, CanFill, Filled,
         Evicted, CommitOk, WriteMany, SpecMany, LastIndex;
    if i > 0 {
      SpecIsHistory(sys, ss, specs, steps, i - 1, uk);
      assert Next(sys, ss[i - 1], specs[i - 1], steps[i - 1], ss[i], specs[i]);
      var log := Written(steps, i - 1);
      if steps[i - 1].Write? {
        var recs := steps[i - 1].recs;
        SpecManyIs(specs[i - 1], recs, ss[i - 1].counter, |recs|, uk);
        LastIndexJoin(log, recs, |recs|, uk);
      } else {
        assert log + [] == log;
      }
    } else {
      NothingWritten(uk);
    }
  }

  lemma NothingWritten(uk: bytes)
    ensures LastIndex([], 0, uk) == None
  {
  }

  /** `ans` is what the search through the memtables and then the files of the
      installed version gives. */
  ghost predicate Finds(sys: Sys, s: State, uk: bytes, ans: Option<Row>) {
    MemtablesOk(sys, s) &&
    match MemNewest(sys.env, s.active, s.queue, uk, s.visible)
    case Some(x) => ans == if x.key.op == Put then x.val else None
    case None => exists hit :: NewestOnDisk(sys.codec, DiskOf(s), s.version, uk, s.visible, hit) && ans == RowOf(hit)
  }

  function RowOf(hit: Option<Rec>): Option<Row> {
    if hit.Some? && hit.value.key.op == Put then Some(hit.value.val) else None
  }

  /** In every state of every run, between any two steps of writers, rotations
      and flushes, a lookup returns the row of the key's last put, or nothing if
      its last operation is a delete or it was never written. */
  lemma LookupReturnsLastPut(sys: Sys, ss: seq<State>, specs: seq<Spec>, steps: seq<Step>, i: nat, uk: bytes,
                             ans: Option<Row>)
    requires IsRun(sys, ss, specs, steps) && i < |ss| && Finds(sys, ss[i], uk, ans)
    ensures ans == LastWrite(Written(steps, i), specs[0], uk)
  {
    hide Inv, Next, NewestOnDisk, HasKey, MemNewest, LastWrite, Valid;
    RunKeepsInv(sys, ss, specs, steps, i);
    SpecIsHistory(sys, ss, specs, steps, i, uk);
    MemSearch(sys, ss[i], specs[i], uk);
    if MemNewest(sys.env, ss[i].active, ss[i].queue, uk, ss[i].visible).None? {
      var hit :| NewestOnDisk(sys.codec, DiskOf(ss[i]), ss[i].version, uk, ss[i].visible, hit) && ans == RowOf(hit);
      DiskSearch(sys, ss[i], specs[i], uk, hit);
    }
  }
}
