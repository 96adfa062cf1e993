/** A point lookup in its three moments (`point_lookup` in
    `engine/read_path.rs`).

    A lookup fixes its read sequence number, searches the memtables later, and
    takes the installed version later still. In between, writers and flushes
    run. If the key is rewritten and the new version is flushed in between, the
    version the lookup is entitled to may be gone when it looks - masked, or
    left out of the file - while the new one is above its read sequence number.
    Then the lookup misses a key that was there all along.
 */
module SplitLookup {
  import opened Wrappers
  import opened ByteStrings
  import opened Keys
  import opened Table
  import opened Visibility
  import opened Memtable
  import opened Versions
  import opened Catalog
  import opened LiveFiles
  import opened ReadPath
  import opened Flush
  import opened FlushCommit
  import opened EngineState
  import opened EngineSteps
  import opened EngineReads
  import opened EngineRuns
  import opened VersionFate

  // ── The search through the memtables at any read sequence number ──────────

  lemma LookupUpTo(recs: seq<MemRec>, q: Query)
    requires Sorted(recs) && q.dv == {}
    ensures match Lookup(recs, q)
            case None => forall y :: y in recs && y.key.uk == q.uk ==> y.key.seqno > q.readSeq
            case Some(x) =>
              x in recs && x.key.uk == q.uk && x.key.seqno <= q.readSeq &&
              forall y :: y in recs && y.key.uk == q.uk && y.key.seqno <= q.readSeq ==> y.key.seqno <= x.key.seqno
  {
    hide Lookup;
    LookupIsNewest(recs, q);
    forall y | y in recs && y.key.uk == q.uk && y.key.seqno <= q.readSeq
      ensures Lookup(recs, q).Some? && y.key.seqno <= Lookup(recs, q).value.key.seqno
    {
      var k :| 0 <= k < |recs| && recs[k] == y;
      assert Hit(recs[k], k, q);
    }
  }

  /** The newest version of the key in one memtable that is not above `r`. */
  lemma MemUpTo(env: Env, m: Mem, uk: bytes, r: nat)
    requires MemSound(env, m)
    ensures match Newest(env, m.slots, uk, r)
            case None => forall v :: InMem(env, m, v) && v.key.uk == uk ==> v.key.seqno > r
            case Some(x) =>
              InMem(env, m, Canon(x)) && x.key.uk == uk && x.key.seqno <= r &&
              forall v :: InMem(env, m, v) && v.key.uk == uk && v.key.seqno <= r ==> NotNewer(v, Canon(x))
  {
    hide Lookup, Recs, Valid, SlotOk, Decode;
    RecsSorted(env, m.slots);
    LookupUpTo(Recs(env, m.slots), Query(uk, r, {}));
  }

  /** The newest version in memory that is not above `r`: none in layer `k` or
      higher is newer. */
  ghost predicate TopUpTo(sys: Sys, s: State, k: nat, uk: bytes, r: nat, v: MemRec) {
    1 <= k && InLayer(sys, s, k, v) && v.key.uk == uk && v.key.seqno <= r &&
    forall j, w :: k <= j && InLayer(sys, s, j, w) && w.key.uk == uk && w.key.seqno <= r ==> NotNewer(w, v)
  }

  /** All versions of the key from layer `n + 1` up are above `r`. */
  ghost predicate AboveFrom(sys: Sys, s: State, n: nat, uk: bytes, r: nat) {
    forall k, v :: n < k && InLayer(sys, s, k, v) && v.key.uk == uk ==> v.key.seqno > r
  }

  lemma LayerUpTo(sys: Sys, s: State, k: nat, uk: bytes, r: nat)
    requires MemsSound(sys, s) && 1 <= k <= Layers(s) && AboveFrom(sys, s, k, uk, r)
    ensures MemSound(sys.env, MemAt(s, k))
    ensures match Newest(sys.env, MemAt(s, k).slots, uk, r)
            case None => AboveFrom(sys, s, k - 1, uk, r)
            case Some(x) => TopUpTo(sys, s, k, uk, r, Canon(x))
  {
    hide InMem, Newest, Valid;
    assert MemSound(sys.env, MemAt(s, k));
    MemUpTo(sys.env, MemAt(s, k), uk, r);
    assert forall v :: InLayer(sys, s, k, v) == InMem(sys.env, MemAt(s, k), v);
  }

  lemma {:induction false} QueueUpTo(sys: Sys, s: State, n: nat, uk: bytes, r: nat)
    requires MemsSound(sys, s) && MemtablesOk(sys, s) && n <= |s.queue| && AboveFrom(sys, s, n, uk, r)
    ensures match QueueNewest(sys.env, s.queue, n, uk, r)
            case None => AboveFrom(sys, s, 0, uk, r)
            case Some(x) => exists k :: TopUpTo(sys, s, k, uk, r, Canon(x))
  {
    hide Newest, Valid, MemSound, AboveFrom, TopUpTo;
    if n > 0 {
      LayerUpTo(sys, s, n, uk, r);
      var here := Newest(sys.env, s.queue[n - 1].slots, uk, r);
      assert QueueNewest(sys.env, s.queue, n, uk, r) ==
             if here.Some? then here else QueueNewest(sys.env, s.queue, n - 1, uk, r);
      if here.None? { QueueUpTo(sys, s, n - 1, uk, r); }
    }
  }

  /** The search finds the newest version in memory that is not above `r`. */
  lemma MemoryUpTo(sys: Sys, s: State, uk: bytes, r: nat)
    requires MemsSound(sys, s) && MemtablesOk(sys, s)
    ensures match MemNewest(sys.env, s.active, s.queue, uk, r)
            case None => AboveFrom(sys, s, 0, uk, r)
            case Some(x) => exists k :: TopUpTo(sys, s, k, uk, r, Canon(x))
  {
    hide Newest, Valid, MemSound, InMem, TopUpTo;
    assert AboveFrom(sys, s, Layers(s), uk, r);
    LayerUpTo(sys, s, Layers(s), uk, r);
    if Newest(sys.env, s.active.slots, uk, r).None? { QueueUpTo(sys, s, |s.queue|, uk, r); }
  }

  // ── What the lookup is entitled to ────────────────────────────────────────

  function LastOp(spec: Spec, uk: bytes): Option<MemRec> {
    if uk in spec then Some(spec[uk]) else None
  }

  /** What is stored later at or below the read sequence number was stored when
      it was fixed, and is not newer than the key's last operation then. */
  lemma NothingNewer(sys: Sys, ss: seq<State>, specs: seq<Spec>, steps: seq<Step>, h: nat, l: nat, w: MemRec)
    requires EngineRuns.IsRun(sys, ss, specs, steps) && h <= l < |ss|
    requires InState(sys, ss[l], w) && w.key.seqno <= ss[h].visible
    ensures w.key.uk in specs[h] && NotNewer(w, specs[h][w.key.uk])
  {
    hide SysOk, MemsSound, Layered, FirstsAscend, CacheOk, CatalogOk, VersionOk, PhaseOk, InState, EngineRuns.Next,
         NeverLost;
    RunKeepsInv(sys, ss, specs, steps, h);
    VersionsOverTime(sys, ss, specs, steps, h, l, w);
  }

  lemma LastIsOld(sys: Sys, s: State, spec: Spec, uk: bytes)
    requires Inv(sys, s, spec) && uk in spec
    ensures spec[uk].key.uk == uk && spec[uk].key.seqno <= s.visible < s.counter && InState(sys, s, spec[uk])
  {
    hide SysOk, MemsSound, Layered, FirstsAscend, CacheOk, CatalogOk, VersionOk, PhaseOk, InMem, InVersion;
    var k: nat :| InLayer(sys, s, k, spec[uk]);
    if k == 0 {
      var x :| OnDisk(sys.codec, DiskOf(s), s.version, x) && FromRow(x) == spec[uk];
      RowCounted(sys, s, x);
    }
  }

  /** A version leaves memory with all that are older. */
  lemma MemoryStep(sys: Sys, s: State, spec: Spec, step: Step, s': State, spec': Spec, v: MemRec)
    requires Inv(sys, s, spec) && EngineRuns.Next(sys, s, spec, step, s', spec') && v.key.seqno < s.counter
    requires InMemory(sys, s, v)
    ensures InMemory(sys, s', v) || MemAbove(sys, s', v.key.uk, v.key.seqno)
  {
    hide CanCommit, RecordOk, SpecMany, WriteMany, CanFill, MemsSound, Tracks, Layered, Counted, FirstsAscend, CacheOk,
         CatalogOk, VersionOk, PhaseOk, SysOk, CommitOk, StoreAfter, Rows, MemAbove, Rotated, DropOldest, VersionOf,
         InMemory;
    match step
    case Write(recs) => BatchMemory(sys, s, spec, recs, |recs|, v);
    case Rotate => RotateMemory(sys, s, v);
    case Drop => DropMemory(sys, s, spec, v);
    case _ => SameMemory(sys, s, s', v);
  }

  lemma {:induction false} BatchMemory(sys: Sys, s: State, spec: Spec, recs: seq<BatchRec>, n: nat, v: MemRec)
    requires Inv(sys, s, spec) && n <= |recs| && s.counter + n <= SEQNUM_MAX && InMemory(sys, s, v)
    requires forall i :: 0 <= i < |recs| ==> RecordOk(sys, recs[i])
    ensures InMemory(sys, WriteMany(s, recs, n), v)
  {
    hide Inv, RecordOk, WriteOne, InMemory;
    if n > 0 {
      BatchMemory(sys, s, spec, recs, n - 1, v);
      BatchKeepsInv(sys, s, spec, recs, n - 1);
      WriteMemory(sys, WriteMany(s, recs, n - 1), SpecMany(spec, recs, s.counter, n - 1), recs[n - 1], v);
    }
  }

  lemma WriteMemory(sys: Sys, s: State, spec: Spec, rec: BatchRec, v: MemRec)
    requires Inv(sys, s, spec) && s.counter < SEQNUM_MAX && RecordOk(sys, rec) && InMemory(sys, s, v)
    ensures InMemory(sys, WriteOne(s, rec), v)
  {
    hide SysOk, Tracks, Layered, CatalogOk, VersionOk, PhaseOk, CacheOk, FirstsAscend, InLayer, RecordOk, WriteOne,
         MemsSound, Counted;
    var k: nat :| 1 <= k && InLayer(sys, s, k, v);
    WriteLayers(sys, s, rec, k, v);
  }

  lemma RotateMemory(sys: Sys, s: State, v: MemRec)
    requires InMemory(sys, s, v)
    ensures InMemory(sys, Rotated(s), v)
  {
    hide InLayer, Rotated;
    var k: nat :| 1 <= k && InLayer(sys, s, k, v);
    RotateLayers(sys, s, k, v);
  }

  lemma SameMemory(sys: Sys, s: State, t: State, v: MemRec)
    requires InMemory(sys, s, v) && t.active == s.active && t.queue == s.queue
    ensures InMemory(sys, t, v)
  {
    hide InMem;
    var k: nat :| 1 <= k && InLayer(sys, s, k, v);
    assert MemAt(t, k) == MemAt(s, k);
    assert InLayer(sys, t, k, v);
  }

  lemma DropMemory(sys: Sys, s: State, spec: Spec, v: MemRec)
    requires Inv(sys, s, spec) && s.phase.Installed? && s.queue != [] && InMemory(sys, s, v) && v.key.seqno < s.counter
    ensures InMemory(sys, DropOldest(s), v) || MemAbove(sys, DropOldest(s), v.key.uk, v.key.seqno)
  {
    hide SysOk, MemsSound, Tracks, Counted, FirstsAscend, CacheOk, CatalogOk, VersionOk, VersionOf, Adds, InMem,
         InFiles,
         FilesBelow;
    var t := DropOldest(s);
    DropIsTail(s);
    var k: nat :| 1 <= k && InLayer(sys, s, k, v);
    if k > 1 {
      assert InLayer(sys, t, k - 1, v);
    } else {
      forall j, w | 1 <= j && InLayer(sys, t, j, w) && w.key.uk == v.key.uk
        ensures w.key.seqno > v.key.seqno
      {
        assert InLayer(sys, s, j + 1, w);
        assert Below(sys, MemAt(s, 1), MemAt(s, j + 1));
      }
    }
  }

  /** The key's last operation is in memory, or memory has only newer ones. */
  lemma {:induction false} LastOrAbove(sys: Sys, ss: seq<State>, specs: seq<Spec>, steps: seq<Step>, h: nat, l: nat,
                                       uk: bytes)
    requires EngineRuns.IsRun(sys, ss, specs, steps) && h <= l < |ss| && uk in specs[h]
    ensures specs[h][uk].key.uk == uk
    ensures InMemory(sys, ss[l], specs[h][uk]) || MemAbove(sys, ss[l], uk, specs[h][uk].key.seqno)
    decreases l
  {
    hide Inv, EngineRuns.Next, InMemory, MemAbove, NeverLost;
    var v := specs[h][uk];
    RunKeepsInv(sys, ss, specs, steps, h);
    LastIsOld(sys, ss[h], specs[h], uk);
    if h < l {
      LastOrAbove(sys, ss, specs, steps, h, l - 1, uk);
      RunKeepsInv(sys, ss, specs, steps, l - 1);
      VersionsOverTime(sys, ss, specs, steps, h, l - 1, v);
      if InMemory(sys, ss[l - 1], v) {
        MemoryStep(sys, ss[l - 1], specs[l - 1], steps[l - 1], ss[l], specs[l], v);
      } else {
        StepAbove(sys, ss[l - 1], specs[l - 1], steps[l - 1], ss[l], specs[l], uk, v.key.seqno);
      }
    } else {
      LastNow(sys, ss[h], specs[h], uk);
    }
  }

  lemma LastNow(sys: Sys, s: State, spec: Spec, uk: bytes)
    requires Inv(sys, s, spec) && uk in spec && spec[uk].key.seqno < s.counter
    ensures InMemory(sys, s, spec[uk]) || MemAbove(sys, s, uk, spec[uk].key.seqno)
  {
    hide SysOk, MemsSound, Counted, FirstsAscend, CacheOk, CatalogOk, VersionOk, PhaseOk, InMem, Layered;
    var v := spec[uk];
    var k: nat :| InLayer(sys, s, k, v);
    forall j, w | 1 <= j && InLayer(sys, s, j, w) && w.key.uk == uk && !InMemory(sys, s, v)
      ensures w.key.seqno > v.key.seqno
    {
      FilesOlder(sys, s, spec, j, v, w);
    }
  }

  /** A version that is only in a file is older than all in memory. */
  lemma FilesOlder(sys: Sys, s: State, spec: Spec, j: nat, v: MemRec, w: MemRec)
    requires Inv(sys, s, spec) && InLayer(sys, s, 0, v) && 1 <= j && InLayer(sys, s, j, w) && !InMemory(sys, s, v)
    ensures v.key.seqno < w.key.seqno
  {
    hide InMem, SysOk, CatalogOk, VersionOk, CacheOk, MemsSound, VersionOf, Counted, FirstsAscend, Tracks, TopIn,
         InVersion, Adds, Shows, PhaseOk;
    var x :| OnDisk(sys.codec, DiskOf(s), s.version, x) && FromRow(x) == v;
    var f :| InVersion(s.version, f) && Shows(sys.codec, DiskOf(s), f, x);
    ShownBelow(sys, s, f, x);
    assert FilesBelow(sys, s.version, MemAt(s, j), Exempt(s, j)) && !InLayer(sys, s, 1, v);
    TopIsIn(sys.env, MemAt(s, 1), v);
    if Some(f.path) == Exempt(s, j) { ExemptIsImage(sys, s, f, x); }
  }

  // ── The lookup ────────────────────────────────────────────────────────────

  /** `found` is what a lookup at `r` finds in the memtables of `s` and then in
      the files of the version installed in `t`. */
  ghost predicate Found(sys: Sys, s: State, t: State, uk: bytes, r: nat, found: Option<MemRec>) {
    MemtablesOk(sys, s) &&
    match MemNewest(sys.env, s.active, s.queue, uk, r)
    case Some(x) => found == Some(Canon(x))
    case None => exists hit :: Reads(sys, t, uk, r, hit) && found == AsVersion(hit)
  }

  ghost predicate Reads(sys: Sys, t: State, uk: bytes, r: nat, hit: Option<Rec>) {
    NewestOnDisk(sys.codec, DiskOf(t), t.version, uk, r, hit)
  }

  function AsVersion(hit: Option<Rec>): Option<MemRec> {
    if hit.Some? then Some(FromRow(hit.value)) else None
  }

  function AnswerOf(found: Option<MemRec>): Option<Row> {
    if found.Some? && found.value.key.op == Put then found.value.val else None
  }

  /** What the search finds in memory is the last operation at the beginning. */
  lemma HitIsLast(sys: Sys, ss: seq<State>, specs: seq<Spec>, steps: seq<Step>, h: nat, i: nat, k: nat, uk: bytes,
                  v: MemRec)
    requires EngineRuns.IsRun(sys, ss, specs, steps) && h <= i < |ss|
    requires TopUpTo(sys, ss[i], k, uk, ss[h].visible, v)
    ensures uk in specs[h] && v == specs[h][uk] && InMemory(sys, ss[i], v)
  {
    hide Inv, EngineRuns.Next, InLayer;
    assert InState(sys, ss[i], v);
    NothingNewer(sys, ss, specs, steps, h, i, v);
    RunKeepsInv(sys, ss, specs, steps, h);
    LastIsOld(sys, ss[h], specs[h], uk);
    LastOrAbove(sys, ss, specs, steps, h, i, uk);
    var last := specs[h][uk];
    if InMemory(sys, ss[i], last) {
      var j: nat :| 1 <= j && InLayer(sys, ss[i], j, last);
      RunKeepsInv(sys, ss, specs, steps, i);
      if j < k { LowerLayer(sys, ss[i], specs[i], j, k, last, v); }
    }
  }

  lemma LowerLayer(sys: Sys, s: State, spec: Spec, j: nat, k: nat, v: MemRec, w: MemRec)
    requires Inv(sys, s, spec) && 1 <= j < k && InLayer(sys, s, j, v) && InLayer(sys, s, k, w)
    ensures v.key.seqno < w.key.seqno
  {
    hide SysOk, MemsSound, Counted, FirstsAscend, CacheOk, CatalogOk, VersionOk, PhaseOk, InMem, Tracks, FilesBelow;
    assert Below(sys, MemAt(s, j), MemAt(s, k));
  }

  /** After a miss: the files show the last operation if and only if it is still
      stored, and nothing of a key that did not exist. */
  lemma DiskFinds(sys: Sys, ss: seq<State>, specs: seq<Spec>, steps: seq<Step>, h: nat, j: nat, uk: bytes,
                  hit: Option<Rec>)
    requires EngineRuns.IsRun(sys, ss, specs, steps) && h <= j < |ss|
    requires MemAbove(sys, ss[j], uk, ss[h].visible) && Reads(sys, ss[j], uk, ss[h].visible, hit)
    ensures AsVersion(hit) == LastOp(specs[h], uk) <==> uk !in specs[h] || InState(sys, ss[j], specs[h][uk])
  {
    hide Inv, EngineRuns.Next, OnDisk, InMem;
    if hit.Some? {
      ShownStored(sys, ss[j], hit.value);
      NothingNewer(sys, ss, specs, steps, h, j, FromRow(hit.value));
    }
    if uk in specs[h] {
      var last := specs[h][uk];
      RunKeepsInv(sys, ss, specs, steps, h);
      LastIsOld(sys, ss[h], specs[h], uk);
      if InState(sys, ss[j], last) {
        var k: nat :| InLayer(sys, ss[j], k, last);
        var x :| OnDisk(sys.codec, DiskOf(ss[j]), ss[j].version, x) && FromRow(x) == last;
        assert Readable(x, uk, ss[h].visible);
      }
    }
  }

  lemma ShownStored(sys: Sys, s: State, x: Rec)
    requires OnDisk(sys.codec, DiskOf(s), s.version, x)
    ensures InState(sys, s, FromRow(x))
  {
    hide OnDisk;
    assert InLayer(sys, s, 0, FromRow(x));
  }

  lemma MissIsAbove(sys: Sys, ss: seq<State>, specs: seq<Spec>, steps: seq<Step>, h: nat, i: nat, j: nat, uk: bytes)
    requires EngineRuns.IsRun(sys, ss, specs, steps) && h <= i <= j < |ss|
    requires AboveFrom(sys, ss[i], 0, uk, ss[h].visible)
    ensures MemAbove(sys, ss[j], uk, ss[h].visible)
    ensures uk in specs[h] ==> !InMemory(sys, ss[i], specs[h][uk])
  {
    hide Inv, EngineRuns.Next, InLayer, NeverLost;
    RunKeepsInv(sys, ss, specs, steps, h);
    CountedBelow(sys, ss[h], specs[h]);
    VersionsOverTime(sys, ss, specs, steps, h, i, Stored(InternalKey(uk, 0, Put), None));
    RunAbove(sys, ss, specs, steps, i, j, uk, ss[h].visible);
    if uk in specs[h] { LastIsOld(sys, ss[h], specs[h], uk); }
  }

  lemma CountedBelow(sys: Sys, s: State, spec: Spec)
    requires Inv(sys, s, spec)
    ensures s.visible < s.counter
  {
  }

  /** Over every run: a lookup that fixes its read sequence number in state `h`,
      searches the memtables in state `i` and takes its version in state `j`
      finds the key's last operation of state `h` if and only if that is still in
      memory in state `i` or no step from `h` to `j` lost it. */
  lemma RecordFoundIff(sys: Sys, ss: seq<State>, specs: seq<Spec>, steps: seq<Step>, h: nat, i: nat, j: nat,
                       uk: bytes, found: Option<MemRec>)
    requires EngineRuns.IsRun(sys, ss, specs, steps) && h <= i <= j < |ss|
    requires Found(sys, ss[i], ss[j], uk, ss[h].visible, found)
    ensures found == LastOp(specs[h], uk) <==>
            uk !in specs[h] || InMemory(sys, ss[i], specs[h][uk]) || NeverLost(sys, ss, steps, h, j, specs[h][uk])
  {
    hide Inv, EngineRuns.Next, InMemory, NeverLost, MemNewest, NewestOnDisk, TopUpTo, AboveFrom, InState;
    var r := ss[h].visible;
    RunKeepsInv(sys, ss, specs, steps, i);
    InvSound(sys, ss[i], specs[i]);
    MemoryUpTo(sys, ss[i], uk, r);
    match MemNewest(sys.env, ss[i].active, ss[i].queue, uk, r)
    case Some(x) =>
      var k :| TopUpTo(sys, ss[i], k, uk, r, Canon(x));
      HitIsLast(sys, ss, specs, steps, h, i, k, uk, Canon(x));
    case None =>
      MissIsAbove(sys, ss, specs, steps, h, i, j, uk);
      var hit :| Reads(sys, ss[j], uk, r, hit) && found == AsVersion(hit);
      DiskFinds(sys, ss, specs, steps, h, j, uk, hit);
      if uk in specs[h] {
        RunKeepsInv(sys, ss, specs, steps, h);
        LastIsOld(sys, ss[h], specs[h], uk);
        VersionsOverTime(sys, ss, specs, steps, h, j, specs[h][uk]);
      }
  }

  lemma InvSound(sys: Sys, s: State, spec: Spec)
    requires Inv(sys, s, spec)
    ensures MemsSound(sys, s)
  {
  }
}
