/** When a lookup may put an old row into the cache (`point_lookup` in
    `engine/read_path.rs` against writers and flushes).

    A lookup fixes its read sequence number, looks into the memtables, captures
    the cache generation, takes its version, reads the newest row on disk that
    is not above the read sequence number, and caches it if the generation is
    still the captured one. A write that lands between the first and the third
    goes unnoticed: its row is above the read sequence number, so the lookup
    misses it even if the memtable check comes after it, and caches the row it
    supersedes. Once the newer row has been flushed and dropped from memory, the
    cache serves the old one. The model follows one key; versions are numbered
    in the order they are written.
 */
module StaleCache {
  import opened Wrappers

  /** A lookup that reads at version `read` and began when the generation was
      `begin`. */
  datatype Reader =
    | Started(read: nat, begin: nat)
    | Missed(read: nat, begin: nat)
    | Captured(read: nat, begin: nat, gen: nat)
    | Loaded(read: nat, begin: nat, gen: nat, version: nat)

  /** A write: applied to the memtable and published, then bumped, then popped. */
  datatype Writer = Applied(version: nat) | Bumped(version: nat, gen: nat)

  datatype Row = Row(version: nat, gen: nat)

  /** The versions in memory and those visible on disk, the newest that was
      saved, the newest written, and the newest that readers may see. `at[g]` is
      the last of these at the moment the generation became `g`. */
  datatype World = World(
    mem: set<nat>,
    disk: set<nat>,
    saved: nat,
    latest: nat,
    visible: nat,
    at: seq<nat>,
    cache: Option<Row>,
    readers: map<nat, Reader>,
    writers: set<Writer>,
    returned: set<Writer>)

  function Gen(w: World): int {
    |w.at| - 1
  }

  datatype Step =
    | Apply
    | Publish
    | Bump(writer: Writer)
    | Pop(writer: Writer)
    | Save(version: nat, masked: set<nat>)
    | Drop
    | Begin(id: nat)
    | Miss(id: nat)
    | Capture(id: nat)
    | Load(id: nat, version: nat)
    | Insert(id: nat)
    | Leave(id: nat)
    | Evict

  /** The row a reader at `read` finds on disk. */
  ghost predicate NewestUpTo(disk: set<nat>, read: nat, version: nat) {
    version in disk && version <= read && forall v :: v in disk && v <= read ==> v <= version
  }

  /** Batches are applied one after the other, and each becomes visible before
      the next. A flush saves one version of those in a memtable, and may mask older rows.
      A lookup leaves when it finds the key in memory or in the cache, or finds
      nothing at all. */
  ghost predicate Next(w: World, step: Step, x: World) {
    match step
    case Apply =>
      w.visible == w.latest &&
      x == w.(latest := w.latest + 1, mem := w.mem + {w.latest + 1}, writers := w.writers + {Applied(w.latest + 1)})
    case Publish => x == w.(visible := w.latest)
    case Bump(writer) =>
      writer.Applied? && writer in w.writers && writer.version <= w.visible &&
      x == w.(at := w.at + [w.visible], writers := w.writers - {writer} + {Bumped(writer.version, |w.at|)})
    case Pop(writer) =>
      writer.Bumped? && writer in w.writers &&
      x == w.(cache := None, writers := w.writers - {writer}, returned := w.returned + {writer})
    case Save(version, masked) =>
      version in w.mem && w.saved < version && x == w.(disk := w.disk - masked + {version}, saved := version)
    case Drop => x == w.(mem := set v | v in w.mem && v > w.saved)
    case Begin(id) => |w.at| > 0 && x == w.(readers := w.readers[id := Started(w.visible, |w.at| - 1)])
    case Miss(id) =>
      id in w.readers && w.readers[id].Started? && (forall v :: v in w.mem ==> v > w.readers[id].read) &&
      x == w.(readers := w.readers[id := Missed(w.readers[id].read, w.readers[id].begin)])
    case Capture(id) =>
      id in w.readers && w.readers[id].Missed? && |w.at| > 0 &&
      x == w.(readers := w.readers[id := Captured(w.readers[id].read, w.readers[id].begin, |w.at| - 1)])
    case Load(id, version) =>
      id in w.readers && w.readers[id].Captured? && NewestUpTo(w.disk, w.readers[id].read, version) &&
      x == w.(readers := w.readers[id := LoadedAs(w.readers[id], version)])
    case Insert(id) =>
      id in w.readers && w.readers[id].Loaded? &&
      x == w.(readers := w.readers - {id},
              cache := if w.readers[id].gen == Gen(w)
                       then Some(Row(w.readers[id].version, w.readers[id].gen))
                       else w.cache)
    case Leave(id) => x == w.(readers := w.readers - {id})
    case Evict => x == w.(cache := None)
  }

  function LoadedAs(r: Reader, version: nat): Reader
    requires r.Captured?
  {
    Loaded(r.read, r.begin, r.gen, version)
  }

  const START: World := World({}, {0}, 0, 0, 0, [0], None, map[], {}, {})

  ghost predicate IsRun(ws: seq<World>, steps: seq<Step>) {
    |ws| == |steps| + 1 && ws[0] == START && forall i :: 0 <= i < |steps| ==> Next(ws[i], steps[i], ws[i + 1])
  }

  /** No cached row is older than a write that has returned. */
  ghost predicate Fresh(w: World) {
    forall writer :: writer in w.returned && w.cache.Some? ==> writer.version <= w.cache.value.version
  }

  /** The same, unless a write of the key is still to invalidate. */
  ghost predicate FreshAtRest(w: World) {
    w.writers == {} ==> Fresh(w)
  }

  // ── What holds in every run ───────────────────────────────────────────────

  /** The newest version is in memory or saved. */
  ghost predicate LayersOk(w: World) {
    w.saved in w.disk && w.saved <= w.latest && (w.latest in w.mem || w.saved == w.latest) &&
    (forall v :: v in w.disk ==> v <= w.saved) && (forall v :: v in w.mem ==> v <= w.latest)
  }

  ghost predicate GensOk(w: World) {
    |w.at| > 0 && w.visible <= w.latest && forall i, j :: 0 <= i <= j < |w.at| ==> w.at[i] <= w.at[j] <= w.visible
  }

  ghost predicate StorageOk(w: World) {
    LayersOk(w) && GensOk(w)
  }

  /** A reader past its memtable check missed a version above its read number,
      or memory was empty and the newest version is on disk. */
  ghost predicate ReaderOk(w: World, r: Reader) {
    r.begin < |w.at| && w.at[r.begin] <= r.read <= w.latest &&
    (!r.Started? ==> w.latest > r.read || w.saved == r.read) &&
    (r.Captured? || r.Loaded? ==> r.gen < |w.at|) &&
    (r.Loaded? ==> w.latest > r.read || r.version == r.read)
  }

  ghost predicate ReadersOk(w: World) {
    forall id :: id in w.readers ==> ReaderOk(w, w.readers[id])
  }

  ghost predicate WriterOk(w: World, writer: Writer) {
    writer.version <= w.latest && (writer.Bumped? ==> writer.gen < |w.at| && writer.version <= w.at[writer.gen])
  }

  ghost predicate WritersOk(w: World) {
    (forall writer :: writer in w.writers ==> WriterOk(w, writer)) &&
    (forall writer :: writer in w.returned ==> WriterOk(w, writer) && writer.Bumped?)
  }

  /** A version above those of the last bump still has its own bump to come. */
  ghost predicate BumpsOwed(w: World) {
    |w.at| > 0 && (w.latest > w.at[|w.at| - 1] ==> Applied(w.latest) in w.writers)
  }

  ghost predicate Base(w: World) {
    StorageOk(w) && ReadersOk(w) && WritersOk(w) && BumpsOwed(w)
  }

  lemma LayersStep(w: World, step: Step, x: World)
    requires LayersOk(w) && Next(w, step, x)
    ensures LayersOk(x)
  {
    hide NewestUpTo;
  }

  lemma GensStep(w: World, step: Step, x: World)
    requires GensOk(w) && Next(w, step, x)
    ensures GensOk(x)
  {
    hide NewestUpTo;
  }

  lemma ReadersStep(w: World, step: Step, x: World)
    requires StorageOk(w) && ReadersOk(w) && Next(w, step, x)
    ensures ReadersOk(x)
  {
    hide StorageOk, Next, ReaderOk;
    forall id | id in x.readers
      ensures ReaderOk(x, x.readers[id])
    {
      ReaderStep(w, step, x, id);
    }
  }

  lemma ReaderStep(w: World, step: Step, x: World, id: nat)
    requires StorageOk(w) && (id in w.readers ==> ReaderOk(w, w.readers[id])) && Next(w, step, x) && id in x.readers
    ensures ReaderOk(x, x.readers[id])
  {
  }

  lemma WritersStep(w: World, step: Step, x: World)
    requires StorageOk(w) && WritersOk(w) && BumpsOwed(w) && Next(w, step, x)
    ensures WritersOk(x) && BumpsOwed(x)
  {
    forall writer | writer in x.writers
      ensures WriterOk(x, writer)
    {
      if writer in w.writers { assert WriterOk(w, writer); }
    }
    forall writer | writer in x.returned
      ensures WriterOk(x, writer) && writer.Bumped?
    {
      assert writer in w.returned || writer in w.writers;
      assert WriterOk(w, writer);
    }
  }

  lemma BaseStep(w: World, step: Step, x: World)
    requires Base(w) && Next(w, step, x)
    ensures Base(x)
  {
    hide LayersOk, GensOk, ReadersOk, WritersOk, BumpsOwed, Next;
    LayersStep(w, step, x);
    GensStep(w, step, x);
    ReadersStep(w, step, x);
    WritersStep(w, step, x);
  }

  lemma {:induction false} RunBase(ws: seq<World>, steps: seq<Step>, i: nat)
    requires IsRun(ws, steps) && i < |ws|
    ensures Base(ws[i])
  {
    hide Next;
    if i > 0 {
      RunBase(ws, steps, i - 1);
      BaseStep(ws[i - 1], steps[i - 1], ws[i]);
    }
  }

  /** Every invalidation that has returned came before the entry's capture. */
  ghost predicate EntryGuarded(w: World) {
    w.cache.Some? ==>
      w.cache.value.gen < |w.at| &&
      forall writer :: writer in w.returned ==> writer.Bumped? && writer.gen <= w.cache.value.gen
  }

  lemma GuardedStep(w: World, step: Step, x: World)
    requires Base(w) && EntryGuarded(w) && Next(w, step, x)
    ensures EntryGuarded(x)
  {
    hide StorageOk, BumpsOwed;
    if step.Insert? { assert ReaderOk(w, w.readers[step.id]); }
    forall writer | writer in w.returned
      ensures writer.Bumped? && writer.gen < |w.at|
    {
      assert WriterOk(w, writer);
    }
  }

  lemma GuardedIsFresh(w: World)
    requires Base(w) && EntryGuarded(w) && (w.cache.Some? ==> w.at[w.cache.value.gen] <= w.cache.value.version)
    ensures Fresh(w)
  {
    forall writer | writer in w.returned && w.cache.Some?
      ensures writer.version <= w.cache.value.version
    {
      assert WriterOk(w, writer);
      assert w.at[writer.gen] <= w.at[w.cache.value.gen];
    }
  }

  // ── No bump between read number and capture ───────────────────────────────

  /** A capture comes at most `d` bumps after the lookup fixed its read number. */
  ghost predicate CaptureWithin(w: World, step: Step, d: nat) {
    step.Capture? && step.id in w.readers ==> Gen(w) - w.readers[step.id].begin <= d
  }

  ghost predicate CapturesWithin(ws: seq<World>, steps: seq<Step>, d: nat) {
    IsRun(ws, steps) && forall k :: 0 <= k < |steps| ==> CaptureWithin(ws[k], steps[k], d)
  }

  ghost predicate PromptReaders(w: World) {
    forall id :: id in w.readers && (w.readers[id].Captured? || w.readers[id].Loaded?) ==>
      w.readers[id].gen == w.readers[id].begin
  }

  /** This write will pop whatever was cached at generation `gen`. */
  predicate StillToPop(writer: Writer, gen: nat) {
    writer.Applied? || writer.gen > gen
  }

  ghost predicate EntrySettled(w: World) {
    w.cache.Some? ==>
      w.cache.value.gen < |w.at| &&
      (w.at[w.cache.value.gen] <= w.cache.value.version ||
       exists writer :: writer in w.writers && StillToPop(writer, w.cache.value.gen))
  }

  lemma PromptStep(w: World, step: Step, x: World)
    requires Base(w) && PromptReaders(w) && Next(w, step, x) && CaptureWithin(w, step, 0)
    ensures PromptReaders(x)
  {
    hide StorageOk, WritersOk, BumpsOwed;
    if step.Capture? { assert ReaderOk(w, w.readers[step.id]); }
  }

  lemma SettledStep(w: World, step: Step, x: World)
    requires Base(w) && PromptReaders(w) && EntrySettled(w) && Next(w, step, x)
    ensures EntrySettled(x)
  {
    if step.Insert? {
      assert ReaderOk(w, w.readers[step.id]);
      assert StillToPop(Applied(w.latest), w.readers[step.id].gen);
    } else if w.cache.Some? && !(w.at[w.cache.value.gen] <= w.cache.value.version) {
      var writer :| writer in w.writers && StillToPop(writer, w.cache.value.gen);
      if step == Bump(writer) {
        assert StillToPop(Bumped(writer.version, |w.at|), w.cache.value.gen);
      } else {
        assert x.cache.Some? ==> writer in x.writers;
      }
    }
  }

  /** In every interleaving in which no bump falls between the moment a lookup
      fixes its read number and its capture, an old row is cached only as long as
      a write of the key is still to invalidate. */
  lemma {:induction false} PromptRunsSettle(ws: seq<World>, steps: seq<Step>, i: nat)
    requires CapturesWithin(ws, steps, 0) && i < |ws|
    ensures PromptReaders(ws[i]) && EntryGuarded(ws[i]) && EntrySettled(ws[i]) && FreshAtRest(ws[i])
  {
    hide Next, CaptureWithin, Fresh, Base, EntryGuarded, PromptReaders;
    RunBase(ws, steps, i);
    if i > 0 {
      PromptRunsSettle(ws, steps, i - 1);
      RunBase(ws, steps, i - 1);
      GuardedStep(ws[i - 1], steps[i - 1], ws[i]);
      PromptStep(ws[i - 1], steps[i - 1], ws[i]);
      SettledStep(ws[i - 1], steps[i - 1], ws[i]);
    } else {
      StartOk();
    }
    if ws[i].writers == {} { GuardedIsFresh(ws[i]); }
  }

  lemma StartOk()
    ensures EntryGuarded(START) && PromptReaders(START) && SteadyReaders(START)
  {
  }

  // ── No write between read number and version ──────────────────────────────

  /** A version is taken when at most `e` writes are above the lookup's read
      number. */
  ghost predicate LoadWithin(w: World, step: Step, e: nat) {
    step.Load? && step.id in w.readers ==> w.latest - w.readers[step.id].read <= e
  }

  ghost predicate LoadsWithin(ws: seq<World>, steps: seq<Step>, e: nat) {
    IsRun(ws, steps) && forall k :: 0 <= k < |steps| ==> LoadWithin(ws[k], steps[k], e)
  }

  ghost predicate SteadyReaders(w: World) {
    forall id :: id in w.readers && w.readers[id].Loaded? ==>
      w.readers[id].gen < |w.at| && w.at[w.readers[id].gen] <= w.readers[id].version
  }

  ghost predicate EntryNew(w: World) {
    w.cache.Some? ==> w.cache.value.gen < |w.at| && w.at[w.cache.value.gen] <= w.cache.value.version
  }

  lemma SteadyStep(w: World, step: Step, x: World)
    requires Base(w) && SteadyReaders(w) && EntryNew(w) && Next(w, step, x) && LoadWithin(w, step, 0)
    ensures SteadyReaders(x) && EntryNew(x)
  {
    hide StorageOk, WritersOk, BumpsOwed, ReaderOk, NewestUpTo;
    if step.Load? { LoadedIsNew(w, w.readers[step.id], step.version); }
  }

  lemma LoadedIsNew(w: World, r: Reader, version: nat)
    requires StorageOk(w) && ReaderOk(w, r) && r.Captured? && NewestUpTo(w.disk, r.read, version) && w.latest <= r.read
    ensures r.gen < |w.at| && w.at[r.gen] <= version
  {
  }

  /** In every interleaving in which no write is above a lookup's read number when
      it takes its version, no cached row is ever older than a write that has
      returned. */
  lemma {:induction false} SteadyRunsStayFresh(ws: seq<World>, steps: seq<Step>, i: nat)
    requires LoadsWithin(ws, steps, 0) && i < |ws|
    ensures EntryGuarded(ws[i]) && SteadyReaders(ws[i]) && EntryNew(ws[i]) && Fresh(ws[i])
  {
    hide Next, LoadWithin, Fresh, Base, EntryGuarded, SteadyReaders;
    RunBase(ws, steps, i);
    if i > 0 {
      SteadyRunsStayFresh(ws, steps, i - 1);
      RunBase(ws, steps, i - 1);
      GuardedStep(ws[i - 1], steps[i - 1], ws[i]);
      SteadyStep(ws[i - 1], steps[i - 1], ws[i]);
    } else {
      StartOk();
    }
    GuardedIsFresh(ws[i]);
  }

  // ── An old row for good ───────────────────────────────────────────────────

  /** The lookup begins; a write is applied, invalidates and returns; the lookup
      misses it, captures the new generation at once, reads the old row and
      caches it; then the write is flushed and its memtable dropped. */
  const BEGUN: World := START.(readers := map[7 := Started(0, 0)])
  const WRITTEN: World := BEGUN.(latest := 1, mem := {1}, writers := {Applied(1)})
  const SEEN: World := WRITTEN.(visible := 1)
  const BUMPED: World := SEEN.(at := [0, 1], writers := {Bumped(1, 1)})
  const RETURNED: World := BUMPED.(writers := {}, returned := {Bumped(1, 1)})
  const MISSED: World := RETURNED.(readers := map[7 := Missed(0, 0)])
  const CAPTURED: World := MISSED.(readers := map[7 := Captured(0, 0, 1)])
  const LOADED: World := CAPTURED.(readers := map[7 := Loaded(0, 0, 1, 0)])
  const CACHED: World := LOADED.(readers := map[], cache := Some(Row(0, 1)))
  const FLUSHED: World := CACHED.(disk := {0, 1}, saved := 1)
  const STALE: World := FLUSHED.(mem := {})

  const STALE_RUN: seq<World> :=
    [START, BEGUN, WRITTEN, SEEN, BUMPED, RETURNED, MISSED, CAPTURED, LOADED, CACHED, FLUSHED, STALE]

  const STALE_STEPS: seq<Step> :=
    [Begin(7), Apply, Publish, Bump(Applied(1)), Pop(Bumped(1, 1)), Miss(7), Capture(7), Load(7, 0), Insert(7),
     Save(1, {}), Drop]

  lemma StaleReaderSteps()
    ensures Next(START, Begin(7), BEGUN) && Next(RETURNED, Miss(7), MISSED) && Next(MISSED, Capture(7), CAPTURED)
    ensures Next(CAPTURED, Load(7, 0), LOADED) && Next(LOADED, Insert(7), CACHED)
  {
    assert map[7 := Loaded(0, 0, 1, 0)] - {7} == map[];
  }

  lemma StaleWriterSteps()
    ensures Next(BEGUN, Apply, WRITTEN) && Next(WRITTEN, Publish, SEEN) && Next(SEEN, Bump(Applied(1)), BUMPED) &&
            Next(BUMPED, Pop(Bumped(1, 1)), RETURNED)
    ensures Next(CACHED, Save(1, {}), FLUSHED) && Next(FLUSHED, Drop, STALE)
  {
    assert {Applied(1)} - {Applied(1)} + {Bumped(1, 1)} == {Bumped(1, 1)};
    assert {Bumped(1, 1)} - {Bumped(1, 1)} == {};
    assert {0} - {} + {1} == {0, 1};
  }

  /** The row in the cache is older than the write that returned, nothing in
      memory hides it and no write is left to remove it. The capture comes right
      after the memtable check, one bump and one write after the beginning. */
  lemma StaleCacheIsReachable()
    ensures CapturesWithin(STALE_RUN, STALE_STEPS, 1) && LoadsWithin(STALE_RUN, STALE_STEPS, 1)
    ensures STALE_RUN[11] == STALE && !FreshAtRest(STALE) && STALE.mem == {}
    ensures STALE_STEPS[5] == Miss(7) && STALE_STEPS[6] == Capture(7)
  {
    hide Next;
    StaleIsRun();
    assert STALE_RUN[6] == MISSED && STALE_RUN[7] == CAPTURED;
    assert forall k :: 0 <= k < |STALE_STEPS| && k != 6 ==> !STALE_STEPS[k].Capture?;
    assert forall k :: 0 <= k < |STALE_STEPS| && k != 7 ==> !STALE_STEPS[k].Load?;
    assert Bumped(1, 1) in STALE.returned;
  }

  lemma StaleIsRun()
    ensures IsRun(STALE_RUN, STALE_STEPS)
  {
    hide Next;
    StaleReaderSteps();
    StaleWriterSteps();
  }

  /** All runs whose captures come at most `d` bumps late are free of old rows
      once writes have returned if and only if `d` is 0. */
  lemma CaptureWindowIsSharp(d: nat)
    ensures (forall ws, steps :: CapturesWithin(ws, steps, d) ==> forall i :: 0 <= i < |ws| ==> FreshAtRest(ws[i]))
            <==> d == 0
  {
    hide Next, Fresh;
    if d == 0 {
      forall ws, steps, i: nat | CapturesWithin(ws, steps, 0) && i < |ws|
        ensures FreshAtRest(ws[i])
      {
        PromptRunsSettle(ws, steps, i);
      }
    } else {
      StaleCacheIsReachable();
      assert CapturesWithin(STALE_RUN, STALE_STEPS, d);
      assert !FreshAtRest(STALE_RUN[11]);
    }
  }

  // ── An old row for a while ────────────────────────────────────────────────

  /** A write returns and a lookup begins. A second write is applied and flushed
      together with the first, so that the first is not on disk, and is slow to
      invalidate. The lookup finds the row before both. */
  const ONE_WRITTEN: World := START.(latest := 1, mem := {1}, writers := {Applied(1)})
  const ONE_SEEN: World := ONE_WRITTEN.(visible := 1)
  const ONE_BUMPED: World := ONE_SEEN.(at := [0, 1], writers := {Bumped(1, 1)})
  const ONE_RETURNED: World := ONE_BUMPED.(writers := {}, returned := {Bumped(1, 1)})
  const TWO_BEGUN: World := ONE_RETURNED.(readers := map[7 := Started(1, 1)])
  const TWO_WRITTEN: World := TWO_BEGUN.(latest := 2, mem := {1, 2}, writers := {Applied(2)})
  const TWO_FLUSHED: World := TWO_WRITTEN.(disk := {0, 2}, saved := 2)
  const TWO_DROPPED: World := TWO_FLUSHED.(mem := {})
  const TWO_MISSED: World := TWO_DROPPED.(readers := map[7 := Missed(1, 1)])
  const TWO_CAPTURED: World := TWO_MISSED.(readers := map[7 := Captured(1, 1, 1)])
  const TWO_LOADED: World := TWO_CAPTURED.(readers := map[7 := Loaded(1, 1, 1, 0)])
  const TWO_CACHED: World := TWO_LOADED.(readers := map[], cache := Some(Row(0, 1)))

  const PASSING_RUN: seq<World> :=
    [START, ONE_WRITTEN, ONE_SEEN, ONE_BUMPED, ONE_RETURNED, TWO_BEGUN, TWO_WRITTEN, TWO_FLUSHED, TWO_DROPPED,
     TWO_MISSED, TWO_CAPTURED, TWO_LOADED, TWO_CACHED]

  const PASSING_STEPS: seq<Step> :=
    [Apply, Publish, Bump(Applied(1)), Pop(Bumped(1, 1)), Begin(7), Apply, Save(2, {}), Drop, Miss(7), Capture(7),
     Load(7, 0), Insert(7)]

  lemma PassingReaderSteps()
    ensures Next(ONE_RETURNED, Begin(7), TWO_BEGUN) && Next(TWO_DROPPED, Miss(7), TWO_MISSED)
    ensures Next(TWO_MISSED, Capture(7), TWO_CAPTURED) && Next(TWO_CAPTURED, Load(7, 0), TWO_LOADED)
    ensures Next(TWO_LOADED, Insert(7), TWO_CACHED)
  {
    assert map[7 := Loaded(1, 1, 1, 0)] - {7} == map[];
  }

  lemma PassingWriterSteps()
    ensures Next(START, Apply, ONE_WRITTEN) && Next(ONE_WRITTEN, Publish, ONE_SEEN)
    ensures Next(ONE_SEEN, Bump(Applied(1)), ONE_BUMPED)
    ensures Next(ONE_BUMPED, Pop(Bumped(1, 1)), ONE_RETURNED) && Next(TWO_BEGUN, Apply, TWO_WRITTEN)
    ensures Next(TWO_WRITTEN, Save(2, {}), TWO_FLUSHED) && Next(TWO_FLUSHED, Drop, TWO_DROPPED)
  {
    assert {Applied(1)} - {Applied(1)} + {Bumped(1, 1)} == {Bumped(1, 1)};
    assert {Bumped(1, 1)} - {Bumped(1, 1)} == {};
    assert {1} + {2} == {1, 2} && {0} - {} + {2} == {0, 2};
  }

  /** So capturing in time keeps old rows out only in the end, not always. */
  lemma OldRowCachedInPassing()
    ensures CapturesWithin(PASSING_RUN, PASSING_STEPS, 0) && LoadsWithin(PASSING_RUN, PASSING_STEPS, 1)
    ensures PASSING_RUN[12] == TWO_CACHED && !Fresh(TWO_CACHED) && FreshAtRest(TWO_CACHED)
  {
    hide Next;
    PassingIsRun();
    assert PASSING_RUN[9] == TWO_MISSED && PASSING_RUN[10] == TWO_CAPTURED;
    assert forall k :: 0 <= k < |PASSING_STEPS| && k != 9 ==> !PASSING_STEPS[k].Capture?;
    assert forall k :: 0 <= k < |PASSING_STEPS| && k != 10 ==> !PASSING_STEPS[k].Load?;
    assert Bumped(1, 1) in TWO_CACHED.returned;
    assert Applied(2) in TWO_CACHED.writers;
  }

  lemma PassingIsRun()
    ensures IsRun(PASSING_RUN, PASSING_STEPS)
  {
    hide Next;
    PassingReaderSteps();
    PassingWriterSteps();
  }

  /** All runs in which versions are taken with at most `e` writes above the read
      number are free of old rows at any time if and only if `e` is 0. */
  lemma ReadWindowIsSharp(e: nat)
    ensures (forall ws, steps :: LoadsWithin(ws, steps, e) ==> forall i :: 0 <= i < |ws| ==> Fresh(ws[i])) <==> e == 0
  {
    hide Next, Fresh;
    if e == 0 {
      forall ws, steps, i: nat | LoadsWithin(ws, steps, 0) && i < |ws|
        ensures Fresh(ws[i])
      {
        SteadyRunsStayFresh(ws, steps, i);
      }
    } else {
      OldRowCachedInPassing();
      assert LoadsWithin(PASSING_RUN, PASSING_STEPS, e);
      assert !Fresh(PASSING_RUN[12]);
    }
  }
}
