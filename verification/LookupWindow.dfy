/** When a point lookup in its three moments gives the right answer.

    If no flush installed from the first moment to the last has a version of the
    key above the read sequence number, the lookup is right, in every run. If
    flushes leave one visible row per key, as deletion vectors are for, this is
    also the only way to find a live key that has left memory.
 */
module LookupWindow {
  import opened Wrappers
  import opened ByteStrings
  import opened Table
  import opened Memtable
  import opened Versions
  import opened Catalog
  import opened LiveFiles
  import opened Flush
  import opened FlushCommit
  import opened EngineState
  import opened EngineSteps
  import opened EngineRuns
  import opened Emission
  import opened UniqueRows
  import opened VersionFate
  import opened SplitLookup

  /** The memtable being flushed has a version of the key above `r`. */
  ghost predicate FlushesAbove(sys: Sys, s: State, uk: bytes, r: nat) {
    s.queue != [] && exists w :: InMem(sys.env, s.queue[0], w) && w.key.uk == uk && w.key.seqno > r
  }

  /** No flush installed from state `h` to state `j` does. */
  ghost predicate Undisturbed(sys: Sys, ss: seq<State>, steps: seq<Step>, h: nat, j: nat, uk: bytes, r: nat)
    requires h <= j < |ss| == |steps| + 1
  {
    forall l :: h <= l < j && steps[l].Install? ==> !FlushesAbove(sys, ss[l], uk, r)
  }

  // ── Undisturbed lookups are right ─────────────────────────────────────────

  /** The installed memtable that is still to be dropped has no such version. */
  ghost predicate Clean(sys: Sys, s: State, uk: bytes, r: nat) {
    s.phase.Installed? ==> !FlushesAbove(sys, s, uk, r)
  }

  lemma CleanStep(sys: Sys, s: State, spec: Spec, step: Step, s': State, spec': Spec, uk: bytes, r: nat)
    requires Inv(sys, s, spec) && EngineRuns.Next(sys, s, spec, step, s', spec') && Clean(sys, s, uk, r)
    requires step.Install? ==> !FlushesAbove(sys, s, uk, r)
    ensures Clean(sys, s', uk, r)
  {
    hide CanCommit, RecordOk, SpecMany, WriteMany, CanFill, MemsSound, Tracks, Layered, Counted, FirstsAscend, CacheOk,
         CatalogOk, VersionOk, SysOk, CommitOk, StoreAfter, Rows, VersionOf, InMem, Adds, Successor, Retain;
    if step.Write? { BatchIsMany(s, step.recs, |step.recs|); }
    if s'.phase.Installed? { assert s'.queue != [] && s.queue != [] ==> s'.queue[0] == s.queue[0]; }
  }

  lemma CleanNow(sys: Sys, s: State, spec: Spec, uk: bytes)
    requires Inv(sys, s, spec)
    ensures Clean(sys, s, uk, s.visible)
  {
    hide SysOk, MemsSound, Tracks, Layered, FirstsAscend, CacheOk, CatalogOk, VersionOk, PhaseOk, InMem, InVersion;
    if s.queue != [] {
      forall w | InMem(sys.env, s.queue[0], w)
        ensures w.key.seqno <= s.visible
      {
        assert InLayer(sys, s, 1, w);
      }
    }
  }

  lemma {:induction false} StaysClean(sys: Sys, ss: seq<State>, specs: seq<Spec>, steps: seq<Step>, h: nat, l: nat,
                                      uk: bytes)
    requires EngineRuns.IsRun(sys, ss, specs, steps) && h <= l < |ss|
    requires Undisturbed(sys, ss, steps, h, l, uk, ss[h].visible)
    ensures Clean(sys, ss[l], uk, ss[h].visible)
    decreases l
  {
    hide Inv, EngineRuns.Next, FlushesAbove, Clean;
    RunKeepsInv(sys, ss, specs, steps, h);
    if h < l {
      StaysClean(sys, ss, specs, steps, h, l - 1, uk);
      RunKeepsInv(sys, ss, specs, steps, l - 1);
      CleanStep(sys, ss[l - 1], specs[l - 1], steps[l - 1], ss[l], specs[l], uk, ss[h].visible);
    } else {
      CleanNow(sys, ss[h], specs[h], uk);
    }
  }

  /** In a clean state, no step but a disturbing install loses the last
      operation. */
  lemma CleanKeeps(sys: Sys, s: State, spec: Spec, step: Step, s': State, spec': Spec, v: MemRec, r: nat)
    requires Inv(sys, s, spec) && EngineRuns.Next(sys, s, spec, step, s', spec') && Clean(sys, s, v.key.uk, r)
    requires step.Install? ==> !FlushesAbove(sys, s, v.key.uk, r)
    requires forall w :: InState(sys, s, w) && w.key.uk == v.key.uk && w.key.seqno <= r ==> NotNewer(w, v)
    ensures !Loses(sys, s, step, v)
  {
    hide CanCommit, RecordOk, SpecMany, WriteMany, CanFill, MemsSound, Tracks, Layered, Counted, FirstsAscend, CacheOk,
         CatalogOk, VersionOk, SysOk, CommitOk, StoreAfter, Rows, VersionOf, InMem, Adds, Successor, Retain, InFiles;
    if step.Install? && HasKey(sys.env, s.queue[0], v.key.uk) && InFiles(sys, DiskOf(s), s.version, v) {
      var w :| InMem(sys.env, s.queue[0], w) && w.key.uk == v.key.uk;
      assert InLayer(sys, s, 1, w);
      FileVersionOlder(sys, s, v, w);
    }
    if step.Drop? && InMem(sys.env, s.queue[0], v) {
      forall w | InMem(sys.env, s.queue[0], w) && w.key.uk == v.key.uk
        ensures NotNewer(w, v)
      {
        assert InLayer(sys, s, 1, w);
      }
    }
  }

  lemma UndisturbedKeeps(sys: Sys, ss: seq<State>, specs: seq<Spec>, steps: seq<Step>, h: nat, j: nat, uk: bytes)
    requires EngineRuns.IsRun(sys, ss, specs, steps) && h <= j < |ss| && uk in specs[h]
    requires Undisturbed(sys, ss, steps, h, j, uk, ss[h].visible)
    ensures NeverLost(sys, ss, steps, h, j, specs[h][uk])
  {
    hide Inv, EngineRuns.Next, FlushesAbove, Clean, Loses, InState;
    var v := specs[h][uk];
    RunKeepsInv(sys, ss, specs, steps, h);
    LastIsOld(sys, ss[h], specs[h], uk);
    forall l | h <= l < j
      ensures !Loses(sys, ss[l], steps[l], v)
    {
      RunKeepsInv(sys, ss, specs, steps, l);
      StaysClean(sys, ss, specs, steps, h, l, uk);
      forall w | InState(sys, ss[l], w) && w.key.uk == uk && w.key.seqno <= ss[h].visible
        ensures NotNewer(w, v)
      {
        NothingNewer(sys, ss, specs, steps, h, l, w);
      }
      CleanKeeps(sys, ss[l], specs[l], steps[l], ss[l + 1], specs[l + 1], v, ss[h].visible);
    }
  }

  /** In every run, with or without deletion vectors: an undisturbed lookup finds
      the key's last operation of the moment it began. */
  lemma UndisturbedLookup(sys: Sys, ss: seq<State>, specs: seq<Spec>, steps: seq<Step>, h: nat, i: nat, j: nat,
                          uk: bytes, found: Option<MemRec>)
    requires EngineRuns.IsRun(sys, ss, specs, steps) && h <= i <= j < |ss|
    requires Found(sys, ss[i], ss[j], uk, ss[h].visible, found)
    requires Undisturbed(sys, ss, steps, h, j, uk, ss[h].visible)
    ensures found == LastOp(specs[h], uk) && AnswerOf(found) == Answer(specs[h], uk)
  {
    hide Inv, EngineRuns.Next, Found, NeverLost, InMemory, Undisturbed;
    RecordFoundIff(sys, ss, specs, steps, h, i, j, uk, found);
    if uk in specs[h] { UndisturbedKeeps(sys, ss, specs, steps, h, j, uk); }
  }

  // ── Disturbed ones miss the key if rows are unique ────────────────────────

  /** A row of the key above `r` is visible. */
  ghost predicate NewerShown(sys: Sys, s: State, uk: bytes, r: nat) {
    exists x :: OnDisk(sys.codec, DiskOf(s), s.version, x) && x.key.uk == uk && x.key.seqno > r
  }

  /** The flushed memtable's newest version of a key is visible afterwards. */
  lemma FlushedShown(sys: Sys, s: State, spec: Spec, w: MemRec, r: nat)
    requires Inv(sys, s, spec) && s.phase.Committed? && s.queue != [] && InMem(sys.env, s.queue[0], w)
    requires w.key.seqno > r
    ensures NewerShown(sys, InstallVersion(s), w.key.uk, r)
  {
    hide SysOk, MemsSound, Tracks, Layered, Counted, FirstsAscend, CacheOk, CatalogOk, VersionOk, VersionOf, InVersion,
         NewFileOf, TopIn, InMem, HasRow, Shows;
    var disk, m := DiskOf(s), MemAt(s, 1);
    var f :| InVersion(s.phase.next, f) && f.path == s.phase.path && NewFileOf(sys, disk, m, f);
    var z := KeyIsSaved(sys, disk, m, f, w.key.uk);
    NewRowIsTop(sys, disk, m, f, z);
    TopIsNewest(sys.env, m, FromRow(z), w);
    NewFileDv(sys, disk, m, f);
    NoDvShows(sys.codec, disk, f, z);
    assert OnDisk(sys.codec, disk, s.phase.next, z);
  }

  lemma TopIsNewest(env: Env, m: Mem, v: MemRec, w: MemRec)
    requires TopIn(env, m, v) && InMem(env, m, w) && v.key.uk == w.key.uk
    ensures w.key.seqno <= v.key.seqno
  {
    hide InMem;
  }

  lemma InstallShows(sys: Sys, s: State, spec: Spec, uk: bytes, r: nat)
    requires Inv(sys, s, spec) && s.phase.Committed? && NewerShown(sys, s, uk, r)
    ensures NewerShown(sys, InstallVersion(s), uk, r)
  {
    hide SysOk, MemsSound, Tracks, Counted, FirstsAscend, CacheOk, CatalogOk, VersionOk, VersionOf, OnDisk, Successor,
         InMem, Layered;
    var x :| OnDisk(sys.codec, DiskOf(s), s.version, x) && x.key.uk == uk && x.key.seqno > r;
    ShownBefore(sys, DiskOf(s), s.version, s.phase.next, MemAt(s, 1), s.phase.path, x);
    if !OnDisk(sys.codec, DiskOf(s), s.phase.next, x) {
      var w :| InMem(sys.env, MemAt(s, 1), w) && w.key.uk == uk;
      assert InLayer(sys, s, 1, w) && InLayer(sys, s, 0, FromRow(x));
      FileVersionOlder(sys, s, FromRow(x), w);
      FlushedShown(sys, s, spec, w, r);
    }
  }

  lemma ShownStep(sys: Sys, s: State, spec: Spec, step: Step, s': State, spec': Spec, uk: bytes, r: nat)
    requires Inv(sys, s, spec) && EngineRuns.Next(sys, s, spec, step, s', spec') && NewerShown(sys, s, uk, r)
    ensures NewerShown(sys, s', uk, r)
  {
    hide CanCommit, RecordOk, SpecMany, CanFill, MemsSound, Tracks, Layered, Counted, FirstsAscend, CacheOk, CatalogOk,
         VersionOk, PhaseOk, SysOk, CommitOk, StoreAfter, Rows, VersionOf, OnDisk, Insert, Retain, Memtable.Fresh,
         CommitFlush, FlushFails, WriteMany;
    match step
    case Write(recs) => BatchIsMany(s, recs, |recs|);
    case Flush(job, _) => FlushShows(sys, s, spec, job, uk, r);
    case Fail => FailShows(sys, s, spec, s', uk, r);
    case Install => InstallShows(sys, s, spec, uk, r);
    case _ =>
  }

  lemma FlushShows(sys: Sys, s: State, spec: Spec, job: Job, uk: bytes, r: nat)
    requires Inv(sys, s, spec) && CanCommit(sys, s, job) && NewerShown(sys, s, uk, r)
    ensures CommitOk(sys.codec, s.store, TxnOf(sys, job)) && NewerShown(sys, CommitFlush(sys, s, job), uk, r)
  {
    hide MemsSound, Tracks, Layered, Counted, FirstsAscend, CacheOk, CatalogOk, VersionOk, VersionOf, SysOk, JobReady,
         SameReads, StoreAfter, OnDisk;
    assert JobOk(sys, s.store, s.files, job);
    JobCommits(sys, s.store, s.files, job);
    var t := CommitFlush(sys, s, job);
    assert DiskOf(t) == DiskAfter(sys, s.store, s.files, job);
    OldReadsKept(sys, s.store, s.files, job);
    SameReadsKeepOk(sys.env, sys.codec, DiskOf(s), DiskOf(t), s.version);
  }

  lemma FailShows(sys: Sys, s: State, spec: Spec, t: State, uk: bytes, r: nat)
    requires Inv(sys, s, spec) && FlushFails(sys, s, t) && NewerShown(sys, s, uk, r)
    ensures NewerShown(sys, t, uk, r)
  {
    hide MemsSound, Tracks, Layered, Counted, FirstsAscend, CacheOk, CatalogOk, VersionOk, VersionOf, SysOk, Failed,
         SameReads, OnDisk;
    FailedReads(sys, s, t);
    SameReadsKeepOk(sys.env, sys.codec, DiskOf(s), DiskOf(t), s.version);
  }

  lemma {:induction false} StaysShown(sys: Sys, ss: seq<State>, specs: seq<Spec>, steps: seq<Step>, l: nat, j: nat,
                                      uk: bytes, r: nat)
    requires EngineRuns.IsRun(sys, ss, specs, steps) && l <= j < |ss| && NewerShown(sys, ss[l], uk, r)
    ensures NewerShown(sys, ss[j], uk, r)
    decreases j
  {
    hide Inv, EngineRuns.Next, NewerShown;
    if l < j {
      StaysShown(sys, ss, specs, steps, l, j - 1, uk, r);
      RunKeepsInv(sys, ss, specs, steps, j - 1);
      ShownStep(sys, ss[j - 1], specs[j - 1], steps[j - 1], ss[j], specs[j], uk, r);
    }
  }

  lemma DisturbedShows(sys: Sys, ss: seq<State>, specs: seq<Spec>, steps: seq<Step>, h: nat, j: nat, uk: bytes, r: nat)
    requires EngineRuns.IsRun(sys, ss, specs, steps) && h <= j < |ss| && !Undisturbed(sys, ss, steps, h, j, uk, r)
    ensures NewerShown(sys, ss[j], uk, r)
  {
    hide Inv, NewerShown, InMem, CanCommit, CommitOk, CommitFlush, RecordOk, WriteMany, SpecMany, FlushFails, CanFill;
    var l :| h <= l < j && steps[l].Install? && FlushesAbove(sys, ss[l], uk, r);
    var w :| InMem(sys.env, ss[l].queue[0], w) && w.key.uk == uk && w.key.seqno > r;
    RunKeepsInv(sys, ss, specs, steps, l);
    assert EngineRuns.Next(sys, ss[l], specs[l], steps[l], ss[l + 1], specs[l + 1]);
    FlushedShown(sys, ss[l], specs[l], w, r);
    StaysShown(sys, ss, specs, steps, l + 1, j, uk, r);
  }

  lemma OneVisible(sys: Sys, disk: Disk, v: Version, x: Rec, y: Rec)
    requires OneRowPerKey(sys.codec, disk, v) && OnDisk(sys.codec, disk, v, x) && OnDisk(sys.codec, disk, v, y)
    requires x.key.uk == y.key.uk
    ensures x == y
  {
    hide InVersion, Content, DvOf;
    var f :| InVersion(v, f) && Shows(sys.codec, disk, f, x);
    var g :| InVersion(v, g) && Shows(sys.codec, disk, g, y);
    var p: nat :| ShowsAt(sys.codec, disk, f, p) && Content(disk, f).rows[p] == x;
    var q: nat :| ShowsAt(sys.codec, disk, g, q) && Content(disk, g).rows[q] == y;
    assert SameKey(disk, f, p, g, q);
  }

  /** With one visible row per key, a disturbed lookup reads nothing. */
  lemma DisturbedReadsNothing(sys: Sys, s: State, uk: bytes, r: nat, hit: Option<Rec>)
    requires StateUnique(sys, s) && NewerShown(sys, s, uk, r) && Reads(sys, s, uk, r, hit)
    ensures hit == None
  {
    hide OnDisk, OneRowPerKey, NewestShown;
    var x :| OnDisk(sys.codec, DiskOf(s), s.version, x) && x.key.uk == uk && x.key.seqno > r;
    if hit.Some? { OneVisible(sys, DiskOf(s), s.version, x, hit.value); }
  }

  /** Over every run that starts with one visible row per key and in which no
      flush overlooks a row: a lookup that fixes its read sequence number in state
      `h`, searches the memtables in state `i` and takes its version in state `j`
      answers as it would have in state `h` if and only if the key had no row, or
      its last operation is still in memory in state `i`, or no flush installed
      from `h` to `j` has a version of the key above the read sequence number. */
  lemma LookupWindowIff(sys: Sys, ss: seq<State>, specs: seq<Spec>, steps: seq<Step>, h: nat, i: nat, j: nat,
                        uk: bytes, found: Option<MemRec>)
    requires UniqueStart(sys, ss, specs, steps) && ThoroughThroughout(sys, ss, steps) && h <= i <= j < |ss|
    requires Found(sys, ss[i], ss[j], uk, ss[h].visible, found)
    ensures AnswerOf(found) == Answer(specs[h], uk) <==>
            Answer(specs[h], uk).None? || InMemory(sys, ss[i], specs[h][uk]) ||
            Undisturbed(sys, ss, steps, h, j, uk, ss[h].visible)
  {
    hide Inv, EngineRuns.Next, InMemory, NeverLost, Undisturbed, Found, StateUnique, NewerShown, Emits, Thorough;
    RecordFoundIff(sys, ss, specs, steps, h, i, j, uk, found);
    if Undisturbed(sys, ss, steps, h, j, uk, ss[h].visible) {
      UndisturbedLookup(sys, ss, specs, steps, h, i, j, uk, found);
    } else if uk in specs[h] && !InMemory(sys, ss[i], specs[h][uk]) {
      DisturbedShows(sys, ss, specs, steps, h, j, uk, ss[h].visible);
      RunUniqueIff(sys, ss, specs, steps);
      DisturbedFindsNothing(sys, ss, specs, steps, h, i, j, uk, found);
    }
  }

  lemma DisturbedFindsNothing(sys: Sys, ss: seq<State>, specs: seq<Spec>, steps: seq<Step>, h: nat, i: nat, j: nat,
                              uk: bytes, found: Option<MemRec>)
    requires EngineRuns.IsRun(sys, ss, specs, steps) && h <= i <= j < |ss| && StateUnique(sys, ss[j])
    requires Found(sys, ss[i], ss[j], uk, ss[h].visible, found) && NewerShown(sys, ss[j], uk, ss[h].visible)
    requires uk in specs[h] && !InMemory(sys, ss[i], specs[h][uk])
    ensures found == None
  {
    hide Inv, EngineRuns.Next, InMemory, StateUnique, NewerShown, TopUpTo, AboveFrom, MemNewest, Reads;
    var r := ss[h].visible;
    RunKeepsInv(sys, ss, specs, steps, i);
    InvSound(sys, ss[i], specs[i]);
    MemoryUpTo(sys, ss[i], uk, r);
    match MemNewest(sys.env, ss[i].active, ss[i].queue, uk, r)
    case Some(x) =>
      var k :| TopUpTo(sys, ss[i], k, uk, r, Canon(x));
      HitIsLast(sys, ss, specs, steps, h, i, k, uk, Canon(x));
    case None =>
      var hit :| Reads(sys, ss[j], uk, r, hit) && found == AsVersion(hit);
      DisturbedReadsNothing(sys, ss[j], uk, r, hit);
  }

  /** A flush that marks every superseded row loses the rows of all its keys. */
  lemma CompleteFlushLoses(sys: Sys, s: State, spec: Spec, v: MemRec)
    requires Inv(sys, s, spec) && s.phase.Committed? && InFiles(sys, DiskOf(s), s.version, v)
    requires MarksAll(sys, DiskOf(s), s.phase.next, s.queue[0], s.phase.path)
    ensures Loses(sys, s, Install, v) <==> HasKey(sys.env, s.queue[0], v.key.uk)
  {
    hide SysOk, MemsSound, Tracks, Counted, FirstsAscend, CacheOk, CatalogOk, VersionOk, VersionOf, InVersion,
         NewFileOf,
         TopIn, InMem, Layered, MarksAll, Shows, HasKey;
    var disk, w, m := DiskOf(s), s.phase.next, MemAt(s, 1);
    if HasKey(sys.env, m, v.key.uk) {
      forall h, x | InVersion(w, h) && FromRow(x) == v
        ensures !Shows(sys.codec, disk, h, x)
      {
        if h.path == s.phase.path {
          AddedOnly(sys, disk, w, m, s.phase.path, h);
          NotFlushed(sys, s, spec, h, x);
        } else {
          OldRowMasked(sys, disk, w, m, s.phase.path, h, x);
        }
      }
    }
  }

  /** What was on disk before is not in the file the flush writes. */
  lemma NotFlushed(sys: Sys, s: State, spec: Spec, f: DataFile, x: Rec)
    requires Inv(sys, s, spec) && s.phase.Committed? && InFiles(sys, DiskOf(s), s.version, FromRow(x))
    requires s.queue != [] && NewFileOf(sys, DiskOf(s), s.queue[0], f)
    ensures !Shows(sys.codec, DiskOf(s), f, x)
  {
    hide SysOk, MemsSound, Tracks, Counted, FirstsAscend, CacheOk, CatalogOk, VersionOk, VersionOf, InVersion,
         NewFileOf,
         InMem, Layered, PhaseOk, InFiles, Shows, TopIn;
    TopIsIn(sys.env, MemAt(s, 1), FromRow(x));
    if InLayer(sys, s, 1, FromRow(x)) {
      FileOrMemory(sys, s, spec, 1, FromRow(x));
    } else if Shows(sys.codec, DiskOf(s), f, x) {
      ShownIsRow(sys.codec, DiskOf(s), f, x);
      NewRowIsTop(sys, DiskOf(s), MemAt(s, 1), f, x);
    }
  }

  lemma OldRowMasked(sys: Sys, disk: Disk, w: Version, m: Mem, path: DataPath, h: DataFile, x: Rec)
    requires MarksAll(sys, disk, w, m, path) && InVersion(w, h) && h.path != path && HasKey(sys.env, m, x.key.uk)
    ensures !Shows(sys.codec, disk, h, x)
  {
    hide InVersion, HasKey, Content;
    forall pos: nat | ShowsAt(sys.codec, disk, h, pos)
      ensures Content(disk, h).rows[pos] != x
    {
      assert Content(disk, h).rows[pos] == x ==> SupersededBy(sys, disk, m, h, pos);
    }
  }
}
