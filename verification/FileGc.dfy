/** Deleting obsolete files (`engine/engine.rs`: pins, pending deletions and
    the sweep).

    A reader pins the installed snapshot. A file is queued once a version
    without it is installed, together with the last snapshot that listed it. The
    sweep reads the smallest pinned snapshot, then locks the queue and deletes
    what lies below it and has waited for the grace period.
 */
module FileGc {
  import opened Wrappers
  import opened Table

  datatype Pending = Pending(path: DataPath, at: nat, after: nat)

  /** The watermark a sweep works with, and when it was read. */
  datatype Watermark = Watermark(min: Option<nat>, at: nat)

  /** `lists[s]` are the files of snapshot `s`; the last one is installed. Any
      number of sweeps may be under way, each with its own watermark. */
  datatype Engine = Engine(
    now: nat,
    lists: seq<set<DataPath>>,
    pins: map<nat, nat>,
    pending: seq<Pending>,
    deleted: set<DataPath>,
    sweeps: map<nat, Watermark>)

  predicate Lists(e: Engine, snapshot: nat, path: DataPath) {
    snapshot < |e.lists| && path in e.lists[snapshot]
  }

  /** `min_pinned_snapshot`. */
  predicate IsMin(pins: map<nat, nat>, min: Option<nat>) {
    match min
    case None => pins == map[]
    case Some(m) => m in pins && forall s :: s in pins ==> m <= s
  }

  predicate StillPinned(min: Option<nat>, entry: Pending) {
    min.Some? && min.value <= entry.after
  }

  predicate Deletes(min: Option<nat>, now: nat, grace: nat, entry: Pending) {
    !StillPinned(min, entry) && now - entry.at >= grace
  }

  function Remaining(pending: seq<Pending>, min: Option<nat>, now: nat, grace: nat): seq<Pending> {
    if pending == [] then []
    else if Deletes(min, now, grace, pending[0]) then Remaining(pending[1..], min, now, grace)
    else [pending[0]] + Remaining(pending[1..], min, now, grace)
  }

  function Removed(pending: seq<Pending>, min: Option<nat>, now: nat, grace: nat): set<DataPath> {
    set i | 0 <= i < |pending| && Deletes(min, now, grace, pending[i]) :: pending[i].path
  }

  lemma SweepStep(pending: seq<Pending>, i: nat, min: Option<nat>, now: nat, grace: nat)
    requires i < |pending|
    ensures Remaining(pending[i..], min, now, grace) ==
            (if Deletes(min, now, grace, pending[i]) then [] else [pending[i]]) +
              Remaining(pending[i + 1..], min, now, grace)
    ensures Removed(pending[..i + 1], min, now, grace) ==
            Removed(pending[..i], min, now, grace) +
              if Deletes(min, now, grace, pending[i]) then {pending[i].path} else {}
  {
    hide Deletes;
    assert pending[i..][1..] == pending[i + 1..];
    var a, b := pending[..i], pending[..i + 1];
    assert b[i] == pending[i] && forall k :: 0 <= k < i ==> a[k] == b[k];
  }

  /** Every snapshot from the watermark up is later than the last that listed the
      file, and the grace period is over. */
  predicate Due(min: Option<nat>, now: nat, grace: nat, entry: Pending) {
    (min.Some? ==> entry.after < min.value) && entry.at + grace <= now
  }

  /** `remaining` are the entries of `pending` at the positions `kept`, which
      ascend and are those of the entries that are not due. */
  ghost predicate Spares(pending: seq<Pending>, min: Option<nat>, now: nat, grace: nat, kept: seq<nat>,
                         remaining: seq<Pending>)
  {
    |kept| == |remaining| &&
    (forall i :: 0 <= i < |kept| ==> kept[i] < |pending| && remaining[i] == pending[kept[i]]) &&
    (forall i, j :: 0 <= i < j < |kept| ==> kept[i] < kept[j]) &&
    (forall k: nat :: k < |pending| ==> (k in kept <==> !Due(min, now, grace, pending[k])))
  }

  /** The paths removed are those of the entries that are due. */
  ghost predicate Clears(pending: seq<Pending>, min: Option<nat>, now: nat, grace: nat, removed: set<DataPath>) {
    forall p :: p in removed <==>
      exists k :: 0 <= k < |pending| && pending[k].path == p && Due(min, now, grace, pending[k])
  }

  /** The loop of `gc_pending_deletions` over the drained queue. */
  method Sweep(pending: seq<Pending>, min: Option<nat>, now: nat, grace: nat)
    returns (remaining: seq<Pending>, removed: set<DataPath>, ghost kept: seq<nat>)
    ensures remaining == Remaining(pending, min, now, grace) && removed == Removed(pending, min, now, grace)
    ensures Spares(pending, min, now, grace, kept, remaining) && Clears(pending, min, now, grace, removed)
  {
    hide Remaining, Removed, Spares, Clears;
    remaining, removed, kept := [], {}, [];
    assert pending[0..] == pending;
    NothingSwept(min, now, grace);
    for i := 0 to |pending|
      invariant remaining + Remaining(pending[i..], min, now, grace) == Remaining(pending, min, now, grace)
      invariant removed == Removed(pending[..i], min, now, grace)
      invariant Spares(pending[..i], min, now, grace, kept, remaining)
    {
      SweepStep(pending, i, min, now, grace);
      var entry := pending[i];
      SpareStep(pending, i, min, now, grace, kept, remaining);
      if min.Some? && min.value <= entry.after {
        remaining, kept := remaining + [entry], kept + [i];
        continue;
      }
      if now - entry.at >= grace {
        removed := removed + {entry.path};
      } else {
        remaining, kept := remaining + [entry], kept + [i];
      }
    }
    assert pending[|pending|..] == [] && pending[..|pending|] == pending;
    RemovedClears(pending, min, now, grace);
  }

  lemma SpareStep(pending: seq<Pending>, i: nat, min: Option<nat>, now: nat, grace: nat, kept: seq<nat>,
                  remaining: seq<Pending>)
    requires i < |pending| && Spares(pending[..i], min, now, grace, kept, remaining)
    ensures if Due(min, now, grace, pending[i]) then Spares(pending[..i + 1], min, now, grace, kept, remaining)
            else Spares(pending[..i + 1], min, now, grace, kept + [i], remaining + [pending[i]])
  {
    hide Due;
    var a, b := pending[..i], pending[..i + 1];
    assert |b| == i + 1 && b[i] == pending[i] && forall k :: 0 <= k < i ==> a[k] == b[k];
  }

  lemma RemovedClears(pending: seq<Pending>, min: Option<nat>, now: nat, grace: nat)
    ensures Clears(pending, min, now, grace, Removed(pending, min, now, grace))
  {
    forall p
      ensures p in Removed(pending, min, now, grace) <==>
              exists k :: 0 <= k < |pending| && pending[k].path == p && Due(min, now, grace, pending[k])
    {
    }
  }

  lemma NothingSwept(min: Option<nat>, now: nat, grace: nat)
    ensures Remaining([], min, now, grace) == [] && Removed([], min, now, grace) == {}
    ensures Spares([], min, now, grace, [], [])
  {
  }

  /** One more reader of a snapshot. */
  function Pinned(pins: map<nat, nat>, snapshot: nat): map<nat, nat> {
    pins[snapshot := (if snapshot in pins then pins[snapshot] else 0) + 1]
  }

  /** One reader less; the last one takes the snapshot out. */
  function Unpinned(pins: map<nat, nat>, snapshot: nat): map<nat, nat> {
    if snapshot !in pins then pins
    else if pins[snapshot] <= 1 then pins - {snapshot}
    else pins[snapshot := pins[snapshot] - 1]
  }

  /** A reader that comes and goes leaves no trace. */
  lemma PinUnpin(pins: map<nat, nat>, snapshot: nat)
    requires forall s :: s in pins ==> pins[s] > 0
    ensures Unpinned(Pinned(pins, snapshot), snapshot) == pins
    ensures forall s :: s in Pinned(pins, snapshot) ==> Pinned(pins, snapshot)[s] > 0
  {
  }

  // ── Steps ─────────────────────────────────────────────────────────────────

  datatype Step =
    | Tick(time: nat)
    | Install(files: set<DataPath>)
    | Pin
    | Unpin(snapshot: nat)
    | Enqueue(path: DataPath, after: nat)
    | ReadWatermark(sweep: nat, min: Option<nat>)
    | Collect(sweep: nat)

  ghost predicate Next(e: Engine, grace: nat, step: Step, f: Engine) {
    match step
    case Tick(time) => f == e.(now := e.now + time)
    case Install(files) => f == e.(lists := e.lists + [files])
    case Pin => e.lists != [] && f == e.(pins := Pinned(e.pins, |e.lists| - 1))
    case Unpin(s) => f == e.(pins := Unpinned(e.pins, s))
    case Enqueue(path, after) => f == e.(pending := e.pending + [Pending(path, e.now, after)])
    case ReadWatermark(id, min) => IsMin(e.pins, min) && f == e.(sweeps := e.sweeps[id := Watermark(min, e.now)])
    case Collect(id) =>
      id in e.sweeps &&
      var min := e.sweeps[id].min;
      f == e.(pending := Remaining(e.pending, min, e.now, grace),
              deleted := e.deleted + Removed(e.pending, min, e.now, grace), sweeps := e.sweeps - {id})
  }

  /** What committers promise: names are not reused once a file was obsolete,
      and a file is queued after a version without it is installed, with a
      snapshot at most `lag` older than the last that lists it. */
  ghost predicate Disciplined(e: Engine, step: Step, lag: nat) {
    match step
    case Install(files) => forall p :: p in files ==> !Obsolete(e, p)
    case Enqueue(path, after) =>
      e.lists != [] && path !in e.lists[|e.lists| - 1] && forall s: nat :: Lists(e, s, path) ==> s <= after + lag
    case _ => true
  }

  /** The path was listed once and is queued or deleted. */
  ghost predicate Obsolete(e: Engine, path: DataPath) {
    path in e.deleted || exists i :: 0 <= i < |e.pending| && e.pending[i].path == path
  }

  /** A sweep acts at most `delay` after it read its watermark. */
  ghost predicate Within(e: Engine, step: Step, delay: nat) {
    step.Collect? && step.sweep in e.sweeps ==> e.now - e.sweeps[step.sweep].at <= delay
  }

  /** A sweep acts before the grace period has passed since it read the pins, or
      on pins that have the same minimum still. */
  ghost predicate Prompt(e: Engine, grace: nat, step: Step) {
    step.Collect? && step.sweep in e.sweeps ==>
      e.now - e.sweeps[step.sweep].at < grace || IsMin(e.pins, e.sweeps[step.sweep].min)
  }

  /** No file of the installed or of a pinned version is gone. */
  ghost predicate Safe(e: Engine) {
    forall s: nat, p :: (s in e.pins || s == |e.lists| - 1) && Lists(e, s, p) ==> p !in e.deleted
  }

  ghost predicate EntryOk(e: Engine, entry: Pending) {
    entry.at <= e.now && e.lists != [] && entry.path !in e.lists[|e.lists| - 1] &&
    forall s: nat :: Lists(e, s, entry.path) ==> s <= entry.after
  }

  /** A snapshot pinned since a watermark was read lists no file that was
      already queued then. */
  ghost predicate WatermarksOk(e: Engine) {
    forall id, i, s: nat :: id in e.sweeps && 0 <= i < |e.pending| && s in e.pins ==>
      Covered(e, e.pending[i], s, e.sweeps[id])
  }

  ghost predicate Covered(e: Engine, entry: Pending, s: nat, w: Watermark) {
    entry.at < w.at && Lists(e, s, entry.path) ==> w.min.Some? && w.min.value <= s
  }

  ghost predicate PendingOk(e: Engine) {
    forall i :: 0 <= i < |e.pending| ==> EntryOk(e, e.pending[i])
  }

  ghost predicate PinsOk(e: Engine) {
    (forall s :: s in e.pins ==> s < |e.lists|) && (forall id :: id in e.sweeps ==> e.sweeps[id].at <= e.now)
  }

  ghost predicate Inv(e: Engine) {
    PinsOk(e) && PendingOk(e) && WatermarksOk(e) && Safe(e)
  }

  // ── Safety ────────────────────────────────────────────────────────────────

  lemma {:induction false} RemainingAre(pending: seq<Pending>, min: Option<nat>, now: nat, grace: nat)
    ensures forall x :: x in Remaining(pending, min, now, grace) ==> x in pending
  {
    if pending != [] { RemainingAre(pending[1..], min, now, grace); }
  }

  lemma PendingStep(e: Engine, grace: nat, step: Step, f: Engine)
    requires PendingOk(e) && Next(e, grace, step, f) && Disciplined(e, step, 0)
    ensures PendingOk(f)
  {
    hide Remaining, Removed;
    forall i | 0 <= i < |f.pending|
      ensures EntryOk(f, f.pending[i])
    {
      var entry := f.pending[i];
      assert entry in f.pending;
      if step.Collect? {
        RemainingAre(e.pending, e.sweeps[step.sweep].min, e.now, grace);
        var k :| 0 <= k < |e.pending| && e.pending[k] == entry;
        assert EntryOk(e, e.pending[k]);
        assert forall s: nat :: Lists(f, s, entry.path) ==> Lists(e, s, entry.path);
      } else if i < |e.pending| {
        assert EntryOk(e, e.pending[i]);
        if step.Install? {
          assert e.pending[i].path == entry.path && Obsolete(e, entry.path);
          assert entry.path !in step.files;
        }
        assert forall s: nat :: Lists(f, s, entry.path) ==> Lists(e, s, entry.path);
      } else {
        assert forall s: nat :: Lists(f, s, entry.path) ==> Lists(e, s, entry.path);
      }
    }
  }

  lemma WatermarkStep(e: Engine, grace: nat, step: Step, f: Engine)
    requires PinsOk(e) && PendingOk(e) && WatermarksOk(e) && Next(e, grace, step, f)
    ensures WatermarksOk(f)
  {
    hide Remaining, Removed;
    forall id, i, s: nat | id in f.sweeps && 0 <= i < |f.pending| && s in f.pins
      ensures Covered(f, f.pending[i], s, f.sweeps[id])
    {
      var entry := f.pending[i];
      assert entry in f.pending;
      if step.Collect? { RemainingAre(e.pending, e.sweeps[step.sweep].min, e.now, grace); }
      if entry in e.pending {
        var k :| 0 <= k < |e.pending| && e.pending[k] == entry;
        assert EntryOk(e, e.pending[k]);
        if id in e.sweeps && s in e.pins { assert Covered(e, e.pending[k], s, e.sweeps[id]); }
      }
    }
  }

  /** No entry the sweep deletes is listed where it matters. */
  lemma CollectIsSafe(e: Engine, grace: nat, id: nat, i: nat, s: nat)
    requires Inv(e) && id in e.sweeps && Prompt(e, grace, Collect(id)) && i < |e.pending|
    requires Deletes(e.sweeps[id].min, e.now, grace, e.pending[i]) && (s in e.pins || s == |e.lists| - 1)
    ensures !Lists(e, s, e.pending[i].path)
  {
    hide Safe;
    assert EntryOk(e, e.pending[i]);
    if s in e.pins { assert Covered(e, e.pending[i], s, e.sweeps[id]); }
  }

  lemma SafeStep(e: Engine, grace: nat, step: Step, f: Engine)
    requires Inv(e) && Next(e, grace, step, f) && Disciplined(e, step, 0) && Prompt(e, grace, step)
    ensures Safe(f)
  {
    hide Remaining, WatermarksOk, PendingOk, EntryOk;
    forall s: nat, p | (s in f.pins || s == |f.lists| - 1) && Lists(f, s, p)
      ensures p !in f.deleted
    {
      if step.Collect? {
        forall i | 0 <= i < |e.pending| && Deletes(e.sweeps[step.sweep].min, e.now, grace, e.pending[i])
          ensures e.pending[i].path != p
        {
          CollectIsSafe(e, grace, step.sweep, i, s);
        }
      } else if step.Install? && s == |e.lists| {
        assert !Obsolete(e, p);
      } else {
        assert Lists(e, s, p);
      }
    }
  }

  lemma StepKeepsInv(e: Engine, grace: nat, step: Step, f: Engine)
    requires Inv(e) && Next(e, grace, step, f) && Disciplined(e, step, 0) && Prompt(e, grace, step)
    ensures Inv(f)
  {
    hide Remaining, Removed, WatermarksOk, PendingOk, Safe, Disciplined, Prompt;
    PendingStep(e, grace, step, f);
    WatermarkStep(e, grace, step, f);
    SafeStep(e, grace, step, f);
  }

  const START: Engine := Engine(0, [{}], map[], [], {}, map[])

  ghost predicate IsRun(es: seq<Engine>, grace: nat, steps: seq<Step>) {
    |es| == |steps| + 1 && es[0] == START && forall i :: 0 <= i < |steps| ==> Next(es[i], grace, steps[i], es[i + 1])
  }

  /** In every run of disciplined committers and prompt sweeps, no file of the
      installed or of a pinned version is deleted. */
  lemma {:induction false} RunsAreSafe(es: seq<Engine>, grace: nat, steps: seq<Step>, i: nat)
    requires IsRun(es, grace, steps) && i < |es|
    requires forall k :: 0 <= k < |steps| ==> Disciplined(es[k], steps[k], 0) && Prompt(es[k], grace, steps[k])
    ensures Inv(es[i]) && Safe(es[i])
  {
    hide Next, Disciplined, Prompt;
    if i > 0 {
      RunsAreSafe(es, grace, steps, i - 1);
      StepKeepsInv(es[i - 1], grace, steps[i - 1], es[i]);
    }
  }

  // ── The engine's methods ──────────────────────────────────────────────────

  /** The part of the engine that pins snapshots and collects files. */
  class Collector {
    var now: nat
    var lists: seq<set<DataPath>>
    var pins: map<nat, nat>
    var pending: seq<Pending>
    var deleted: set<DataPath>
    var sweeps: map<nat, Watermark>

    function Value(): Engine
      reads this
    {
      Engine(now, lists, pins, pending, deleted, sweeps)
    }

    constructor ()
      ensures Value() == START && Inv(Value())
    {
      now, lists, pins, pending, deleted, sweeps := 0, [{}], map[], [], {}, map[];
    }

    /** `pin_current_snapshot`. */
    method Pin(ghost grace: nat) returns (snapshot: nat)
      requires Inv(Value()) && lists != []
      modifies this`pins
      ensures Next(old(Value()), grace, Step.Pin, Value()) && Inv(Value())
      ensures snapshot == |lists| - 1 && snapshot in pins
    {
      snapshot := |lists| - 1;
      ghost var before := Value();
      pins := pins[snapshot := (if snapshot in pins then pins[snapshot] else 0) + 1];
      StepKeepsInv(before, grace, Step.Pin, Value());
    }

    /** `SnapshotPin::drop`. */
    method Unpin(ghost grace: nat, snapshot: nat)
      requires Inv(Value())
      modifies this`pins
      ensures Next(old(Value()), grace, Step.Unpin(snapshot), Value()) && Inv(Value())
    {
      ghost var before := Value();
      if snapshot in pins {
        var count := if pins[snapshot] == 0 then 0 else pins[snapshot] - 1;
        pins := pins[snapshot := count];
        if count == 0 { pins := pins - {snapshot}; }
      }
      assert pins == Unpinned(before.pins, snapshot);
      StepKeepsInv(before, grace, Step.Unpin(snapshot), Value());
    }

    /** `enqueue_for_deletion`. */
    method Enqueue(ghost grace: nat, path: DataPath, after: nat)
      requires Inv(Value())
      modifies this`pending
      ensures Next(old(Value()), grace, Step.Enqueue(path, after), Value())
      ensures old(Disciplined(Value(), Step.Enqueue(path, after), 0)) ==> Inv(Value())
    {
      ghost var before := Value();
      pending := pending + [Pending(path, now, after)];
      if Disciplined(before, Step.Enqueue(path, after), 0) {
        StepKeepsInv(before, grace, Step.Enqueue(path, after), Value());
      }
    }

    /** `min_pinned_snapshot`. */
    method MinPinned() returns (min: Option<nat>)
      ensures IsMin(pins, min)
    {
      min := None;
      var todo := pins.Keys;
      while todo != {}
        invariant todo <= pins.Keys
        invariant min.None? ==> todo == pins.Keys
        invariant min.Some? ==> min.value in pins && forall s :: s in pins && s !in todo ==> min.value <= s
        decreases todo
      {
        var s :| s in todo;
        if min.None? || s < min.value { min := Some(s); }
        todo := todo - {s};
      }
    }

    /** No reader can need the file any more: every pinned snapshot is later than
        the last that listed it, and it has waited for the grace period. */
    predicate Collectable(entry: Pending, path: DataPath, grace: nat)
      reads this
    {
      entry.path == path && (forall s :: s in pins ==> s > entry.after) && entry.at + grace <= now
    }

    /** `gc_pending_deletions` when nothing runs between its two parts: the two
        steps of a sweep, after which every listed file is still there. */
    method GcPendingDeletions(id: nat, grace: nat)
      returns (min: Option<nat>, ghost reading: Engine, ghost kept: seq<nat>)
      requires Inv(Value()) && id !in sweeps
      modifies this`pending, this`deleted, this`sweeps
      ensures Next(old(Value()), grace, Step.ReadWatermark(id, min), reading)
      ensures Next(reading, grace, Step.Collect(id), Value())
      ensures Inv(Value()) && Safe(Value()) && sweeps == old(sweeps)
      ensures forall p :: p in deleted <==>
                p in old(deleted) || exists k :: 0 <= k < |old(pending)| && Collectable(old(pending)[k], p, grace)
      ensures |kept| == |pending| && forall i, j :: 0 <= i < j < |kept| ==> kept[i] < kept[j]
      ensures forall i :: 0 <= i < |kept| ==> kept[i] < |old(pending)| && pending[i] == old(pending)[kept[i]]
      ensures forall k: nat :: k < |old(pending)| ==>
                (k in kept <==> !Collectable(old(pending)[k], old(pending)[k].path, grace))
    {
      hide Safe, WatermarksOk, PendingOk, Remaining, Removed;
      ghost var before := Value();
      min := MinPinned();
      sweeps := sweeps[id := Watermark(min, now)];
      reading := Value();
      StepKeepsInv(before, grace, Step.ReadWatermark(id, min), reading);
      var remaining, removed, spared := Sweep(pending, min, now, grace);
      kept := spared;
      pending, deleted, sweeps := remaining, deleted + removed, sweeps - {id};
      assert reading.sweeps - {id} == before.sweeps;
      StepKeepsInv(reading, grace, Step.Collect(id), Value());
    }
  }

  // ── Without prompt sweeps or disciplined committers ───────────────────────

  const A: DataPath := DataPath("data/L0", "a")
  const B: DataPath := DataPath("data/L0", "b")
  const C: DataPath := DataPath("data/L1", "c")

  /** The watermark is read, then a reader pins, the file becomes obsolete and
      the grace period passes: the sweep deletes it under the reader. */
  function LateSweep(grace: nat): seq<Engine> {
    var e1 := START.(lists := [{}, {A}]);
    var e2 := e1.(sweeps := map[0 := Watermark(None, 0)]);
    var e3 := e2.(pins := map[1 := 1]);
    var e4 := e3.(lists := [{}, {A}, {}]);
    var e5 := e4.(pending := [Pending(A, 0, 1)]);
    var e6 := e5.(now := grace);
    [START, e1, e2, e3, e4, e5, e6, e6.(pending := [], deleted := {A}, sweeps := map[])]
  }

  function LateSteps(grace: nat): seq<Step> {
    [Install({A}), ReadWatermark(0, None), Pin, Install({}), Enqueue(A, 1), Tick(grace), Collect(0)]
  }

  /** The run keeps the committers' discipline; only the sweep is late, by
      exactly the grace period. */
  lemma LateSweepIsUnsafe(grace: nat)
    ensures RunWithin(LateSweep(grace), grace, LateSteps(grace), 0, grace)
    ensures !Safe(LateSweep(grace)[7])
  {
    var es, steps := LateSweep(grace), LateSteps(grace);
    assert Next(es[0], grace, steps[0], es[1]);
    assert Next(es[2], grace, steps[2], es[3]);
    assert Next(es[3], grace, steps[3], es[4]);
    OneDeleted(Pending(A, 0, 1), None, grace, grace);
    assert map[0 := Watermark(None, 0)] - {0} == map[];
    assert Next(es[6], grace, steps[6], es[7]);
    assert Lists(es[7], 1, A);
  }

  lemma OneDeleted(entry: Pending, min: Option<nat>, now: nat, grace: nat)
    requires Deletes(min, now, grace, entry)
    ensures Remaining([entry], min, now, grace) == [] && Removed([entry], min, now, grace) == {entry.path}
  {
    assert [entry][1..] == [];
    assert [entry][0] == entry;
  }

  /** A compaction based on snapshot 1 commits after a flush made snapshot 2,
      which still lists its input A. It queues A with snapshot 1; a reader of
      snapshot 2 does not hold it back. */
  function BaseSnapshot(grace: nat): seq<Engine> {
    var e1 := START.(lists := [{}, {A}]);
    var e2 := e1.(lists := [{}, {A}, {A, B}]);
    var e3 := e2.(pins := map[2 := 1]);
    var e4 := e3.(lists := [{}, {A}, {A, B}, {B, C}]);
    var e5 := e4.(pending := [Pending(A, 0, 1)]);
    var e6 := e5.(now := grace);
    var e7 := e6.(sweeps := map[0 := Watermark(Some(2), grace)]);
    [START, e1, e2, e3, e4, e5, e6, e7, e7.(pending := [], deleted := {A}, sweeps := map[])]
  }

  function BaseSteps(grace: nat): seq<Step> {
    [Install({A}), Install({A, B}), Pin, Install({B, C}), Enqueue(A, 1),
     Tick(grace), ReadWatermark(0, Some(2)), Collect(0)]
  }

  /** The sweep acts at once; only the recorded snapshot is one too old. */
  lemma BaseSnapshotIsUnsafe(grace: nat)
    ensures RunWithin(BaseSnapshot(grace), grace, BaseSteps(grace), 1, 0)
    ensures !Safe(BaseSnapshot(grace)[8])
  {
    var es, steps := BaseSnapshot(grace), BaseSteps(grace);
    BaseSnapshotSteps(grace);
    assert Lists(es[8], 2, A);
    assert Disciplined(es[0], steps[0], 1) && Disciplined(es[1], steps[1], 1) && Disciplined(es[3], steps[3], 1);
    assert Disciplined(es[4], steps[4], 1);
  }

  lemma BaseSnapshotSteps(grace: nat)
    ensures IsRun(BaseSnapshot(grace), grace, BaseSteps(grace))
  {
    var es, steps := BaseSnapshot(grace), BaseSteps(grace);
    assert Next(es[0], grace, steps[0], es[1]);
    assert Next(es[1], grace, steps[1], es[2]);
    assert Next(es[2], grace, steps[2], es[3]);
    assert Next(es[3], grace, steps[3], es[4]);
    OneDeleted(Pending(A, 0, 1), Some(2), grace, grace);
    assert map[0 := Watermark(Some(2), grace)] - {0} == map[];
    assert Next(es[7], grace, steps[7], es[8]);
  }

  // ── The conditions are sharp ──────────────────────────────────────────────

  ghost predicate RunWithin(es: seq<Engine>, grace: nat, steps: seq<Step>, lag: nat, delay: nat) {
    IsRun(es, grace, steps) &&
    forall k :: 0 <= k < |steps| ==> Disciplined(es[k], steps[k], lag) && Within(es[k], steps[k], delay)
  }

  ghost predicate AllSafe(es: seq<Engine>) {
    forall i :: 0 <= i < |es| ==> Safe(es[i])
  }

  /** All runs in which files are queued with a snapshot at most `lag` too old
      and sweeps act at most `delay` after reading the pins are safe if and only
      if no snapshot is too old and the delay is less than the grace period. */
  lemma SafetyIsSharp(grace: nat, lag: nat, delay: nat)
    ensures (forall es, steps :: RunWithin(es, grace, steps, lag, delay) ==> AllSafe(es)) <==> lag == 0 && delay < grace
  {
    hide Safe, Disciplined, Within, Next;
    if lag == 0 && delay < grace {
      forall es, steps | RunWithin(es, grace, steps, lag, delay)
        ensures AllSafe(es)
      {
        WithinIsSafe(es, grace, steps, delay);
      }
    } else if lag == 0 {
      LateSweepIsUnsafe(grace);
      Relax(LateSweep(grace), grace, LateSteps(grace), 0, grace, lag, delay);
      assert !AllSafe(LateSweep(grace));
    } else {
      BaseSnapshotIsUnsafe(grace);
      Relax(BaseSnapshot(grace), grace, BaseSteps(grace), 1, 0, lag, delay);
      assert !AllSafe(BaseSnapshot(grace));
    }
  }

  lemma WithinIsSafe(es: seq<Engine>, grace: nat, steps: seq<Step>, delay: nat)
    requires RunWithin(es, grace, steps, 0, delay) && delay < grace
    ensures AllSafe(es)
  {
    hide Safe, Disciplined, Next, Inv;
    forall i | 0 <= i < |es|
      ensures Safe(es[i])
    {
      RunsAreSafe(es, grace, steps, i);
    }
  }

  lemma Relax(es: seq<Engine>, grace: nat, steps: seq<Step>, lag: nat, delay: nat, lag': nat, delay': nat)
    requires RunWithin(es, grace, steps, lag, delay) && lag <= lag' && delay <= delay'
    ensures RunWithin(es, grace, steps, lag', delay')
  {
    hide Next;
    forall k | 0 <= k < |steps|
      ensures Disciplined(es[k], steps[k], lag') && Within(es[k], steps[k], delay')
    {
      assert Disciplined(es[k], steps[k], lag) && Within(es[k], steps[k], delay);
    }
  }
}
