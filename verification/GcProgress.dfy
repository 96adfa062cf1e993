/** What the file collector deletes over a whole run: exactly the files that were
    queued and then met a sweep late enough, with no reader in their way. */
module GcProgress {
  import opened Wrappers
  import opened Table
  import opened FileGc

  /** Step `c` is the second part of the sweep whose first part is step `r`. */
  ghost predicate SweepSpan(steps: seq<Step>, r: nat, c: nat) {
    r < c < |steps| && steps[r].ReadWatermark? && steps[c] == Collect(steps[r].sweep) &&
    forall k :: r < k < c ==> !Touches(steps[k], steps[r].sweep)
  }

  predicate Touches(step: Step, id: nat) {
    (step.ReadWatermark? || step.Collect?) && step.sweep == id
  }

  /** The file is queued in step `q`; when the sweep reads the pins, in step `r`,
      all are later than the last snapshot that listed it; and when it acts, in
      step `c`, the grace period is over. */
  ghost predicate CollectedBy(es: seq<Engine>, grace: nat, steps: seq<Step>, q: nat, r: nat, c: nat, path: DataPath)
    requires |es| == |steps| + 1
  {
    SweepSpan(steps, r, c) && q < c && steps[q].Enqueue? && steps[q].path == path &&
    (forall s :: s in es[r].pins ==> s > steps[q].after) && es[q].now + grace <= es[c].now
  }

  // ── Watermarks ────────────────────────────────────────────────────────────

  lemma {:induction false} WatermarkHeld(es: seq<Engine>, grace: nat, steps: seq<Step>, r: nat, k: nat)
    requires IsRun(es, grace, steps) && r < k <= |steps| && steps[r].ReadWatermark?
    requires forall l :: r < l < k ==> !Touches(steps[l], steps[r].sweep)
    ensures steps[r].sweep in es[k].sweeps && es[k].sweeps[steps[r].sweep] == Watermark(steps[r].min, es[r].now)
    ensures IsMin(es[r].pins, steps[r].min)
    decreases k
  {
    hide Remaining, Removed, IsMin;
    if k > r + 1 { WatermarkHeld(es, grace, steps, r, k - 1); }
    assert Next(es[k - 1], grace, steps[k - 1], es[k]);
  }

  lemma {:induction false} WatermarkRead(es: seq<Engine>, grace: nat, steps: seq<Step>, k: nat, id: nat)
    returns (r: nat)
    requires IsRun(es, grace, steps) && k < |es| && id in es[k].sweeps
    ensures r < k && steps[r].ReadWatermark? && steps[r].sweep == id
    ensures forall l :: r < l < k ==> !Touches(steps[l], id)
    decreases k
  {
    hide Remaining, Removed, IsMin;
    assert Next(es[k - 1], grace, steps[k - 1], es[k]);
    if steps[k - 1].ReadWatermark? && steps[k - 1].sweep == id {
      r := k - 1;
    } else {
      r := WatermarkRead(es, grace, steps, k - 1, id);
    }
  }

  // ── The queue ─────────────────────────────────────────────────────────────

  lemma {:induction false} RemainingIs(pending: seq<Pending>, min: Option<nat>, now: nat, grace: nat, x: Pending)
    ensures x in Remaining(pending, min, now, grace) <==> x in pending && !Due(min, now, grace, x)
  {
    if pending != [] {
      RemainingIs(pending[1..], min, now, grace, x);
      assert pending == [pending[0]] + pending[1..];
    }
  }

  /** What step `q` queues. */
  function Queued(es: seq<Engine>, steps: seq<Step>, q: nat): Pending
    requires |es| == |steps| + 1 && q < |steps| && steps[q].Enqueue?
  {
    Pending(steps[q].path, es[q].now, steps[q].after)
  }

  /** A queued entry waits until its file is deleted. */
  lemma {:induction false} WaitsOrGone(es: seq<Engine>, grace: nat, steps: seq<Step>, q: nat, k: nat)
    requires IsRun(es, grace, steps) && q < k < |es| && steps[q].Enqueue?
    ensures Queued(es, steps, q) in es[k].pending || steps[q].path in es[k].deleted
    decreases k
  {
    hide Remaining, Removed, Next;
    if k > q + 1 { WaitsOrGone(es, grace, steps, q, k - 1); }
    StepWaits(es[k - 1], grace, steps[k - 1], es[k], Queued(es, steps, q));
  }

  lemma StepWaits(e: Engine, grace: nat, step: Step, f: Engine, x: Pending)
    requires Next(e, grace, step, f)
    ensures x in e.pending ==> x in f.pending || x.path in f.deleted
    ensures step == Enqueue(x.path, x.after) && e.now == x.at ==> x in f.pending
    ensures e.deleted <= f.deleted
  {
    hide Remaining, Removed;
    if step.Collect? {
      var min := e.sweeps[step.sweep].min;
      RemainingIs(e.pending, min, e.now, grace, x);
      RemovedClears(e.pending, min, e.now, grace);
    }
  }

  lemma {:induction false} WasQueued(es: seq<Engine>, grace: nat, steps: seq<Step>, k: nat, x: Pending) returns (q: nat)
    requires IsRun(es, grace, steps) && k < |es| && x in es[k].pending
    ensures q < k && steps[q].Enqueue? && Queued(es, steps, q) == x
    decreases k
  {
    hide Remaining, Removed;
    assert Next(es[k - 1], grace, steps[k - 1], es[k]);
    if x in es[k - 1].pending {
      q := WasQueued(es, grace, steps, k - 1, x);
    } else {
      var e := es[k - 1];
      if steps[k - 1].Collect? { RemainingAre(e.pending, e.sweeps[steps[k - 1].sweep].min, e.now, grace); }
      q := k - 1;
    }
  }

  // ── What is deleted ───────────────────────────────────────────────────────

  lemma {:induction false} StaysDeleted(es: seq<Engine>, grace: nat, steps: seq<Step>, i: nat, j: nat)
    requires IsRun(es, grace, steps) && i <= j < |es|
    ensures es[i].deleted <= es[j].deleted
    decreases j
  {
    hide Remaining, Removed;
    if i < j {
      StaysDeleted(es, grace, steps, i, j - 1);
      assert Next(es[j - 1], grace, steps[j - 1], es[j]);
    }
  }

  /** The sweep has an entry of the file that is due. */
  ghost predicate DueIn(e: Engine, grace: nat, id: nat, path: DataPath) {
    id in e.sweeps &&
    exists k :: 0 <= k < |e.pending| && e.pending[k].path == path &&
                Due(e.sweeps[id].min, e.now, grace, e.pending[k])
  }

  lemma StepDeletes(e: Engine, grace: nat, step: Step, f: Engine, path: DataPath)
    requires Next(e, grace, step, f)
    ensures path in f.deleted <==> path in e.deleted || (step.Collect? && DueIn(e, grace, step.sweep, path))
  {
    hide Remaining, Removed, Due;
    if step.Collect? { RemovedClears(e.pending, e.sweeps[step.sweep].min, e.now, grace); }
  }

  /** A file that no pinned snapshot lists is deleted by any sweep that acts a
      grace period or more after it was queued. */
  lemma SweepCollects(es: seq<Engine>, grace: nat, steps: seq<Step>, q: nat, r: nat, c: nat, path: DataPath)
    requires IsRun(es, grace, steps) && CollectedBy(es, grace, steps, q, r, c, path)
    ensures path in es[c + 1].deleted
  {
    hide Remaining, Removed, Next;
    WaitsOrGone(es, grace, steps, q, c);
    WatermarkHeld(es, grace, steps, r, c);
    StepDeletes(es[c], grace, steps[c], es[c + 1], path);
    var x := Queued(es, steps, q);
    if x in es[c].pending {
      var k :| 0 <= k < |es[c].pending| && es[c].pending[k] == x;
      assert Due(steps[r].min, es[c].now, grace, es[c].pending[k]);
    }
  }

  /** ...and nothing else is. */
  lemma CollectedOnly(es: seq<Engine>, grace: nat, steps: seq<Step>, c: nat, path: DataPath)
    requires IsRun(es, grace, steps) && c < |steps| && path in es[c + 1].deleted && path !in es[c].deleted
    ensures exists q: nat, r: nat :: CollectedBy(es, grace, steps, q, r, c, path)
  {
    hide Remaining, Removed, Next;
    StepDeletes(es[c], grace, steps[c], es[c + 1], path);
    var id := steps[c].sweep;
    var k :| 0 <= k < |es[c].pending| && es[c].pending[k].path == path &&
      Due(es[c].sweeps[id].min, es[c].now, grace, es[c].pending[k]);
    var q := WasQueued(es, grace, steps, c, es[c].pending[k]);
    var r := WatermarkRead(es, grace, steps, c, id);
    WatermarkHeld(es, grace, steps, r, c);
    assert CollectedBy(es, grace, steps, q, r, c, path);
  }

  /** Over every run: the files deleted are exactly those that were queued and
      then met a sweep which read the pins when all were later than the last
      snapshot that listed the file, and acted when the grace period was over. */
  lemma {:induction false} DeletedIff(es: seq<Engine>, grace: nat, steps: seq<Step>, j: nat, path: DataPath)
    requires IsRun(es, grace, steps) && j < |es|
    ensures path in es[j].deleted <==>
            exists q: nat, r: nat, c: nat :: c < j && CollectedBy(es, grace, steps, q, r, c, path)
    decreases j
  {
    hide Next, CollectedBy;
    if j > 0 {
      DeletedIff(es, grace, steps, j - 1, path);
      if path in es[j].deleted && path !in es[j - 1].deleted { CollectedOnly(es, grace, steps, j - 1, path); }
    }
    if exists q: nat, r: nat, c: nat :: c < j && CollectedBy(es, grace, steps, q, r, c, path) {
      var q: nat, r: nat, c: nat :| c < j && CollectedBy(es, grace, steps, q, r, c, path);
      BeforeTheEnd(es, grace, steps, q, r, c, path);
      SweepCollects(es, grace, steps, q, r, c, path);
      StaysDeleted(es, grace, steps, c + 1, j);
    }
  }

  lemma BeforeTheEnd(es: seq<Engine>, grace: nat, steps: seq<Step>, q: nat, r: nat, c: nat, path: DataPath)
    requires |es| == |steps| + 1 && CollectedBy(es, grace, steps, q, r, c, path)
    ensures c < |steps|
  {
  }
}
