/** A batch on its way into the memtable, step by step
    (`engine/write_path.rs`, the section under the WAL lock).

    The batch reserves its sequence numbers, appends to the log, inserts its
    records one by one and then becomes visible. Readers run in between, and so
    do rotations, except between two inserts of one batch.
 */
module WritePath {
  import opened Wrappers
  import opened ByteStrings
  import opened Keys
  import opened Table
  import opened Memtable
  import opened Flush
  import opened EngineSteps
  import opened FlushCommit

  /** A batch that owns the sequence numbers from `base` on. */
  datatype Batch = Batch(base: nat, recs: seq<BatchRec>)

  /** The batch holding the lock, and how many of its records are in. */
  datatype Flight = Flight(batch: Batch, applied: nat)

  datatype World = World(
    active: Mem,
    queue: seq<Mem>,
    counter: nat,
    visible: nat,
    done: set<Batch>,
    flight: Option<Flight>)

  datatype Step =
    | Reserve(recs: seq<BatchRec>)
    | Abort
    | Insert
    | Publish
    | Rotate

  ghost predicate Next(sys: Sys, w: World, step: Step, x: World) {
    match step
    case Reserve(recs) =>
      w.flight.None? && recs != [] && w.counter + |recs| <= SEQNUM_MAX &&
      (forall i :: 0 <= i < |recs| ==> RecordOk(sys, recs[i])) &&
      x == w.(counter := w.counter + |recs|, flight := Some(Flight(Batch(w.counter, recs), 0)))
    case Abort => // the log refuses the batch
      w.flight.Some? && w.flight.value.applied == 0 && x == w.(flight := None)
    case Insert =>
      w.flight.Some? &&
      var (b, n) := (w.flight.value.batch, w.flight.value.applied);
      n < |b.recs| && b.base + n <= SEQNUM_MAX &&
      x == w.(active := w.active.(slots := Memtable.Insert(w.active.slots, SlotFor(b.recs[n], b.base + n)),
                                  lastSeq := if b.base + n > w.active.lastSeq then b.base + n else w.active.lastSeq),
              flight := Some(Flight(b, n + 1)))
    case Publish =>
      w.flight.Some? &&
      var b := w.flight.value.batch;
      w.flight.value.applied == |b.recs| && |b.recs| > 0 &&
      x == w.(visible := if b.base + |b.recs| - 1 > w.visible then b.base + |b.recs| - 1 else w.visible,
              done := w.done + {b}, flight := None)
    case Rotate =>
      (w.flight.Some? ==> w.flight.value.applied == 0 || w.flight.value.applied == |w.flight.value.batch.recs|) &&
      x == w.(queue := w.queue + [w.active.(sealed := true)], active := Memtable.Fresh(w.counter + 1))
  }

  // ── What is stored ────────────────────────────────────────────────────────

  ghost predicate Stored(sys: Sys, w: World, v: MemRec) {
    InMem(sys.env, w.active, v) || exists i :: 0 <= i < |w.queue| && InMem(sys.env, w.queue[i], v)
  }

  ghost predicate InBatch(b: Batch, n: nat, v: MemRec) {
    exists i :: 0 <= i < n && i < |b.recs| && v == VersionFor(b.recs[i], b.base + i)
  }

  ghost predicate InDone(w: World, v: MemRec) {
    exists b :: b in w.done && InBatch(b, |b.recs|, v)
  }

  ghost predicate InFlight(w: World, v: MemRec) {
    w.flight.Some? && InBatch(w.flight.value.batch, w.flight.value.applied, v)
  }

  ghost predicate Apart(a: Batch, b: Batch) {
    a.base + |a.recs| <= b.base || b.base + |b.recs| <= a.base
  }

  ghost predicate SeqsOk(w: World) {
    w.visible < w.counter <= SEQNUM_MAX &&
    (forall b :: b in w.done ==> b.base + |b.recs| <= w.visible + 1) &&
    (forall a, b :: a in w.done && b in w.done && a != b ==> Apart(a, b)) &&
    (w.flight.Some? ==>
      w.visible < w.flight.value.batch.base && w.flight.value.batch.base + |w.flight.value.batch.recs| <= w.counter &&
      w.flight.value.applied <= |w.flight.value.batch.recs|)
  }

  ghost predicate MemsOk(sys: Sys, w: World) {
    MemOk(sys.env, w.active) && (forall i :: 0 <= i < |w.queue| ==> MemOk(sys.env, w.queue[i])) &&
    (w.flight.Some? ==> forall i :: 0 <= i < |w.flight.value.batch.recs| ==>
      RecordOk(sys, w.flight.value.batch.recs[i]))
  }

  /** The memtables hold the completed batches and the inserted part of the
      running one. */
  ghost predicate Inv(sys: Sys, w: World) {
    SeqsOk(w) && MemsOk(sys, w) && forall v :: Stored(sys, w, v) <==> InDone(w, v) || InFlight(w, v)
  }

  // ── Consequences ──────────────────────────────────────────────────────────

  /** A reader at the visible sequence number sees exactly the completed
      batches, so no part of the running one. */
  lemma VisibleIsCompleted(sys: Sys, w: World, v: MemRec)
    requires Inv(sys, w)
    ensures Stored(sys, w, v) && v.key.seqno <= w.visible <==> InDone(w, v)
  {
    hide Stored, MemsOk;
    if InDone(w, v) {
      var b :| b in w.done && InBatch(b, |b.recs|, v);
    }
  }

  /** No two stored records share a sequence number. */
  lemma SeqsUnique(sys: Sys, w: World, u: MemRec, v: MemRec)
    requires Inv(sys, w) && Stored(sys, w, u) && Stored(sys, w, v) && u.key.seqno == v.key.seqno
    ensures u == v
  {
    hide Stored, MemsOk;
    VisibleIsCompleted(sys, w, u);
    VisibleIsCompleted(sys, w, v);
    if InDone(w, u) {
      var a :| a in w.done && InBatch(a, |a.recs|, u);
      var b :| b in w.done && InBatch(b, |b.recs|, v);
      assert a != b ==> Apart(a, b);
    }
  }

  /** The record inserted next replaces nothing. */
  lemma InsertIsNew(sys: Sys, w: World)
    requires Inv(sys, w) && w.flight.Some? && w.flight.value.applied < |w.flight.value.batch.recs|
    ensures forall v :: Stored(sys, w, v) ==> v.key.seqno < w.flight.value.batch.base + w.flight.value.applied
  {
    hide Stored, MemsOk;
    forall v | Stored(sys, w, v)
      ensures v.key.seqno < w.flight.value.batch.base + w.flight.value.applied
    {
      if InDone(w, v) { VisibleIsCompleted(sys, w, v); }
    }
  }

  // ── Every step keeps it ───────────────────────────────────────────────────

  lemma BatchGrows(b: Batch, n: nat, v: MemRec)
    requires n < |b.recs|
    ensures InBatch(b, n + 1, v) <==> InBatch(b, n, v) || v == VersionFor(b.recs[n], b.base + n)
  {
  }

  lemma InsertStep(sys: Sys, w: World, x: World)
    requires Inv(sys, w) && Next(sys, w, Insert, x)
    ensures Inv(sys, x)
  {
    hide RecordOk, Memtable.Insert, InMem, SlotFor, IsUserKey;
    var (b, n) := (w.flight.value.batch, w.flight.value.applied);
    InsertIsNew(sys, w);
    assert RecordOk(sys, b.recs[n]);
    forall v
      ensures InMem(sys.env, x.active, v) <==> InMem(sys.env, w.active, v) || v == VersionFor(b.recs[n], b.base + n)
      ensures MemOk(sys.env, x.active)
    {
      InsertOne(sys, w.active, x.active, b.recs[n], b.base + n, v);
    }
    InsertOne(sys, w.active, x.active, b.recs[n], b.base + n, VersionFor(b.recs[n], b.base + n));
    forall v
      ensures Stored(sys, x, v) <==> InDone(x, v) || InFlight(x, v)
    {
      BatchGrows(b, n, v);
      assert Stored(sys, w, v) <==> InDone(w, v) || InFlight(w, v);
      assert InDone(x, v) == InDone(w, v);
    }
  }

  lemma InsertOne(sys: Sys, m: Mem, m': Mem, rec: BatchRec, seqno: nat, v: MemRec)
    requires MemOk(sys.env, m) && RecordOk(sys, rec) && seqno < SEQNUM_MAX
    requires forall u :: InMem(sys.env, m, u) ==> u.key.seqno < seqno
    requires m'.slots == Memtable.Insert(m.slots, SlotFor(rec, seqno))
    ensures MemOk(sys.env, m') && (InMem(sys.env, m', v) <==> InMem(sys.env, m, v) || v == VersionFor(rec, seqno))
  {
    hide Memtable.Insert, IsUserKey, SeqOf, UserKeyOf, EncodeIkey, Less, Tag;
    var slot := SlotFor(rec, seqno);
    SlotForOk(sys.env, rec, seqno);
    assert SeqOf(slot.key) == seqno;
    SlotsBelow(sys, m, seqno);
    InsertValid(sys.env, m.slots, slot);
    InMemAfterInsert(sys.env, m, m', slot, v);
  }

  lemma SlotsBelow(sys: Sys, m: Mem, seqno: nat)
    requires MemOk(sys.env, m) && forall u :: InMem(sys.env, m, u) ==> u.key.seqno < seqno
    ensures SeqsBelow(sys.env, m.slots, seqno)
  {
    hide IsUserKey, SeqOf, UserKeyOf, EncodeIkey, Less;
    var recs := Recs(sys.env, m.slots);
    forall i | 0 <= i < |m.slots|
      ensures SlotOk(sys.env, m.slots[i]) && SeqOf(m.slots[i].key) < seqno
    {
      assert recs[i] in recs && InMem(sys.env, m, Canon(recs[i]));
    }
  }

  lemma RotateStep(sys: Sys, w: World, x: World)
    requires Inv(sys, w) && Next(sys, w, Rotate, x)
    ensures Inv(sys, x)
  {
    hide InMem, MemOk, RecordOk;
    EmptyMem(sys.env, w.counter + 1);
    SoundIsOk(sys.env, x.active);
    SealedMem(sys.env, w.active);
    forall v
      ensures Stored(sys, x, v) <==> Stored(sys, w, v)
    {
      if Stored(sys, w, v) {
        if InMem(sys.env, w.active, v) {
          assert InMem(sys.env, x.queue[|w.queue|], v);
        } else {
          var i :| 0 <= i < |w.queue| && InMem(sys.env, w.queue[i], v);
          assert InMem(sys.env, x.queue[i], v);
        }
      }
      if Stored(sys, x, v) {
        var i :| 0 <= i < |x.queue| && InMem(sys.env, x.queue[i], v);
        assert i < |w.queue| ==> x.queue[i] == w.queue[i];
      }
    }
    forall v
      ensures InDone(x, v) == InDone(w, v) && InFlight(x, v) == InFlight(w, v)
    {
    }
  }

  lemma SealedMem(env: Env, m: Mem)
    ensures MemOk(env, m.(sealed := true)) == MemOk(env, m)
    ensures forall v :: InMem(env, m.(sealed := true), v) <==> InMem(env, m, v)
  {
    SealedSame(env, m);
  }

  lemma PublishStep(sys: Sys, w: World, x: World)
    requires Inv(sys, w) && Next(sys, w, Publish, x)
    ensures Inv(sys, x)
  {
    hide InMem, MemOk, RecordOk, InBatch;
    var b := w.flight.value.batch;
    forall v
      ensures Stored(sys, x, v) == Stored(sys, w, v)
      ensures InDone(x, v) <==> InDone(w, v) || InFlight(w, v)
    {
      if InDone(w, v) {
        var a :| a in w.done && InBatch(a, |a.recs|, v);
        assert a in x.done;
      }
      if InFlight(w, v) { assert b in x.done; }
    }
    forall a, c | a in x.done && c in x.done && a != c
      ensures Apart(a, c)
    {
    }
  }

  lemma ReserveStep(sys: Sys, w: World, step: Step, x: World)
    requires Inv(sys, w) && (step.Reserve? || step.Abort?) && Next(sys, w, step, x)
    ensures Inv(sys, x)
  {
    hide InMem, MemOk, RecordOk;
    forall v
      ensures Stored(sys, x, v) == Stored(sys, w, v) && InDone(x, v) == InDone(w, v) &&
              InFlight(x, v) == InFlight(w, v) == false
    {
    }
  }

  lemma StepKeepsInv(sys: Sys, w: World, step: Step, x: World)
    requires Inv(sys, w) && Next(sys, w, step, x)
    ensures Inv(sys, x)
  {
    hide Inv, Next;
    match step
    case Insert => InsertStep(sys, w, x);
    case Publish => PublishStep(sys, w, x);
    case Rotate => RotateStep(sys, w, x);
    case _ => ReserveStep(sys, w, step, x);
  }

  function Start(init: nat): World
    requires init >= 1
  {
    World(Memtable.Fresh(init), [], init, init - 1, {}, None)
  }

  ghost predicate IsRun(sys: Sys, ws: seq<World>, steps: seq<Step>, init: nat) {
    |ws| == |steps| + 1 && 1 <= init <= SEQNUM_MAX && ws[0] == Start(init) &&
    forall i :: 0 <= i < |steps| ==> Next(sys, ws[i], steps[i], ws[i + 1])
  }

  /** At every micro-step of every run: stored records have different sequence
      numbers, and those a reader sees are exactly the completed batches. */
  lemma {:induction false} BatchesAreAtomic(sys: Sys, ws: seq<World>, steps: seq<Step>, init: nat, i: nat)
    requires IsRun(sys, ws, steps, init) && i < |ws|
    ensures Inv(sys, ws[i])
    ensures forall v :: Stored(sys, ws[i], v) && v.key.seqno <= ws[i].visible <==> InDone(ws[i], v)
    ensures forall u, v :: Stored(sys, ws[i], u) && Stored(sys, ws[i], v) && u.key.seqno == v.key.seqno ==> u == v
  {
    hide Inv, Next, Stored, InDone;
    if i > 0 {
      BatchesAreAtomic(sys, ws, steps, init, i - 1);
      StepKeepsInv(sys, ws[i - 1], steps[i - 1], ws[i]);
    } else {
      StartInv(sys, init);
    }
    forall v
      ensures Stored(sys, ws[i], v) && v.key.seqno <= ws[i].visible <==> InDone(ws[i], v)
    {
      VisibleIsCompleted(sys, ws[i], v);
    }
    forall u, v | Stored(sys, ws[i], u) && Stored(sys, ws[i], v) && u.key.seqno == v.key.seqno
      ensures u == v
    {
      SeqsUnique(sys, ws[i], u, v);
    }
  }

  lemma StartInv(sys: Sys, init: nat)
    requires 1 <= init <= SEQNUM_MAX
    ensures Inv(sys, Start(init))
  {
    hide InMem;
    EmptyMem(sys.env, init);
    SoundIsOk(sys.env, Memtable.Fresh(init));
  }

  // ── Labels ────────────────────────────────────────────────────────────────

  /** A rotation between a batch's reservation and its inserts labels the new
      memtable past the batch. If no further batch comes before the next
      rotation, that gives out the same label again, although the memtable is
      not empty. */
  lemma LabelGivenTwice(sys: Sys, w: World, rec: BatchRec) returns (ws: seq<World>)
    requires Inv(sys, w) && w.flight.None? && w.counter < SEQNUM_MAX && RecordOk(sys, rec)
    ensures |ws| == 6 && ws[0] == w && Next(sys, ws[0], Reserve([rec]), ws[1]) && Next(sys, ws[1], Rotate, ws[2])
    ensures Next(sys, ws[2], Insert, ws[3]) && Next(sys, ws[3], Publish, ws[4]) && Next(sys, ws[4], Rotate, ws[5])
    ensures ws[4].active.slots != [] && |ws[5].queue| > 0 &&
            ws[5].queue[|ws[5].queue| - 1].firstSeq == ws[5].active.firstSeq
  {
    var b := Batch(w.counter, [rec]);
    var w1 := w.(counter := w.counter + 1, flight := Some(Flight(b, 0)));
    var w2 := w1.(queue := w1.queue + [w1.active.(sealed := true)], active := Memtable.Fresh(w.counter + 2));
    var w3 := w2.(active := w2.active.(slots := Memtable.Insert([], SlotFor(rec, w.counter))),
      flight := Some(Flight(b, 1)));
    var w4 := w3.(visible := w.counter, done := w3.done + {b}, flight := None);
    var w5 := w4.(queue := w4.queue + [w4.active.(sealed := true)], active := Memtable.Fresh(w.counter + 2));
    ws := [w, w1, w2, w3, w4, w5];
  }
}
