/** A promise the engine does not keep in every run, with the exact condition
    under which it does.

    A manual `flush()` rotates even an empty memtable. Two memtables can then
    carry the same first sequence number, and dropping one drops both.
 */
module Hazards {
  import opened Keys
  import opened Memtable
  import opened Catalog
  import opened LiveFiles
  import opened Flush
  import opened FlushCommit
  import opened EngineState
  import opened EngineSteps

  // ── Rotating an empty memtable ────────────────────────────────────────────

  ghost predicate LabelsAscend(s: State) {
    forall j, k :: 1 <= j < k <= Layers(s) ==> FirstAt(s, j) < FirstAt(s, k)
  }

  /** A rotation gives a new label if and only if something was written since
      the active memtable got its own. */
  lemma RotationLabels(s: State)
    requires LabelsAscend(s)
    ensures LabelsAscend(Rotated(s)) <==> s.active.firstSeq <= s.counter
  {
    var t := Rotated(s);
    forall k | 1 <= k <= Layers(s)
      ensures FirstAt(t, k) == FirstAt(s, k)
    {
    }
    assert FirstAt(t, Layers(t)) == s.counter + 1;
    if s.active.firstSeq <= s.counter {
      forall j, k | 1 <= j < k <= Layers(t)
        ensures FirstAt(t, j) < FirstAt(t, k)
      {
        assert j < Layers(s) ==> FirstAt(s, j) < FirstAt(s, Layers(s));
      }
    } else {
      assert !(FirstAt(t, Layers(s)) < FirstAt(t, Layers(t)));
    }
  }

  /** Flushing an empty memtable: nothing is written, it is only dropped. */
  function DropEmpty(s: State): State
    requires s.queue != []
  {
    s.(queue := Retain(s.queue, s.queue[0].firstSeq))
  }

  lemma RetainNone(a: Mem, b: Mem)
    requires a.firstSeq == b.firstSeq
    ensures Retain([a, b], a.firstSeq) == []
  {
    assert Retain([b], a.firstSeq) == Retain([], a.firstSeq) by {
      assert [b][1..] == [];
    }
    assert [a, b][1..] == [b];
  }

  /** A write lost: rotate a memtable that nothing was written to, write,
      rotate, and let the flush of the empty memtable run. */
  lemma EmptyRotationLosesWrites(sys: Sys, s: State, spec: Spec, rec: BatchRec)
    requires Inv(sys, s, spec) && s.queue == [] && s.active.slots == [] && s.active.firstSeq == s.counter + 1
    requires s.counter < SEQNUM_MAX && RecordOk(sys, rec)
    ensures var t := Rotated(WriteOne(Rotated(s), rec));
            t.queue != [] && t.queue[0].slots == [] &&
            InState(sys, t, VersionFor(rec, s.counter)) && !InState(sys, DropEmpty(t), VersionFor(rec, s.counter))
  {
    hide InFiles, InMem, SysOk, CatalogOk, VersionOk, CacheOk, PhaseOk, Tracks, MemSound, Insert, RecordOk;
    var v, r := VersionFor(rec, s.counter), Rotated(s);
    var w := WriteOne(r, rec);
    var t := Rotated(w);
    RotateSound(sys, s);
    RotateLayered(sys, s);
    forall k: nat
      ensures InLayer(sys, t, k, v) <==> InLayer(sys, r, k, v) || k == Layers(r)
    {
      WriteLayers(sys, r, rec, k, v);
      RotateLayers(sys, w, k, v);
    }
    assert InLayer(sys, t, Layers(r), v);
    var u := DropEmpty(t);
    assert t.queue == [s.active.(sealed := true), w.active.(sealed := true)];
    RetainNone(t.queue[0], t.queue[1]);
    FilesCounted(sys, s);
    forall k: nat
      ensures !InLayer(sys, u, k, v)
    {
      if k == 0 {
        assert InLayer(sys, u, 0, v) == InLayer(sys, s, 0, v);
      } else if k == 1 {
        EmptyMem(sys.env, w.counter + 1);
      }
    }
  }
}
