/** Which stored rows a flush supersedes (`engine/dv_resolve.rs`).

    For every live file the resolver merges the sorted keys of the memtable
    with the keys streamed from the file and collects the positions that match
    and are not masked yet.
 */
module DvResolve {
  import opened Wrappers
  import opened ByteStrings
  import opened Table
  import opened Sst
  import opened KeyRange
  import opened DeletionVector
  import opened Manifest
  import opened Versions
  import opened Catalog
  import opened LiveFiles

  ghost predicate KeysAscend(keys: seq<bytes>) {
    forall i, j :: 0 <= i < j < |keys| ==> Less(keys[i], keys[j])
  }

  /** Positions of the streamed rows whose key is in the list. */
  function Matches(ys: seq<(bytes, nat)>, keys: seq<bytes>): set<nat> {
    set i | 0 <= i < |ys| && ys[i].0 in keys :: ys[i].1
  }

  /** `file_overlaps_memtable`. */
  predicate Overlaps(meta: FileMeta, lo: bytes, hi: bytes) {
    meta.keyMin != [] && meta.keyMax != [] && !(Less(meta.keyMax, lo) || Less(hi, meta.keyMin))
  }

  function Max(a: bytes, b: bytes): bytes {
    if Less(b, a) then a else b
  }

  function Min(a: bytes, b: bytes): bytes {
    if Less(b, a) then b else a
  }

  /** The window searched in a file. */
  function Lower(meta: FileMeta, keys: seq<bytes>): bytes
    requires keys != []
  {
    Max(keys[0], meta.keyMin)
  }

  function Upper(meta: FileMeta, keys: seq<bytes>): bytes
    requires keys != []
  {
    Min(keys[|keys| - 1], meta.keyMax)
  }

  ghost predicate InBoth(meta: FileMeta, lo: bytes, hi: bytes, uk: bytes) {
    AtMost(lo, uk) && AtMost(uk, hi) && AtMost(meta.keyMin, uk) && AtMost(uk, meta.keyMax)
  }

  /** The window is what the memtable's and the file's key ranges have in common. */
  lemma WindowIs(meta: FileMeta, keys: seq<bytes>, uk: bytes)
    requires keys != []
    ensures InWindow(uk, Lower(meta, keys), Upper(meta, keys)) <==> InBoth(meta, keys[0], keys[|keys| - 1], uk)
  {
    hide Less, AtMost;
    AboveBoth(keys[0], meta.keyMin, uk);
    BelowBoth(uk, keys[|keys| - 1], meta.keyMax);
  }

  lemma AboveBoth(a: bytes, b: bytes, c: bytes)
    ensures AtMost(Max(a, b), c) <==> AtMost(a, c) && AtMost(b, c)
  {
    var m := Max(a, b);
    LessIrreflexive(m);
    if Less(b, a) { LessAsymmetric(b, a); }
    hide Less;
    if AtMost(m, c) {
      AtMostTransitive(a, m, c);
      AtMostTransitive(b, m, c);
    }
  }

  lemma BelowBoth(a: bytes, b: bytes, c: bytes)
    ensures AtMost(a, Min(b, c)) <==> AtMost(a, b) && AtMost(a, c)
  {
    var m := Min(b, c);
    LessIrreflexive(m);
    if Less(c, b) { LessAsymmetric(c, b); }
    hide Less;
    if AtMost(a, m) {
      AtMostTransitive(a, m, b);
      AtMostTransitive(a, m, c);
    }
  }

  /** A file is searched if and only if its bounds are not empty and its key range
      has something in common with the memtable's. */
  lemma OverlapsIff(meta: FileMeta, lo: bytes, hi: bytes)
    requires AtMost(lo, hi) && AtMost(meta.keyMin, meta.keyMax)
    ensures Overlaps(meta, lo, hi) <==>
            meta.keyMin != [] && meta.keyMax != [] && exists uk :: InBoth(meta, lo, hi, uk)
  {
    hide Less;
    if Overlaps(meta, lo, hi) {
      LessIrreflexive(lo);
      LessIrreflexive(meta.keyMin);
      if Less(lo, meta.keyMin) {
        LessAsymmetric(lo, meta.keyMin);
        assert InBoth(meta, lo, hi, meta.keyMin);
      } else {
        assert InBoth(meta, lo, hi, lo);
      }
    }
    if exists uk :: InBoth(meta, lo, hi, uk) {
      var uk :| InBoth(meta, lo, hi, uk);
      AtMostTransitive(lo, uk, meta.keyMax);
      AtMostTransitive(meta.keyMin, uk, hi);
    }
  }

  // ── One file ──────────────────────────────────────────────────────────────

  /** `partition_point` for the keys below `lo`. */
  method FirstNotBelow(keys: seq<bytes>, lo: bytes) returns (m: nat)
    requires KeysAscend(keys)
    ensures m <= |keys|
    ensures forall i :: 0 <= i < m ==> Less(keys[i], lo)
    ensures forall i :: m <= i < |keys| ==> !Less(keys[i], lo)
  {
    hide Less;
    var hi := |keys|;
    m := 0;
    while m < hi
      invariant 0 <= m <= hi <= |keys|
      invariant forall i :: 0 <= i < m ==> Less(keys[i], lo)
      invariant forall i :: hi <= i < |keys| ==> !Less(keys[i], lo)
    {
      var mid := (m + hi) / 2;
      SplitsAt(keys, mid, lo);
      if Less(keys[mid], lo) { m := mid + 1; } else { hi := mid; }
    }
  }

  lemma SplitsAt(keys: seq<bytes>, mid: nat, lo: bytes)
    requires KeysAscend(keys) && mid < |keys|
    ensures Less(keys[mid], lo) ==> forall i :: 0 <= i <= mid ==> Less(keys[i], lo)
    ensures !Less(keys[mid], lo) ==> forall i :: mid <= i < |keys| ==> !Less(keys[i], lo)
  {
    forall i | 0 <= i < |keys|
      ensures i < mid && Less(keys[mid], lo) ==> Less(keys[i], lo)
      ensures mid < i && !Less(keys[mid], lo) ==> !Less(keys[i], lo)
    {
      if i < mid && Less(keys[mid], lo) { LessTransitive(keys[i], keys[mid], lo); }
      if mid < i && Less(keys[i], lo) { LessTransitive(keys[mid], keys[i], lo); }
    }
  }

  /** The keys before `m` are all below `uk`. */
  ghost predicate Passed(keys: seq<bytes>, m: nat, uk: bytes)
    requires m <= |keys|
  {
    forall i :: 0 <= i < m ==> Less(keys[i], uk)
  }

  /** Advances the cursor past the keys below `uk`. */
  method Advance(keys: seq<bytes>, start: nat, uk: bytes) returns (m: nat)
    requires KeysAscend(keys) && start <= |keys| && Passed(keys, start, uk)
    ensures start <= m <= |keys| && Passed(keys, m, uk)
    ensures m < |keys| ==> !Less(keys[m], uk)
    ensures uk in keys <==> m < |keys| && keys[m] == uk
  {
    hide Less;
    m := start;
    while m < |keys| && Less(keys[m], uk)
      invariant start <= m <= |keys| && Passed(keys, m, uk)
    {
      m := m + 1;
    }
    forall i | 0 <= i < |keys|
      ensures i < m ==> keys[i] != uk
      ensures i > m ==> keys[i] != uk
    {
      LessIrreflexive(uk);
      if i > m { AtMostLess(uk, keys[m]); }
    }
  }

  lemma MatchesStep(ys: seq<(bytes, nat)>, n: nat, keys: seq<bytes>)
    requires n < |ys|
    ensures Matches(ys[..n + 1], keys) == Matches(ys[..n], keys) + if ys[n].0 in keys then {ys[n].1} else {}
    ensures ys[n].0 in keys ==> ys[n].1 in Matches(ys, keys)
  {
    var a, b := ys[..n], ys[..n + 1];
    assert forall i :: 0 <= i < n ==> a[i] == b[i];
    assert b[n] == ys[n];
  }

  /** The bitmap holds what the first `n` streamed rows contribute. */
  ghost predicate Collected(ys: seq<(bytes, nat)>, n: nat, keys: seq<bytes>, existing: Bitmap, bitmap: Bitmap)
    requires n <= |ys|
  {
    (forall p :: p in Matches(ys[..n], keys) ==> p < U32) && bitmap == Matches(ys[..n], keys) - existing
  }

  lemma CollectedNone(ys: seq<(bytes, nat)>, keys: seq<bytes>, existing: Bitmap)
    ensures Collected(ys, 0, keys, existing, {})
  {
    assert Matches(ys[..0], keys) == {};
  }

  lemma CollectedAll(ys: seq<(bytes, nat)>, n: nat, keys: seq<bytes>, existing: Bitmap, bitmap: Bitmap)
    requires n <= |ys| && Collected(ys, n, keys, existing, bitmap)
    requires n == |ys| || Matches(ys[..n], keys) == Matches(ys, keys)
    ensures (forall p :: p in Matches(ys, keys) ==> p < U32) && bitmap == Matches(ys, keys) - existing
  {
    hide Matches;
    assert n == |ys| ==> ys[..n] == ys;
  }

  lemma CollectedStep(ys: seq<(bytes, nat)>, n: nat, keys: seq<bytes>, existing: Bitmap, bitmap: Bitmap)
    requires n < |ys| && Collected(ys, n, keys, existing, bitmap)
    ensures ys[n].0 !in keys ==> Collected(ys, n + 1, keys, existing, bitmap)
    ensures ys[n].0 in keys && ys[n].1 < U32 ==>
              Collected(ys, n + 1, keys, existing, if ys[n].1 in existing then bitmap else bitmap + {ys[n].1})
    ensures ys[n].0 in keys ==> ys[n].1 in Matches(ys, keys)
  {
    MatchesStep(ys, n, keys);
    hide Matches;
  }

  /** Streamed keys do not descend. */
  lemma KeysRise(f: File, ys: seq<(bytes, nat)>, lo: bytes, hi: bytes, i: nat, j: nat)
    requires FileOk(f) && Rising(f, ys, 0, |f.rows|, lo, hi) && i <= j < |ys|
    ensures AtMost(ys[i].0, ys[j].0)
  {
    assert IsRow(f, ys[i]) && IsRow(f, ys[j]);
    SortedUserKeys(f.rows, ys[i].1, ys[j].1);
  }

  /** Once every key is below the current row, no later row matches. */
  lemma ExhaustedMeansDone(f: File, ys: seq<(bytes, nat)>, n: nat, lo: bytes, hi: bytes, keys: seq<bytes>)
    requires FileOk(f) && Rising(f, ys, 0, |f.rows|, lo, hi) && n < |ys| && Passed(keys, |keys|, ys[n].0)
    ensures Matches(ys[..n], keys) == Matches(ys, keys)
  {
    hide Less, Rising, FileOk;
    forall i | n <= i < |ys|
      ensures ys[i].0 !in keys
    {
      KeysRise(f, ys, lo, hi, n, i);
      forall k | 0 <= k < |keys|
        ensures keys[k] != ys[i].0
      {
        LessAtMost(keys[k], ys[n].0, ys[i].0);
        LessIrreflexive(keys[k]);
      }
    }
    assert forall i :: 0 <= i < n ==> ys[..n][i] == ys[i];
  }

  lemma PassedOn(f: File, ys: seq<(bytes, nat)>, n: nat, lo: bytes, hi: bytes, keys: seq<bytes>, m: nat)
    requires FileOk(f) && Rising(f, ys, 0, |f.rows|, lo, hi) && n + 1 < |ys| && m <= |keys| && Passed(keys, m, ys[n].0)
    ensures Passed(keys, m, ys[n + 1].0)
  {
    hide Less, Rising, FileOk;
    KeysRise(f, ys, lo, hi, n, n + 1);
    forall i | 0 <= i < m
      ensures Less(keys[i], ys[n + 1].0)
    {
      LessAtMost(keys[i], ys[n].0, ys[n + 1].0);
    }
  }

  lemma PassedFirst(f: File, ys: seq<(bytes, nat)>, lo: bytes, hi: bytes, keys: seq<bytes>, m: nat)
    requires Rising(f, ys, 0, |f.rows|, lo, hi) && ys != [] && m <= |keys|
    requires forall i :: 0 <= i < m ==> Less(keys[i], lo)
    ensures Passed(keys, m, ys[0].0)
  {
    hide Less;
    forall i | 0 <= i < m
      ensures Less(keys[i], ys[0].0)
    {
      LessAtMost(keys[i], lo, ys[0].0);
    }
  }

  /** The merge of one file's rows with the memtable's keys. Fails exactly if a
      matching row's position does not fit in 32 bits. */
  method ResolveFile(file: File, lo: bytes, hi: bytes, keys: seq<bytes>, existing: Bitmap) returns (r: Result<Bitmap>)
    requires FileOk(file) && KeysAscend(keys)
    ensures r.Ok? <==> forall p :: p in Matches(Yield(file, lo, hi), keys) ==> p < U32
    ensures r.Ok? ==> r.value == Matches(Yield(file, lo, hi), keys) - existing
    ensures r.Err? ==> r.error == Corruption
  {
    hide FileOk, Yield, Matches, Less, KeysAscend, Passed, Rising, Collected;
    var bitmap: Bitmap := {};
    var m: nat := FirstNotBelow(keys, lo);
    var it := IterUserKeysInRange(file, lo, hi);
    ghost var ys := Yield(file, lo, hi);
    ghost var n: nat := 0;
    YieldRises(file, lo, hi);
    CollectedNone(ys, keys, existing);
    if ys != [] { PassedFirst(file, ys, lo, hi, keys, m); }
    assert ys[0..] == ys;
    var item := it.NextKey();
    while item.Some?
      invariant fresh(it) && it.Ready() && n <= |ys| && m <= |keys|
      invariant item.Some? ==> n < |ys| && ys[n..] == [item.value] + it.Remaining()
      invariant item.None? ==> n == |ys|
      invariant n < |ys| ==> Passed(keys, m, ys[n].0)
      invariant Collected(ys, n, keys, existing, bitmap)
      invariant Rising(file, ys, 0, |file.rows|, lo, hi)
      decreases |ys| - n
    {
      var (uk, pos) := item.value;
      assert ys[n..][0] == ys[n];
      m := Advance(keys, m, uk);
      if m >= |keys| {
        ExhaustedMeansDone(file, ys, n, lo, hi, keys);
        break;
      }
      CollectedStep(ys, n, keys, existing, bitmap);
      if keys[m] == uk {
        if pos >= U32 {
          assert pos in Matches(ys, keys);
          return Err(Corruption);
        }
        if pos !in existing {
          bitmap := bitmap + {pos};
        }
      }
      if n + 1 < |ys| { PassedOn(file, ys, n, lo, hi, keys, m); }
      n := n + 1;
      item := it.NextKey();
      assert ys[n..] == ys[n - 1..][1..];
    }
    CollectedAll(ys, n, keys, existing, bitmap);
    r := Ok(bitmap);
  }

  // ── What one file contributes ─────────────────────────────────────────────

  /** The file is opened at all. */
  predicate Searched(codec: Codec, disk: Disk, f: DataFile, keys: seq<bytes>) {
    keys != [] && Overlaps(f.meta, keys[0], keys[|keys| - 1]) && |DvOf(codec, disk, f)| != f.meta.numRows
  }

  ghost function Found(disk: Disk, f: DataFile, keys: seq<bytes>): set<nat>
    requires keys != [] && FileOk(Content(disk, f))
  {
    Matches(Yield(Content(disk, f), Lower(f.meta, keys), Upper(f.meta, keys)), keys)
  }

  /** The positions the flush will mask in the file. */
  ghost function Delta(codec: Codec, disk: Disk, f: DataFile, keys: seq<bytes>): set<nat>
    requires FileOk(Content(disk, f))
  {
    if Searched(codec, disk, f, keys) then Found(disk, f, keys) - DvOf(codec, disk, f) else {}
  }

  /** The positions it should mask: unmasked rows of the memtable's keys. */
  function Wanted(codec: Codec, disk: Disk, f: DataFile, keys: seq<bytes>): set<nat> {
    set p | 0 <= p < |Content(disk, f).rows| && Content(disk, f).rows[p].key.uk in keys && p !in DvOf(codec, disk, f)
  }

  /** A row the resolver does not see: the file records an empty bound, or the
      row is followed by a page that starts with the window's lowest key. */
  ghost predicate Overlooked(disk: Disk, f: DataFile, keys: seq<bytes>, p: nat)
    requires keys != [] && FileOk(Content(disk, f)) && p < |Content(disk, f).rows|
  {
    f.meta.keyMin == [] || f.meta.keyMax == [] || LostAt(Content(disk, f), Lower(f.meta, keys), p)
  }

  lemma KeysWithin(keys: seq<bytes>, uk: bytes)
    requires KeysAscend(keys) && uk in keys
    ensures AtMost(keys[0], uk) && AtMost(uk, keys[|keys| - 1])
  {
    var i :| 0 <= i < |keys| && keys[i] == uk;
    LessIrreflexive(uk);
    if i > 0 { AtMostLess(keys[0], uk); }
    if i < |keys| - 1 { AtMostLess(uk, keys[|keys| - 1]); }
  }

  /** A row with one of the keys lies in the window, and then the file overlaps
      unless a recorded bound is empty. */
  lemma WantedInWindow(env: Env, codec: Codec, disk: Disk, f: DataFile, keys: seq<bytes>, p: nat)
    requires FileReady(env, codec, disk, f) && KeysAscend(keys)
    requires p < |Content(disk, f).rows| && Content(disk, f).rows[p].key.uk in keys
    ensures InWindow(Content(disk, f).rows[p].key.uk, Lower(f.meta, keys), Upper(f.meta, keys))
    ensures f.meta.keyMin != [] && f.meta.keyMax != [] ==> Overlaps(f.meta, keys[0], keys[|keys| - 1])
  {
    hide Less, KeysAscend;
    var uk := Content(disk, f).rows[p].key.uk;
    KeysWithin(keys, uk);
    WithinBounds(Content(disk, f), p);
    AtMostTransitive(keys[0], uk, f.meta.keyMax);
    AtMostTransitive(f.meta.keyMin, uk, keys[|keys| - 1]);
  }

  /** The window of a file that is searched is not inverted. */
  lemma WindowOk(env: Env, codec: Codec, disk: Disk, f: DataFile, keys: seq<bytes>)
    requires FileReady(env, codec, disk, f) && KeysAscend(keys) && keys != []
    requires Overlaps(f.meta, keys[0], keys[|keys| - 1])
    ensures AtMost(Lower(f.meta, keys), Upper(f.meta, keys))
  {
    hide Less;
    KeysWithin(keys, keys[0]);
    WithinBounds(Content(disk, f), 0);
    SortedUserKeys(Content(disk, f).rows, 0, |Content(disk, f).rows| - 1);
  }

  /** A full deletion vector leaves nothing to mask. */
  lemma {:induction false} FullMask(dv: set<nat>, n: nat)
    requires |dv| == n && forall p :: p in dv ==> p < n
    ensures forall p: nat :: p < n ==> p in dv
  {
    if n > 0 {
      if n - 1 in dv {
        FullMask(dv - {n - 1}, n - 1);
      } else {
        TooMany(dv, n - 1);
      }
    }
  }

  lemma {:induction false} TooMany(dv: set<nat>, n: nat)
    requires forall p :: p in dv ==> p < n
    ensures |dv| <= n
  {
    if n == 0 {
      assert dv == {};
    } else {
      TooMany(dv - {n - 1}, n - 1);
    }
  }

  /** Exactly what is masked: the wanted rows that are not overlooked. The
      range prune, the skip of fully masked files and the early break lose
      nothing. */
  lemma DeltaIs(env: Env, codec: Codec, disk: Disk, f: DataFile, keys: seq<bytes>, p: nat)
    requires FileReady(env, codec, disk, f) && KeysAscend(keys) && keys != []
    ensures p in Delta(codec, disk, f, keys) <==>
            p in Wanted(codec, disk, f, keys) && !Overlooked(disk, f, keys, p)
  {
    hide FileReady, KeysAscend, Overlaps, Yield, InWindow, LostAt, FileOk, Lower, Upper, DvOf;
    ReadyParts(env, codec, disk, f);
    if Searched(codec, disk, f, keys) {
      FoundIs(env, codec, disk, f, keys, p);
      OverlapBounds(f.meta, keys);
    } else if p in Wanted(codec, disk, f, keys) && f.meta.keyMin != [] && f.meta.keyMax != [] {
      WantedInWindow(env, codec, disk, f, keys, p);
      FullMask(DvOf(codec, disk, f), f.meta.numRows);
    }
  }

  lemma OverlapBounds(meta: FileMeta, keys: seq<bytes>)
    requires keys != [] && Overlaps(meta, keys[0], keys[|keys| - 1])
    ensures meta.keyMin != [] && meta.keyMax != []
  {
  }

  lemma ReadyParts(env: Env, codec: Codec, disk: Disk, f: DataFile)
    requires FileReady(env, codec, disk, f)
    ensures FileOk(Content(disk, f)) && f.meta.numRows == |Content(disk, f).rows|
    ensures forall p :: p in DvOf(codec, disk, f) ==> p < f.meta.numRows
  {
    hide WellFormed;
    assert WellFormed(Content(disk, f), env);
    ReadyFileOk(env, Content(disk, f));
  }

  lemma ReadyFileOk(env: Env, file: File)
    requires WellFormed(file, env)
    ensures FileOk(file)
  {
  }

  lemma FoundIs(env: Env, codec: Codec, disk: Disk, f: DataFile, keys: seq<bytes>, p: nat)
    requires FileReady(env, codec, disk, f) && KeysAscend(keys) && keys != []
    requires FileOk(Content(disk, f)) && Overlaps(f.meta, keys[0], keys[|keys| - 1])
    ensures p in Found(disk, f, keys) <==>
            p < |Content(disk, f).rows| && Content(disk, f).rows[p].key.uk in keys &&
            !LostAt(Content(disk, f), Lower(f.meta, keys), p)
  {
    hide FileReady, KeysAscend, Overlaps, Yield, InWindow, LostAt, IndexOk, Sorted, Sum, BoundsOk, Lower, Upper;
    var file, lo, hi := Content(disk, f), Lower(f.meta, keys), Upper(f.meta, keys);
    var ys := Yield(file, lo, hi);
    WindowOk(env, codec, disk, f, keys);
    if p in Found(disk, f, keys) {
      var i :| 0 <= i < |ys| && ys[i].0 in keys && ys[i].1 == p;
      YieldInWindow(file, lo, hi, ys[i]);
    }
    if p < |file.rows| {
      YieldMembers(file, lo, hi, p);
      if file.rows[p].key.uk in keys {
        WantedInWindow(env, codec, disk, f, keys, p);
        if !LostAt(file, lo, p) {
          var i :| 0 <= i < |ys| && ys[i] == (file.rows[p].key.uk, p);
        }
      }
    }
  }

  /** Without such rows and without empty keys, every superseded row is masked
      and nothing else; in particular with one row per key. */
  lemma DeltaExact(env: Env, codec: Codec, disk: Disk, f: DataFile, keys: seq<bytes>)
    requires FileReady(env, codec, disk, f) && KeysAscend(keys)
    requires NoneLost(Content(disk, f)) && f.meta.keyMin != [] && f.meta.keyMax != []
    ensures Delta(codec, disk, f, keys) == Wanted(codec, disk, f, keys)
  {
    hide FileReady, KeysAscend, Delta, FileOk, DvOf, LostAt;
    ReadyParts(env, codec, disk, f);
    if keys == [] {
      NothingToSearch(codec, disk, f, keys);
    } else {
      forall p: nat
        ensures p in Delta(codec, disk, f, keys) <==> p in Wanted(codec, disk, f, keys)
      {
        DeltaIs(env, codec, disk, f, keys, p);
      }
    }
  }

  lemma NothingToSearch(codec: Codec, disk: Disk, f: DataFile, keys: seq<bytes>)
    requires FileOk(Content(disk, f)) && keys == []
    ensures Delta(codec, disk, f, keys) == {} == Wanted(codec, disk, f, keys)
  {
  }

  // ── All files ─────────────────────────────────────────────────────────────

  ghost predicate Fits(codec: Codec, disk: Disk, f: DataFile, keys: seq<bytes>)
    requires FileOk(Content(disk, f))
  {
    Searched(codec, disk, f, keys) ==> forall p :: p in Found(disk, f, keys) ==> p < U32
  }

  /** The file has to be looked into, but its deletion vector or the file itself
      is damaged, or it has a matching row beyond 32-bit positions. */
  ghost predicate Unresolvable(codec: Codec, disk: Disk, f: DataFile, keys: seq<bytes>)
    requires FileOk(Content(disk, f))
  {
    keys != [] && Overlaps(f.meta, keys[0], keys[|keys| - 1]) &&
    (LoadDv(codec, disk.puffins, f.dv).Err? ||
     (|DvOf(codec, disk, f)| != f.meta.numRows && (f.path !in disk.files || !Fits(codec, disk, f, keys))))
  }

  ghost predicate Contributes(codec: Codec, disk: Disk, f: DataFile, keys: seq<bytes>, out: map<DataPath, Bitmap>)
    requires FileOk(Content(disk, f))
  {
    (f.path in out <==> Delta(codec, disk, f, keys) != {}) &&
    (f.path in out ==> out[f.path] == Delta(codec, disk, f, keys))
  }

  ghost predicate PathIn(files: set<DataFile>, path: DataPath) {
    exists f :: f in files && f.path == path
  }

  /** `out` holds the delta of each of the files, and nothing else. */
  ghost predicate Deltas(codec: Codec, disk: Disk, files: set<DataFile>, keys: seq<bytes>, out: map<DataPath, Bitmap>) {
    (forall f :: f in files ==>
      FileOk(Content(disk, f)) && !Unresolvable(codec, disk, f, keys) && Contributes(codec, disk, f, keys, out)) &&
    (forall p :: p in out ==> PathIn(files, p))
  }

  /** One file: pruned, skipped, or merged. */
  method ResolveOne(ghost env: Env, codec: Codec, disk: Disk, f: DataFile, keys: seq<bytes>) returns (r: Result<Bitmap>)
    requires FileSound(env, codec, disk, f) && FileOk(Content(disk, f)) && KeysAscend(keys) && keys != []
    ensures r.Err? <==> Unresolvable(codec, disk, f, keys)
    ensures r.Ok? ==> r.value == Delta(codec, disk, f, keys)
  {
    hide FileOk, KeysAscend, Overlaps, Lower, Upper, WellFormed, MetaOk, LoadDv, AtMost;
    if !Overlaps(f.meta, keys[0], keys[|keys| - 1]) { return Ok({}); }
    var existing := LoadDv(codec, disk.puffins, f.dv);
    if existing.Err? { return Err(existing.error); }
    if |existing.value| == f.meta.numRows { return Ok({}); }
    if f.path !in disk.files { return Err(Io); }
    var file := disk.files[f.path];
    assert existing.value == DvOf(codec, disk, f) && file == Content(disk, f);
    assert Searched(codec, disk, f, keys);
    r := ResolveFile(file, Lower(f.meta, keys), Upper(f.meta, keys), keys, existing.value);
    assert Delta(codec, disk, f, keys) == Found(disk, f, keys) - existing.value;
  }

  /** Files of one path are the same file. */
  ghost predicate SamePathSame(files: set<DataFile>, f: DataFile) {
    forall g :: g in files && g.path == f.path ==> g == f
  }

  lemma DeltasStep(codec: Codec, disk: Disk, done: set<DataFile>, keys: seq<bytes>, out: map<DataPath, Bitmap>,
                   f: DataFile, dv: Bitmap)
    requires Deltas(codec, disk, done, keys, out) && FileOk(Content(disk, f)) && !Unresolvable(codec, disk, f, keys)
    requires dv == Delta(codec, disk, f, keys) && SamePathSame(done, f)
    ensures Deltas(codec, disk, done + {f}, keys,
                   if dv == {} then out else out[f.path := (if f.path in out then out[f.path] else {}) + dv])
  {
    hide FileOk, Delta, Unresolvable;
    var all := done + {f};
    var out' := if dv == {} then out else out[f.path := (if f.path in out then out[f.path] else {}) + dv];
    if f.path in out {
      var g :| g in done && g.path == f.path;
      assert Contributes(codec, disk, f, keys, out);
    }
    forall g | g in all
      ensures FileOk(Content(disk, g)) && !Unresolvable(codec, disk, g, keys) && Contributes(codec, disk, g, keys, out')
    {
      if g in done { assert Contributes(codec, disk, g, keys, out); }
    }
    forall p | p in out'
      ensures PathIn(all, p)
    {
      if p in out {
        var g :| g in done && g.path == p;
        assert g in all;
      } else {
        assert f in all;
      }
    }
  }

  /** The files of one level. */
  method ResolveLevel(ghost env: Env, codec: Codec, disk: Disk, files: seq<DataFile>, keys: seq<bytes>,
                      start: map<DataPath, Bitmap>, ghost before: set<DataFile>)
    returns (r: Result<map<DataPath, Bitmap>>, ghost done: set<DataFile>)
    requires KeysAscend(keys) && keys != [] && Deltas(codec, disk, before, keys, start)
    requires forall f :: f in files ==> FileSound(env, codec, disk, f)
    requires forall f, g :: f in files && (g in before || g in files) && f.path == g.path ==> f == g
    ensures forall f :: f in done ==> f in before || f in files
    ensures r.Ok? ==> Deltas(codec, disk, done, keys, r.value) && before <= done && forall f :: f in files ==> f in done
    ensures r.Err? ==> exists f :: f in files && FileOk(Content(disk, f)) && Unresolvable(codec, disk, f, keys)
  {
    hide FileSound, FileOk, KeysAscend, Delta, Unresolvable, Deltas;
    done := before;
    var out := start;
    for i := 0 to |files|
      invariant before <= done && forall f :: f in files[..i] ==> f in done
      invariant forall f :: f in done ==> f in before || f in files
      invariant Deltas(codec, disk, done, keys, out)
    {
      var f := files[i];
      SoundFileOk(env, codec, disk, f);
      var dv := ResolveOne(env, codec, disk, f, keys);
      if dv.Err? {
        assert f in files && Unresolvable(codec, disk, f, keys);
        return Err(dv.error), done;
      }
      DeltasStep(codec, disk, done, keys, out, f, dv.value);
      if dv.value != {} {
        out := out[f.path := (if f.path in out then out[f.path] else {}) + dv.value];
      }
      done := done + {f};
      assert files[..i + 1] == files[..i] + [f];
    }
    assert files[..|files|] == files;
    r := Ok(out);
  }

  /** The files of levels below `n`. */
  ghost predicate UpTo(v: Version, n: nat, done: set<DataFile>) {
    forall f :: f in done <==> InVersion(v, f) && f.meta.level < n
  }

  /** `out` holds the delta of each live file, and nothing else. */
  ghost predicate AllDeltas(codec: Codec, disk: Disk, v: Version, keys: seq<bytes>, out: map<DataPath, Bitmap>) {
    (forall f :: InVersion(v, f) ==>
      FileOk(Content(disk, f)) && !Unresolvable(codec, disk, f, keys) && Contributes(codec, disk, f, keys, out)) &&
    (forall p :: p in out ==> PathLive(v, p))
  }

  ghost predicate PathLive(v: Version, path: DataPath) {
    exists f :: InVersion(v, f) && f.path == path
  }

  ghost predicate SomeUnresolvable(codec: Codec, disk: Disk, v: Version, keys: seq<bytes>) {
    exists f :: InVersion(v, f) && FileOk(Content(disk, f)) && Unresolvable(codec, disk, f, keys)
  }

  lemma SoundFileOk(env: Env, codec: Codec, disk: Disk, f: DataFile)
    requires FileSound(env, codec, disk, f)
    ensures FileOk(Content(disk, f))
  {
    hide WellFormed, MetaOk, SeqsDescend, AtMost, DvOf;
    if f.path in disk.files { ReadyFileOk(env, Content(disk, f)); }
  }

  lemma LevelIs(v: Version, level: nat, f: DataFile)
    requires WellArranged(v) && f in FilesAt(v, level)
    ensures f.meta.level == level && InVersion(v, f)
  {
  }

  /** `resolve_dv_for_flush`: the delta of every live file that has one. Fails
      exactly if a file it looks into is damaged or has a matching row beyond
      32-bit positions. */
  method Resolve(ghost env: Env, codec: Codec, disk: Disk, v: Version, keys: seq<bytes>)
    returns (r: Result<map<DataPath, Bitmap>>)
    requires VersionSound(env, codec, disk, v) && KeysAscend(keys)
    ensures r.Ok? ==> AllDeltas(codec, disk, v, keys, r.value)
    ensures r.Err? <==> SomeUnresolvable(codec, disk, v, keys)
  {
    hide Unresolvable, FileSound, FileOk, KeysAscend, Delta, InVersion, WellArranged, Contributes;
    if keys == [] {
      NoKeys(env, codec, disk, v);
      return Ok(map[]);
    }
    var max := MaxLevel(v);
    var out: map<DataPath, Bitmap> := map[];
    ghost var done: set<DataFile> := {};
    for level: nat := 0 to max + 1
      invariant UpTo(v, level, done)
      invariant Deltas(codec, disk, done, keys, out)
    {
      var files := FilesAt(v, level);
      forall f | f in files
        ensures InVersion(v, f) && f.meta.level == level
      {
        LevelIs(v, level, f);
      }
      var next, after := ResolveLevel(env, codec, disk, files, keys, out, done);
      if next.Err? { return next; }
      out := next.value;
      LevelDone(v, level, done, after);
      done := after;
    }
    NothingDeeper(v, max);
    assert forall f :: InVersion(v, f) <==> f in done;
    r := Ok(out);
  }

  lemma NoKeys(env: Env, codec: Codec, disk: Disk, v: Version)
    requires VersionSound(env, codec, disk, v)
    ensures AllDeltas(codec, disk, v, [], map[])
  {
    hide FileSound, FileOk, InVersion;
    forall f | InVersion(v, f)
      ensures FileOk(Content(disk, f)) && !Unresolvable(codec, disk, f, []) && Contributes(codec, disk, f, [], map[])
    {
      SoundFileOk(env, codec, disk, f);
    }
  }

  lemma LevelDone(v: Version, level: nat, done: set<DataFile>, after: set<DataFile>)
    requires WellArranged(v) && UpTo(v, level, done) && done <= after
    requires forall f :: f in FilesAt(v, level) ==> f in after
    requires forall f :: f in after ==> f in done || f in FilesAt(v, level)
    ensures UpTo(v, level + 1, after)
  {
  }

  lemma NothingDeeper(v: Version, max: nat)
    requires forall l :: l in v.levels ==> l <= max
    ensures forall f :: InVersion(v, f) ==> f.meta.level <= max
  {
  }
}
