/** A version: the live files of one snapshot, arranged for reading
    (`Manifest::to_version`, `iceberg/version.rs`). */
module Versions {
  import opened Wrappers
  import opened ByteStrings
  import opened Table
  import opened Manifest
  import opened Sorting

  datatype DataFile = DataFile(path: DataPath, meta: FileMeta, dv: DvCoords)

  datatype Version = Version(snapshotId: nat, levels: map<nat, seq<DataFile>>)

  function FilesAt(v: Version, level: nat): seq<DataFile> {
    if level in v.levels then v.levels[level] else []
  }

  /** The version lists file `f`. */
  predicate InVersion(v: Version, f: DataFile) {
    f in FilesAt(v, f.meta.level)
  }

  function AsDataFile(e: Entry): DataFile {
    DataFile(e.path, e.meta, e.dv)
  }

  function NewerFirst(f: DataFile, g: DataFile): bool {
    f.meta.seqMax > g.meta.seqMax
  }

  function LowerKeyFirst(f: DataFile, g: DataFile): bool {
    Less(f.meta.keyMin, g.meta.keyMin)
  }

  function LevelOrder(level: nat): (DataFile, DataFile) -> bool {
    if level == 0 then NewerFirst else LowerKeyFirst
  }

  lemma LevelOrderIsWeak(level: nat)
    ensures StrictWeak(LevelOrder(level))
  {
    if level > 0 {
      var less := LevelOrder(level);
      forall x, y
        ensures less(x, y) ==> !less(y, x)
      {
        if less(x, y) { LessAsymmetric(x.meta.keyMin, y.meta.keyMin); }
      }
      forall x, y, z | !less(y, x) && !less(z, y)
        ensures !less(z, x)
      {
        AtMostTransitive(x.meta.keyMin, y.meta.keyMin, z.meta.keyMin);
      }
    }
  }

  // ── From manifest to version ──────────────────────────────────────────────

  function Push(levels: map<nat, seq<DataFile>>, f: DataFile): map<nat, seq<DataFile>> {
    levels[f.meta.level := (if f.meta.level in levels then levels[f.meta.level] else []) + [f]]
  }

  /** The live entries by level, in manifest order. */
  function Grouped(es: seq<Entry>): map<nat, seq<DataFile>> {
    if es == [] then map[]
    else
      var rest, e := Grouped(es[..|es| - 1]), es[|es| - 1];
      if e.status == Deleted then rest else Push(rest, AsDataFile(e))
  }

  function Arranged(levels: map<nat, seq<DataFile>>): map<nat, seq<DataFile>> {
    map l | l in levels :: StableSort(levels[l], LevelOrder(l))
  }

  function VersionOf(m: Manifest): Version {
    Version(m.snapshotId, Arranged(Grouped(m.entries)))
  }

  method ToVersion(m: Manifest) returns (v: Version)
    ensures v == VersionOf(m) && v.snapshotId == m.snapshotId
  {
    var levels: map<nat, seq<DataFile>> := map[];
    for i := 0 to |m.entries|
      invariant levels == Grouped(m.entries[..i])
    {
      assert m.entries[..i + 1][..i] == m.entries[..i];
      var e := m.entries[i];
      if e.status == Deleted { continue; }
      levels := Push(levels, AsDataFile(e));
    }
    assert m.entries[..|m.entries|] == m.entries;
    var grouped, todo := levels, levels.Keys;
    while todo != {}
      invariant todo <= grouped.Keys == levels.Keys
      invariant forall l :: l in grouped ==>
                  levels[l] == if l in todo then grouped[l] else StableSort(grouped[l], LevelOrder(l))
      decreases todo
    {
      var l :| l in todo;
      levels := levels[l := StableSort(levels[l], LevelOrder(l))];
      todo := todo - {l};
    }
    assert levels == Arranged(grouped);
    v := Version(m.snapshotId, levels);
  }

  ghost predicate LiveEntry(es: seq<Entry>, e: Entry) {
    e in es && e.status != Deleted
  }

  ghost predicate FromEntry(es: seq<Entry>, f: DataFile) {
    exists e :: LiveEntry(es, e) && AsDataFile(e) == f
  }

  lemma {:induction false} GroupedIs(es: seq<Entry>, l: nat, f: DataFile)
    ensures l in Grouped(es) && f in Grouped(es)[l] <==> f.meta.level == l && FromEntry(es, f)
    ensures l in Grouped(es) ==> Grouped(es)[l] != []
  {
    if es != [] {
      var init, e := es[..|es| - 1], es[|es| - 1];
      GroupedIs(init, l, f);
      assert es == init + [e];
      FromEntryStep(init, e, f);
    }
  }

  lemma FromEntryStep(es: seq<Entry>, e: Entry, f: DataFile)
    ensures FromEntry(es + [e], f) <==> FromEntry(es, f) || (e.status != Deleted && AsDataFile(e) == f)
  {
    if FromEntry(es, f) {
      var d :| LiveEntry(es, d) && AsDataFile(d) == f;
      assert LiveEntry(es + [e], d);
    }
    if e.status != Deleted && AsDataFile(e) == f {
      assert LiveEntry(es + [e], e);
    }
    if FromEntry(es + [e], f) {
      var d :| LiveEntry(es + [e], d) && AsDataFile(d) == f;
      assert d != e ==> LiveEntry(es, d);
    }
  }

  // ── What a version promises ───────────────────────────────────────────────

  /** Files stand under their own level, L0 newest first and deeper levels by
      ascending first key. */
  ghost predicate WellArranged(v: Version) {
    forall l :: l in v.levels ==>
      v.levels[l] != [] && Ordered(v.levels[l], LevelOrder(l)) && (forall f :: f in v.levels[l] ==> f.meta.level == l)
  }

  /** The version lists exactly the live files, arranged for reading. */
  lemma VersionListsLive(m: Manifest)
    ensures WellArranged(VersionOf(m))
    ensures forall f :: InVersion(VersionOf(m), f) <==> FromEntry(m.entries, f)
  {
    hide Ordered, StableSort, Grouped, LevelOrder, FromEntry, StrictWeak;
    var v, grouped := VersionOf(m), Grouped(m.entries);
    forall l | l in v.levels
      ensures v.levels[l] != [] && Ordered(v.levels[l], LevelOrder(l))
      ensures forall f :: f in v.levels[l] <==> f.meta.level == l && FromEntry(m.entries, f)
    {
      LevelOrderIsWeak(l);
      SortIs(grouped[l], LevelOrder(l));
      SortMembers(grouped[l], LevelOrder(l));
      GroupedIs(m.entries, l, DataFile(DataPath("", ""), FileMeta(0, 0, 0, [], [], 0), NO_DV));
      forall f
        ensures f in v.levels[l] <==> f.meta.level == l && FromEntry(m.entries, f)
      {
        GroupedIs(m.entries, l, f);
      }
    }
    forall f
      ensures InVersion(v, f) <==> FromEntry(m.entries, f)
    {
      GroupedIs(m.entries, f.meta.level, f);
    }
  }

  lemma {:induction false} GroupedOnce(es: seq<Entry>, l: nat, f: DataFile)
    requires UniquePaths(es) && l in Grouped(es)
    ensures multiset(Grouped(es)[l])[f] <= 1
  {
    hide FromEntry, AsDataFile;
    if es != [] {
      var init, e := es[..|es| - 1], es[|es| - 1];
      assert UniquePaths(init) by {
        assert forall k :: 0 <= k < |init| ==> init[k] == es[k];
      }
      if l in Grouped(init) { GroupedOnce(init, l, f); }
      if e.status != Deleted {
        GroupedIs(init, l, AsDataFile(e));
        LastIsNew(init, e);
        assert es == init + [e];
        var before := if l in Grouped(init) then Grouped(init)[l] else [];
        assert Grouped(es)[l] == before || Grouped(es)[l] == before + [AsDataFile(e)];
      }
    }
  }

  lemma LastIsNew(es: seq<Entry>, e: Entry)
    requires UniquePaths(es + [e]) && e.status != Deleted
    ensures !FromEntry(es, AsDataFile(e))
  {
    forall d | LiveEntry(es, d)
      ensures d.path != e.path
    {
      var k :| 0 <= k < |es| && es[k] == d;
      assert (es + [e])[k] == d && (es + [e])[|es|] == e;
    }
  }

  /** No file is listed twice, and the version is named after the manifest's
      snapshot. */
  lemma VersionListsOnce(m: Manifest, l: nat)
    requires UniquePaths(m.entries) && l in VersionOf(m).levels
    ensures forall i, j :: 0 <= i < j < |VersionOf(m).levels[l]| ==>
              VersionOf(m).levels[l][i] != VersionOf(m).levels[l][j]
    ensures VersionOf(m).snapshotId == m.snapshotId
  {
    hide Ordered, StableSort, Grouped, LevelOrder, StrictWeak, UniquePaths;
    var group, files := Grouped(m.entries)[l], VersionOf(m).levels[l];
    LevelOrderIsWeak(l);
    SortIs(group, LevelOrder(l));
    forall i, j | 0 <= i < j < |files|
      ensures files[i] != files[j]
    {
      GroupedOnce(m.entries, l, files[i]);
      TwiceCounts(files, i, j);
    }
  }

  lemma TwiceCounts(s: seq<DataFile>, i: nat, j: nat)
    requires i < j < |s|
    ensures s[i] == s[j] ==> multiset(s)[s[i]] >= 2
  {
    var a, b := s[..j], s[j..];
    assert s == a + b && multiset(s) == multiset(a) + multiset(b);
    assert a[i] in multiset(a) && b[0] in multiset(b);
  }

  // ── Queries ───────────────────────────────────────────────────────────────

  /** The deepest level that has files, 0 if there is none. */
  method MaxLevel(v: Version) returns (max: nat)
    ensures forall l :: l in v.levels ==> l <= max
    ensures max in v.levels || max == 0
  {
    max := 0;
    var todo := v.levels.Keys;
    while todo != {}
      invariant todo <= v.levels.Keys
      invariant forall l :: l in v.levels && l !in todo ==> l <= max
      invariant max in v.levels || max == 0
      decreases todo
    {
      var l :| l in todo;
      if l > max { max := l; }
      todo := todo - {l};
    }
  }

  predicate Covers(f: DataFile, uk: bytes) {
    AtMost(f.meta.keyMin, uk) && AtMost(uk, f.meta.keyMax)
  }

  /** Key ranges of different files of a level do not meet. */
  ghost predicate NoOverlap(files: seq<DataFile>) {
    forall i, j :: 0 <= i < j < |files| ==> files[i] == files[j] || Less(files[i].meta.keyMax, files[j].meta.keyMin)
  }

  /** Finds the file that covers the key, if there is one. */
  method FindFileForKey(v: Version, level: nat, uk: bytes) returns (r: Option<DataFile>)
    requires level > 0 && Ordered(FilesAt(v, level), LevelOrder(level)) && NoOverlap(FilesAt(v, level))
    ensures r.Some? ==> r.value in FilesAt(v, level) && Covers(r.value, uk)
    ensures r.None? ==> forall f :: f in FilesAt(v, level) ==> !Covers(f, uk)
    ensures forall f :: f in FilesAt(v, level) && Covers(f, uk) ==> r == Some(f)
  {
    hide Less;
    var files := FilesAt(v, level);
    if files == [] { return None; }
    var lo, hi := 0, |files|;
    while lo < hi
      invariant 0 <= lo <= hi <= |files|
      invariant forall i :: 0 <= i < lo ==> AtMost(files[i].meta.keyMin, uk)
      invariant forall i :: hi <= i < |files| ==> !AtMost(files[i].meta.keyMin, uk)
    {
      var mid := (lo + hi) / 2;
      MidSplits(files, level, mid, uk);
      if AtMost(files[mid].meta.keyMin, uk) { lo := mid + 1; } else { hi := mid; }
    }
    if lo == 0 { return None; }
    EarlierMiss(files, lo - 1, uk);
    if AtMost(uk, files[lo - 1].meta.keyMax) {
      return Some(files[lo - 1]);
    }
    return None;
  }

  lemma MidSplits(files: seq<DataFile>, level: nat, mid: nat, uk: bytes)
    requires level > 0 && Ordered(files, LevelOrder(level)) && mid < |files|
    ensures AtMost(files[mid].meta.keyMin, uk) ==> forall i :: 0 <= i <= mid ==> AtMost(files[i].meta.keyMin, uk)
    ensures !AtMost(files[mid].meta.keyMin, uk) ==> forall i :: mid <= i < |files| ==> !AtMost(files[i].meta.keyMin, uk)
  {
    hide Less;
    forall i | 0 <= i < |files|
      ensures i < mid && AtMost(files[mid].meta.keyMin, uk) ==> AtMost(files[i].meta.keyMin, uk)
      ensures mid < i && !AtMost(files[mid].meta.keyMin, uk) ==> !AtMost(files[i].meta.keyMin, uk)
    {
      if i < mid {
        assert !LevelOrder(level)(files[mid], files[i]);
        if AtMost(files[mid].meta.keyMin, uk) { AtMostTransitive(files[i].meta.keyMin, files[mid].meta.keyMin, uk); }
      }
      if mid < i {
        assert !LevelOrder(level)(files[i], files[mid]);
        if AtMost(files[i].meta.keyMin, uk) { AtMostTransitive(files[mid].meta.keyMin, files[i].meta.keyMin, uk); }
      }
    }
  }

  /** Files before one that starts at or below the key end below the key. */
  lemma EarlierMiss(files: seq<DataFile>, k: nat, uk: bytes)
    requires NoOverlap(files) && k < |files| && AtMost(files[k].meta.keyMin, uk)
    ensures forall i :: 0 <= i < k && Covers(files[i], uk) ==> files[i] == files[k]
  {
    forall i | 0 <= i < k && files[i] != files[k]
      ensures !Covers(files[i], uk)
    {
      LessAtMost(files[i].meta.keyMax, files[k].meta.keyMin, uk);
    }
  }
}
